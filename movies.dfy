/**
 * The movie handlers: the field loop of `update_movie` and the PATCH it
 * completes, `get_movie`, and `post_movie` with its insert.
 */
module Movies {
  import opened Wrappers
  import opened Text
  import opened Dates
  import opened Values
  import opened Models
  import opened FieldCodec
  import opened PatchParser
  import opened Http
  import opened PatchGate
  import opened FieldRules
  import opened Store
  import opened Listing

  /** One turn of the field loop: the branch of `update_movie` for `key`. */
  function ApplyMovieField(m: Movie, key: string, v: Value): (r: Option<Movie>)
    ensures r.Some? ==> (key != "title" ==> r.value.title == m.title) && (key != "genre" ==> r.value.genre == m.genre)
    ensures r.Some? ==> (key != "release_date" ==> r.value.releaseDate == m.releaseDate)
    ensures r.Some? ==> (key != "poster_url" ==> r.value.posterUrl == m.posterUrl)
  {
    if key == "title" then
      var t := RequiredText(v);
      if t.None? then None else Some(m.(title := t.value))
    else if key == "genre" then
      var g := GenreRule(v);
      if g.None? then None else Some(m.(genre := g.value))
    else if key == "release_date" then
      var d := ReleaseDateRule(v);
      if d.None? then None else Some(m.(releaseDate := d.value))
    else if key == "poster_url" then
      var p := PosterUrlRule(v);
      if p.None? then None else Some(m.(posterUrl := p.value))
    else Some(m)
  }

  /** The field loop from entry `i` of `data` on; `None` where it aborts with 400. */
  function ApplyMovieFieldsFrom(m: Movie, data: seq<(string, Value)>, i: nat): Option<Movie>
    requires i <= |data|
    decreases |data| - i
  {
    if i == |data| then Some(m)
    else
      var next := ApplyMovieField(m, data[i].0, data[i].1);
      if next.None? then None else ApplyMovieFieldsFrom(next.value, data, i + 1)
  }

  /** `for key in data: ...` applied to `movie`. */
  function ApplyMovieFields(m: Movie, data: seq<(string, Value)>): Option<Movie>
  {
    ApplyMovieFieldsFrom(m, data, 0)
  }

  /** The field loop as the handler runs it, assigning the row's fields one by one. */
  method UpdateMovieFields(movie: Movie, data: seq<(string, Value)>) returns (r: Option<Movie>)
    ensures r == ApplyMovieFields(movie, data)
  {
    var edited := movie;
    var i := 0;
    while i < |data|
      invariant 0 <= i <= |data|
      invariant ApplyMovieFields(movie, data) == ApplyMovieFieldsFrom(edited, data, i)
    {
      var (key, value) := data[i];
      if key == "title" {
        var t := RequiredText(value);
        if t.None? {
          return None;
        }
        edited := edited.(title := t.value);
      }
      if key == "genre" {
        var g := GenreRule(value);
        if g.None? {
          return None;
        }
        edited := edited.(genre := g.value);
      }
      if key == "release_date" {
        var d := ReleaseDateRule(value);
        if d.None? {
          return None;
        }
        edited := edited.(releaseDate := d.value);
      }
      if key == "poster_url" {
        var p := PosterUrlRule(value);
        if p.None? {
          return None;
        }
        edited := edited.(posterUrl := p.value);
      }
      i := i + 1;
    }
    return Some(edited);
  }

  /**
   * A reference for the field loop that looks each field up instead of
   * iterating: every patched field must pass its rule, and the row takes
   * the rules' results.
   */
  function MovieByLookup(m: Movie, data: seq<(string, Value)>): Option<Movie>
  {
    var title := Pick(Get(data, "title"), m.title, RequiredText);
    var genre := Pick(Get(data, "genre"), m.genre, GenreRule);
    var date := Pick(Get(data, "release_date"), m.releaseDate, ReleaseDateRule);
    var poster := Pick(Get(data, "poster_url"), m.posterUrl, PosterUrlRule);
    if title.None? || genre.None? || date.None? || poster.None? then None
    else Some(Movie(title.value, genre.value, date.value, poster.value))
  }

  lemma LookupStep(m: Movie, k: string, v: Value, rest: seq<(string, Value)>)
    requires k !in Keys(rest)
    ensures var next := ApplyMovieField(m, k, v);
      MovieByLookup(m, [(k, v)] + rest) == if next.None? then None else MovieByLookup(next.value, rest)
  {
    var d := [(k, v)] + rest;
    assert d[1..] == rest;
    assert forall f :: Get(d, f) == if f == k then Some(v) else Get(rest, f);
    assert Get(rest, k) == None;
    if k == "title" {
      assert MovieByLookup(m, d) == (if RequiredText(v).None? then None else MovieByLookup(m.(title := RequiredText(v).value), rest));
    } else if k == "genre" {
      assert MovieByLookup(m, d) == (if GenreRule(v).None? then None else MovieByLookup(m.(genre := GenreRule(v).value), rest));
    } else if k == "release_date" {
      assert MovieByLookup(m, d) == (if ReleaseDateRule(v).None? then None else MovieByLookup(m.(releaseDate := ReleaseDateRule(v).value), rest));
    } else if k == "poster_url" {
      assert MovieByLookup(m, d) == (if PosterUrlRule(v).None? then None else MovieByLookup(m.(posterUrl := PosterUrlRule(v).value), rest));
    } else {
      assert MovieByLookup(m, d) == MovieByLookup(m, rest);
    }
  }

  lemma {:induction false} FoldFromIsLookup(m: Movie, data: seq<(string, Value)>, i: nat)
    requires DistinctKeys(data) && i <= |data|
    ensures ApplyMovieFieldsFrom(m, data, i) == MovieByLookup(m, data[i..])
    decreases |data| - i
  {
    if i == |data| {
      assert data[i..] == [];
    } else {
      var (k, v) := data[i];
      var rest := data[i + 1..];
      assert data[i..] == [(k, v)] + rest;
      assert k !in Keys(rest);
      LookupStep(m, k, v, rest);
      var next := ApplyMovieField(m, k, v);
      if next.Some? {
        FoldFromIsLookup(next.value, data, i + 1);
      }
    }
  }

  /** On a dict (distinct keys), the field loop and the lookup reference agree. */
  lemma FieldLoopIsLookup(m: Movie, data: seq<(string, Value)>)
    requires DistinctKeys(data)
    ensures ApplyMovieFields(m, data) == MovieByLookup(m, data)
  {
    FoldFromIsLookup(m, data, 0);
    assert data[0..] == data;
  }

  /**
   * The order of the patched fields does not matter: two dicts with the same
   * contents give the same row.
   */
  lemma FieldOrderIrrelevant(m: Movie, d1: seq<(string, Value)>, d2: seq<(string, Value)>)
    requires DistinctKeys(d1) && DistinctKeys(d2)
    requires forall k :: Get(d1, k) == Get(d2, k)
    ensures ApplyMovieFields(m, d1) == ApplyMovieFields(m, d2)
  {
    FieldLoopIsLookup(m, d1);
    FieldLoopIsLookup(m, d2);
    assert Get(d1, "title") == Get(d2, "title") && Get(d1, "genre") == Get(d2, "genre");
    assert Get(d1, "release_date") == Get(d2, "release_date") && Get(d1, "poster_url") == Get(d2, "poster_url");
  }

  /** Running the field loop again on its own result with the same fields changes nothing. */
  lemma FieldLoopIdempotent(m: Movie, data: seq<(string, Value)>)
    requires DistinctKeys(data) && ApplyMovieFields(m, data).Some?
    ensures ApplyMovieFields(ApplyMovieFields(m, data).value, data) == ApplyMovieFields(m, data)
  {
    FieldLoopIsLookup(m, data);
    FieldLoopIsLookup(ApplyMovieFields(m, data).value, data);
  }

  /** A failing field aborts the loop, wherever it sits in the dict. */
  lemma FailingFieldAborts(m: Movie, data: seq<(string, Value)>, i: nat)
    requires DistinctKeys(data) && i < |data|
    requires ApplyMovieField(m, data[i].0, data[i].1).None?
    ensures ApplyMovieFields(m, data) == None
  {
    FieldLoopIsLookup(m, data);
    assert Get(data, data[i].0) == Some(data[i].1) by {
      assert Keys(data)[i] == data[i].0;
    }
  }

  /** `update_movie`: the response and the movie table after the PATCH. */
  function PatchMovie(rows: map<int, Movie>, id: int, contentType: Option<string>, body: Option<Value>,
                      hash: Value -> string): (Response, map<int, Movie>)
  {
    PatchRecord(rows, id, contentType, body, MovieColumns, ApplyMovieFields, FormatMovie, hash)
  }

  /** `update_movie` on the table, with the loop and the single `update()`. */
  method UpdateMovie(table: Table<Movie>, id: int, contentType: Option<string>, body: Option<Value>,
                     hash: Value -> string) returns (resp: Response)
    requires table.Valid()
    modifies table
    ensures table.Valid() && table.nextId == old(table.nextId)
    ensures (resp, table.rows) == PatchMovie(old(table.rows), id, contentType, body, hash)
  {
    if contentType != Some(PatchContentType) {
      return Abort(415);
    }
    if body.None? || !body.value.List? {
      return Abort(400);
    }
    var data := ConvertPatchRequest(body.value.items, MovieColumns);
    if data.Err? {
      return Abort(if data.error == KeyError then 500 else 400);
    }
    if id !in table.rows {
      return Abort(404);
    }
    var movie := table.rows[id];
    var origHash := hash(FormatMovie(id, movie));
    var edited := UpdateMovieFields(movie, data.value);
    if edited.None? {
      return Abort(400);
    }
    var newHash := hash(FormatMovie(id, edited.value));
    if newHash == origHash {
      return Response(204, Some(origHash), None);
    }
    table.Update(id, edited.value);
    return Response(200, Some(newHash), Some(SuccessId(Int(id))));
  }

  /** Repeating an accepted movie PATCH answers 204 with the same tag and writes nothing. */
  lemma MoviePatchIdempotent(rows: map<int, Movie>, id: int, contentType: Option<string>, body: Option<Value>,
                             hash: Value -> string)
    requires PatchMovie(rows, id, contentType, body, hash).0.status in {200, 204}
    ensures var first := PatchMovie(rows, id, contentType, body, hash);
      PatchMovie(first.1, id, contentType, body, hash) == (Response(204, first.0.etag, None), first.1)
  {
    forall m, d | DistinctKeys(d) && ApplyMovieFields(m, d).Some?
      ensures ApplyMovieFields(ApplyMovieFields(m, d).value, d) == ApplyMovieFields(m, d)
    {
      FieldLoopIdempotent(m, d);
    }
    PatchIdempotent(rows, id, contentType, body, MovieColumns, ApplyMovieFields, FormatMovie, hash);
  }

  /**
   * When no two rows under `id` share a tag, a movie PATCH that
   * changes the row is written and answers a new tag.
   */
  lemma MovieChangeDetected(rows: map<int, Movie>, id: int, body: seq<Value>, hash: Value -> string)
    requires forall a, b :: hash(FormatMovie(id, a)) == hash(FormatMovie(id, b)) ==> a == b
    requires id in rows && ConvertPatch(body, MovieColumns).Ok?
    requires ApplyMovieFields(rows[id], ConvertPatch(body, MovieColumns).value).Some?
    requires ApplyMovieFields(rows[id], ConvertPatch(body, MovieColumns).value).value != rows[id]
    ensures var r := PatchMovie(rows, id, Some(PatchContentType), Some(List(body)), hash);
      && r.0.status == 200
      && r.0.etag != Some(hash(FormatMovie(id, rows[id])))
      && r.1 == rows[id := ApplyMovieFields(rows[id], ConvertPatch(body, MovieColumns).value).value]
  {
    ChangeDetected(rows, id, body, MovieColumns, ApplyMovieFields, FormatMovie, hash);
  }

  /**
   * A well-formed PATCH whose fields pass: the row becomes the edited one,
   * the answer is 204 exactly when nothing changed (else 200), and its tag
   * is the one a following GET reports.
   */
  lemma MoviePatchOutcome(rows: map<int, Movie>, id: int, body: seq<Value>, hash: Value -> string, edited: Movie)
    requires forall a, b :: hash(FormatMovie(id, a)) == hash(FormatMovie(id, b)) ==> a == b
    requires id in rows && ConvertPatch(body, MovieColumns).Ok?
    requires ApplyMovieFields(rows[id], ConvertPatch(body, MovieColumns).value) == Some(edited)
    ensures var r := PatchMovie(rows, id, Some(PatchContentType), Some(List(body)), hash);
      && r.1 == rows[id := edited]
      && r.0.status in {200, 204}
      && (r.0.status == 204 <==> edited == rows[id])
      && r.0.etag == GetMovie(r.1, id, hash).etag
  {
    if edited == rows[id] {
      NoChangeNoWrite(rows, id, body, MovieColumns, ApplyMovieFields, FormatMovie, hash);
      assert rows[id := edited] == rows;
    } else {
      MovieChangeDetected(rows, id, body, hash);
    }
    PatchTagMatchesGet(rows, id, Some(PatchContentType), Some(List(body)), hash);
  }

  /** The field `get_movies` filters and orders by. */
  function MovieTitle(x: Movie): string
  {
    x.title
  }

  /** `get_movies`: the page of movies whose title contains `search`, ordered by title. */
  ghost function GetMovies(rows: map<int, Movie>, search: string, page: Option<int>): (r: Response)
    requires PageNumber(page) >= 1
    ensures r.status == 200 && r.etag.None?
  {
    ListResponse(rows, MovieTitle, FormatMovie, search, page, "movies", "total_movies")
  }

  /**
   * A page of `get_movies` lists at most ten distinct stored movies, each
   * with the search term in its title (ignoring case), in title order.
   */
  lemma MoviesPage(rows: map<int, Movie>, search: string, page: Option<int>)
    requires PageNumber(page) >= 1
    ensures var ids := PageIds(rows, MovieTitle, search, page);
      && |ids| <= PerPage
      && (forall i :: 0 <= i < |ids| ==> ids[i] in rows && Matches(rows[ids[i]].title, search))
      && (forall i, j :: 0 <= i < j < |ids| ==> ids[i] != ids[j] && LexLessEq(rows[ids[i]].title, rows[ids[j]].title))
  {
    PageRowsMatch(rows, MovieTitle, search, page);
    PageSorted(rows, MovieTitle, search, page);
  }

  /** Every stored movie whose title contains the search term is on some page. */
  lemma MovieOnSomePage(rows: map<int, Movie>, search: string, id: int)
    requires id in rows && Matches(rows[id].title, search)
    ensures exists n :: n >= 1 && id in PageIds(rows, MovieTitle, search, Some(n))
  {
    EveryMatchListed(rows, MovieTitle, search, id);
  }

  /** `get_movie`: 404 for a missing row, else the row with its tag. */
  function GetMovie(rows: map<int, Movie>, id: int, hash: Value -> string): (r: Response)
    ensures r.status == 200 <==> id in rows
    ensures id !in rows ==> r == Abort(404)
    ensures id in rows ==> r.etag == Some(hash(FormatMovie(id, rows[id])))
  {
    if id !in rows then Abort(404)
    else
      var formatted := FormatMovie(id, rows[id]);
      Response(200, Some(hash(formatted)), CamelCased(Dict([("success", Bool(true)), ("movie", formatted)])))
  }

  /**
   * The tag a PATCH answers with is the tag a following GET reports, both
   * when it wrote (200) and when it did not (204).
   */
  lemma PatchTagMatchesGet(rows: map<int, Movie>, id: int, contentType: Option<string>, body: Option<Value>,
                           hash: Value -> string)
    requires PatchMovie(rows, id, contentType, body, hash).0.status in {200, 204}
    ensures var r := PatchMovie(rows, id, contentType, body, hash);
      GetMovie(r.1, id, hash).status == 200 && GetMovie(r.1, id, hash).etag == r.0.etag
  {
    OnlySuccessWrites(rows, id, contentType, body, MovieColumns, ApplyMovieFields, FormatMovie, hash);
  }

  lemma GenreAddChecked()
    ensures CheckOp(OpWithValue("add", "/genre", Str("COMEDY")), MovieColumns) == Ok(("genre", Str("COMEDY")))
  {
    assert DropFirst("/genre") == "genre";
    assert CamelToSnake("genre") == "genre";
    AddAccepted("/genre", Str("COMEDY"), MovieColumns);
  }

  lemma DateRemoveChecked()
    ensures CheckOp(Op("remove", "/releaseDate"), MovieColumns) == Ok(("release_date", Null))
  {
    assert DropFirst("/releaseDate") == "releaseDate";
    ReleaseDateColumn();
    RemoveAccepted("/releaseDate", MovieColumns);
  }

  /** The body of `movies_tests.test_patch_movie` converts to a genre write and a date clear. */
  lemma GenreAndDateBody()
    ensures ConvertPatch([OpWithValue("add", "/genre", Str("COMEDY")), Op("remove", "/releaseDate")], MovieColumns) ==
      Ok([("genre", Str("COMEDY")), ("release_date", Null)])
  {
    var body := [OpWithValue("add", "/genre", Str("COMEDY")), Op("remove", "/releaseDate")];
    var one := [("genre", Str("COMEDY"))];
    var two := [("genre", Str("COMEDY")), ("release_date", Null)];
    assert ConvertFrom(one, body, 1, MovieColumns) == Ok(two) by {
      DateRemoveChecked();
      assert body[1] == Op("remove", "/releaseDate");
      assert Put(one, "release_date", Null) == two;
      assert ConvertFrom(two, body, 2, MovieColumns) == Ok(two);
    }
    assert ConvertFrom([], body, 0, MovieColumns) == ConvertFrom(one, body, 1, MovieColumns) by {
      GenreAddChecked();
      assert body[0] == OpWithValue("add", "/genre", Str("COMEDY"));
      assert Put([], "genre", Str("COMEDY")) == one;
    }
  }

  /**
   * `movies_tests.test_patch_movie`: setting the genre and removing the
   * release date changes exactly those two columns.
   */
  lemma GenreAndDatePatch(m: Movie)
    ensures ApplyMovieFields(m, [("genre", Str("COMEDY")), ("release_date", Null)]) ==
      Some(m.(genre := Comedy, releaseDate := None))
  {
    GenreNamesAccepted(Comedy);
    var data := [("genre", Str("COMEDY")), ("release_date", Null)];
    var m1 := m.(genre := Comedy);
    assert ApplyMovieField(m, "genre", Str("COMEDY")) == Some(m1);
    assert ApplyMovieField(m1, "release_date", Null) == Some(m1.(releaseDate := None));
  }

  /** `movies_tests.test_patch_movie_400_*`: an empty title, a removed title or an empty date is refused. */
  lemma RefusedMovieFields(m: Movie, data: seq<(string, Value)>)
    requires DistinctKeys(data)
    requires Get(data, "title") in {Some(Null), Some(Str(""))} || Get(data, "release_date") == Some(Str(""))
    ensures ApplyMovieFields(m, data) == None
  {
    FieldLoopIsLookup(m, data);
  }

  /** The validation at the top of `post_movie`. */
  predicate MovieBodyValid(e: seq<(string, Value)>)
  {
    var title := Get(e, "title");
    var genre := Get(e, "genre");
    var date := Get(e, "releaseDate");
    var poster := Get(e, "posterUrl");
    && title.Some? && title.value.Str? && title.value.s != ""
    && genre.Some? && IsGenreValue(genre.value)
    && (date.None? || date.value == Null || date.value.Str?)
    && (poster.None? || poster.value == Null || poster.value.Str?)
  }

  /** `body.get(key)` of a string-or-None field, as an optional string. */
  function OptionalText(entry: Option<Value>): (r: Option<string>)
    ensures r.Some? <==> entry.Some? && entry.value.Str?
    ensures r.Some? ==> r.value == entry.value.s
  {
    if entry.Some? && entry.value.Str? then Some(entry.value.s) else None
  }

  /**
   * `post_movie` up to the insert: the new row, or the status it ends with.
   * A body that is not a JSON object fails on `body.get` (500); a title that
   * strips to nothing passes the validation and then fails in the `Movie`
   * constructor (500); a release date that strips to nothing means no date.
   * A valid body with a title that is not blank and a readable date is
   * accepted.
   */
  function NewMovieFromBody(body: Value): (r: Result<Movie, int>)
    ensures !body.Dict? ==> r == Err(500)
    ensures body.Dict? && !MovieBodyValid(body.entries) ==> r == Err(400)
    ensures r.Ok? ==> body.Dict? && MovieBodyValid(body.entries)
    ensures r.Ok? ==> r.value.title == Strip(Get(body.entries, "title").value.s) && r.value.title != ""
    ensures r.Ok? ==> Get(body.entries, "genre") == Some(Str(GenreValue(r.value.genre)))
    ensures r.Ok? ==> r.value.posterUrl == OptionalText(Get(body.entries, "posterUrl"))
    ensures body.Dict? && MovieBodyValid(body.entries) ==>
      (Strip(Get(body.entries, "title").value.s) != "" && DateReadable(Get(body.entries, "releaseDate")) ==> r.Ok?)
  {
    if !body.Dict? then Err(500)
    else if !MovieBodyValid(body.entries) then Err(400)
    else
      var title := Strip(Get(body.entries, "title").value.s);
      var genreText := Strip(Get(body.entries, "genre").value.s);
      PostedGenreNamed(body.entries);
      var date := Get(body.entries, "releaseDate");
      var dateText := if date.Some? && date.value.Str? && date.value.s != "" then Strip(date.value.s) else "";
      var parsed := if dateText == "" then None else ParseDate(dateText);
      if dateText != "" && parsed.None? then Err(400)
      else
        var genre := GenreByName(genreText);
        if genre.None? then Err(500)
        else
          var movie := NewMovie(genre.value, title, parsed, OptionalText(Get(body.entries, "posterUrl")));
          if movie.None? then Err(500)
          else
            assert Get(body.entries, "genre") == Some(Str(GenreValue(genre.value))) by {
              var g :| Get(body.entries, "genre").value == Str(GenreValue(g));
              GenreNameUnpadded(g);
              GenreTable();
            }
            Ok(movie.value)
  }

  /** The release date `post_movie` stores: none for an absent, null or blank one, else the parsed date. */
  lemma NewMovieDate(body: Value)
    requires NewMovieFromBody(body).Ok?
    ensures var date := Get(body.entries, "releaseDate");
      var m := NewMovieFromBody(body).value;
      && (date.None? || date.value == Null || Strip(date.value.s) == "" ==> m.releaseDate == None)
      && (date.Some? && date.value.Str? && Strip(date.value.s) != "" ==>
            m.releaseDate == ParseDate(Strip(date.value.s)) && m.releaseDate.Some?)
  {
    var date := Get(body.entries, "releaseDate");
    if date.Some? && date.value.Str? && date.value.s == "" {
      assert Strip(date.value.s) == "";
    }
  }

  /** A valid body whose release date is not blank and does not parse is refused with 400. */
  lemma NewMovieBadDate(e: seq<(string, Value)>, d: string)
    requires MovieBodyValid(e) && Get(e, "releaseDate") == Some(Str(d))
    requires Strip(d) != "" && ParseDate(Strip(d)).None?
    ensures NewMovieFromBody(Dict(e)) == Err(400)
  {
    assert d != "";
  }

  /**
   * A posted release date `post_movie` gets past: absent, null, blank after
   * stripping, or text that parses as a date.
   */
  predicate DateReadable(date: Option<Value>)
  {
    date.None? || !date.value.Str? || Strip(date.value.s) == "" || ParseDate(Strip(date.value.s)).Some?
  }

  /** The genre a valid body posts names a member once stripped. */
  lemma PostedGenreNamed(e: seq<(string, Value)>)
    requires MovieBodyValid(e)
    ensures GenreByName(Strip(Get(e, "genre").value.s)).Some?
  {
    var g :| Get(e, "genre").value == Str(GenreValue(g));
    GenreNameUnpadded(g);
    GenreTable();
  }

  /**
   * A valid body with a readable release date whose title strips to nothing
   * passes the validation and ends in the constructor's ValueError (500).
   */
  lemma NewMovieBlankTitle(e: seq<(string, Value)>, t: string)
    requires MovieBodyValid(e) && Get(e, "title") == Some(Str(t)) && Strip(t) == ""
    requires DateReadable(Get(e, "releaseDate"))
    ensures NewMovieFromBody(Dict(e)) == Err(500)
  {
    var date := Get(e, "releaseDate");
    if date.Some? && date.value.Str? && date.value.s == "" {
      assert Strip(date.value.s) == "";
    }
    var g :| Get(e, "genre").value == Str(GenreValue(g));
    GenreNameUnpadded(g);
    GenreTable();
  }

  /** `post_movie`: validation, then `movie.add()` and 201 with the new key. */
  method PostMovie(table: Table<Movie>, body: Value) returns (resp: Response)
    requires table.Valid()
    modifies table
    ensures table.Valid()
    ensures NewMovieFromBody(body).Err? ==>
      resp == Abort(NewMovieFromBody(body).error) && table.rows == old(table.rows) && table.nextId == old(table.nextId)
    ensures NewMovieFromBody(body).Ok? ==>
      && resp == Response(201, None, Some(SuccessId(Int(old(table.nextId)))))
      && old(table.nextId) !in old(table.rows)
      && table.rows == old(table.rows)[old(table.nextId) := NewMovieFromBody(body).value]
  {
    var movie := NewMovieFromBody(body);
    if movie.Err? {
      return Abort(movie.error);
    }
    var id := table.Add(movie.value);
    return Response(201, None, Some(SuccessId(Int(id))));
  }
}
