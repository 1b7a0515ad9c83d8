/**
 * The movie edit page: the form it fills from a loaded movie, the JSON Patch
 * list `onSubmit` builds from the edited form, and what the backend's
 * `update_movie` makes of that list.
 */
module EditMovie {
  import opened Wrappers
  import opened Text
  import opened Dates
  import opened Values
  import opened Models
  import opened FieldCodec
  import opened PatchParser
  import opened Http
  import opened PatchGate
  import opened FieldRules
  import opened Movies
  import opened PatchBuilder

  /** The movie as the page receives it from `GET /movies/<id>`. */
  datatype LoadedMovie = LoadedMovie(title: string, genre: string, posterUrl: Option<string>, releaseDate: Option<string>)

  /** The form values formik hands to `onSubmit`. */
  datatype MovieForm = MovieForm(title: string, genre: string, posterUrl: string, releaseDate: string)

  /** A stored row as the GET renders it: the genre by its name, the date as YYYY-MM-DD. */
  function Loaded(m: Movie): LoadedMovie
    requires m.releaseDate.Some? ==> ValidDate(m.releaseDate.value)
  {
    LoadedMovie(m.title, GenreName(m.genre), m.posterUrl,
                if m.releaseDate.None? then None else Some(IsoFormat(m.releaseDate.value)))
  }

  /** `initialValues`: each loaded field, or "" where it is missing; the genre from its state. */
  function InitialForm(movie: LoadedMovie): MovieForm
  {
    MovieForm(movie.title, movie.genre, OrEmpty(movie.posterUrl), OrEmpty(movie.releaseDate))
  }

  /** The `Content-Type` the page sends with the PATCH. */
  const SentContentType: string := "application/json-patch+json"

  /** The title step: an add of the trimmed title when the title field differs from the loaded one. */
  function TitleOps(movie: LoadedMovie, values: MovieForm): seq<PatchOp>
  {
    if values.title != movie.title then [Add("/title", Str(Trim(values.title)))] else []
  }

  /** The genre step: an add of the selected genre when it differs from the loaded one. */
  function GenreOps(movie: LoadedMovie, values: MovieForm): seq<PatchOp>
  {
    if values.genre != movie.genre then [Add("/genre", Str(values.genre))] else []
  }

  /** The whole `patches` list, the four steps in the order the page pushes them. */
  function MoviePatches(movie: LoadedMovie, values: MovieForm): seq<PatchOp>
  {
    TitleOps(movie, values) + GenreOps(movie, values)
      + OptionalFieldOps("/posterUrl", values.posterUrl, movie.posterUrl)
      + OptionalFieldOps("/releaseDate", values.releaseDate, movie.releaseDate)
  }

  /** `onSubmit` up to the request: the pushes onto `patches`, one field after the other. */
  method BuildMoviePatches(movie: LoadedMovie, values: MovieForm) returns (patches: seq<PatchOp>)
    ensures patches == MoviePatches(movie, values)
  {
    patches := [];
    if values.title != movie.title {
      patches := patches + [Add("/title", Str(Trim(values.title)))];
    }
    if values.genre != movie.genre {
      patches := patches + [Add("/genre", Str(values.genre))];
    }
    assert patches == TitleOps(movie, values) + GenreOps(movie, values);
    if values.posterUrl == "" && JsTruthy(movie.posterUrl) {
      patches := patches + [Remove("/posterUrl")];
    } else if values.posterUrl != "" && Some(values.posterUrl) != movie.posterUrl {
      patches := patches + [Add("/posterUrl", Str(values.posterUrl))];
    }
    assert patches == TitleOps(movie, values) + GenreOps(movie, values)
      + OptionalFieldOps("/posterUrl", values.posterUrl, movie.posterUrl);
    if values.releaseDate == "" && JsTruthy(movie.releaseDate) {
      patches := patches + [Remove("/releaseDate")];
    } else if values.releaseDate != "" && Some(values.releaseDate) != movie.releaseDate {
      patches := patches + [Add("/releaseDate", Str(values.releaseDate))];
    }
  }

  /** The place of each movie column in the order the page patches them; -1 for any other column. */
  function MovieColumnRank(column: string): int
  {
    if column == "title" then 0
    else if column == "genre" then 1
    else if column == "poster_url" then 2
    else if column == "release_date" then 3
    else -1
  }

  lemma TitlePathColumn()
    ensures CamelToSnake(DropFirst("/title")) == "title"
  {
    assert DropFirst("/title") == "title";
  }

  lemma GenrePathColumn()
    ensures CamelToSnake(DropFirst("/genre")) == "genre"
  {
    assert DropFirst("/genre") == "genre";
  }

  lemma PosterUrlPathColumn()
    ensures CamelToSnake(DropFirst("/posterUrl")) == "poster_url"
  {
    assert DropFirst("/posterUrl") == "posterUrl";
    PosterUrlColumn();
  }

  lemma ReleaseDatePathColumn()
    ensures CamelToSnake(DropFirst("/releaseDate")) == "release_date"
  {
    assert DropFirst("/releaseDate") == "releaseDate";
    ReleaseDateColumn();
  }

  /** Each of the four steps patches its own column. */
  lemma TitleStepColumn(movie: LoadedMovie, values: MovieForm)
    ensures OnColumn(TitleOps(movie, values), "title")
  {
    TitlePathColumn();
  }

  lemma GenreStepColumn(movie: LoadedMovie, values: MovieForm)
    ensures OnColumn(GenreOps(movie, values), "genre")
  {
    GenrePathColumn();
  }

  lemma OptionalStepColumn(path: string, form: string, stored: Option<string>, column: string)
    requires CamelToSnake(DropFirst(path)) == column
    ensures OnColumn(OptionalFieldOps(path, form, stored), column)
  {
  }

  lemma MovieStepColumns(movie: LoadedMovie, values: MovieForm)
    ensures OnColumn(TitleOps(movie, values), "title")
    ensures OnColumn(GenreOps(movie, values), "genre")
    ensures OnColumn(OptionalFieldOps("/posterUrl", values.posterUrl, movie.posterUrl), "poster_url")
    ensures OnColumn(OptionalFieldOps("/releaseDate", values.releaseDate, movie.releaseDate), "release_date")
  {
    TitleStepColumn(movie, values);
    GenreStepColumn(movie, values);
    PosterUrlPathColumn();
    OptionalStepColumn("/posterUrl", values.posterUrl, movie.posterUrl, "poster_url");
    ReleaseDatePathColumn();
    OptionalStepColumn("/releaseDate", values.releaseDate, movie.releaseDate, "release_date");
  }

  /** The ranked columns are movie columns. */
  lemma RankedMovieColumns()
    ensures forall c :: MovieColumnRank(c) >= 0 ==> c in MovieColumns
  {
    forall c | MovieColumnRank(c) >= 0
      ensures c in MovieColumns
    {
      if c == "title" {
        assert MovieColumns[1] == c;
      } else if c == "genre" {
        assert MovieColumns[3] == c;
      } else if c == "poster_url" {
        assert MovieColumns[4] == c;
      } else {
        assert MovieColumns[2] == c;
      }
    }
  }

  /**
   * The list patches the four fields in the page's order, each at most once,
   * and every path names a movie column.
   */
  lemma MoviePatchesShape(movie: LoadedMovie, values: MovieForm)
    ensures Ranked(MoviePatches(movie, values), MovieColumnRank)
    ensures DistinctColumns(MoviePatches(movie, values), MovieColumns)
  {
    MovieStepColumns(movie, values);
    RankedParts(TitleOps(movie, values), GenreOps(movie, values),
                OptionalFieldOps("/posterUrl", values.posterUrl, movie.posterUrl),
                OptionalFieldOps("/releaseDate", values.releaseDate, movie.releaseDate),
                "title", "genre", "poster_url", "release_date", MovieColumnRank);
    RankedMovieColumns();
    RankedDistinct(MoviePatches(movie, values), MovieColumnRank, MovieColumns);
  }

  /** Submitting the form as it was filled sends an empty list. */
  lemma PristineFormSendsNothing(movie: LoadedMovie)
    ensures MoviePatches(movie, InitialForm(movie)) == []
  {
  }

  /** The value the list writes to each movie column: the step for that field decides. */
  lemma MoviePatchReads(movie: LoadedMovie, values: MovieForm, column: string)
    ensures WrittenTo(MoviePatches(movie, values), column) ==
      if column == "title" then Sole(TitleOps(movie, values))
      else if column == "genre" then Sole(GenreOps(movie, values))
      else if column == "poster_url" then Sole(OptionalFieldOps("/posterUrl", values.posterUrl, movie.posterUrl))
      else if column == "release_date" then Sole(OptionalFieldOps("/releaseDate", values.releaseDate, movie.releaseDate))
      else None
  {
    MovieStepColumns(movie, values);
    WrittenToParts(TitleOps(movie, values), GenreOps(movie, values),
                   OptionalFieldOps("/posterUrl", values.posterUrl, movie.posterUrl),
                   OptionalFieldOps("/releaseDate", values.releaseDate, movie.releaseDate),
                   "title", "genre", "poster_url", "release_date", column);
  }

  /** The form is one the backend accepts: a changed title is not blank after trimming, a changed genre is a genre's name, a changed date parses. */
  predicate AcceptableForm(m: Movie, values: MovieForm)
    requires m.releaseDate.Some? ==> ValidDate(m.releaseDate.value)
  {
    var movie := Loaded(m);
    && (values.title != movie.title ==> Trim(values.title) != "")
    && (values.genre != movie.genre ==> GenreByName(values.genre).Some?)
    && (values.releaseDate != "" && Some(values.releaseDate) != movie.releaseDate ==> ParseDate(Strip(values.releaseDate)).Some?)
  }

  lemma TitleOutcome(m: Movie, values: MovieForm)
    requires values.title != m.title ==> Trim(values.title) != ""
    ensures var t := Pick(Sole(TitleOps(LoadedMovie(m.title, "", None, None), values)), m.title, RequiredText);
      t == Some(if values.title == m.title then m.title else Strip(Trim(values.title)))
  {
  }

  lemma GenreOutcome(m: Movie, values: MovieForm)
    requires values.genre != GenreName(m.genre) ==> GenreByName(values.genre).Some?
    ensures var g := Pick(Sole(GenreOps(LoadedMovie("", GenreName(m.genre), None, None), values)), m.genre, GenreRule);
      g.Some? && GenreName(g.value) == values.genre
  {
    if values.genre != GenreName(m.genre) {
      var g := GenreByName(values.genre).value;
      GenreNamesAccepted(g);
    }
  }

  lemma PosterOutcome(m: Movie, values: MovieForm)
    ensures var p := Pick(Sole(OptionalFieldOps("/posterUrl", values.posterUrl, m.posterUrl)), m.posterUrl, PosterUrlRule);
      && p.Some?
      && (values.posterUrl == "" ==> p.value == None || p.value == Some(""))
      && (values.posterUrl != "" ==> p.value.Some? && Strip(p.value.value) == Strip(values.posterUrl))
  {
    StripIdempotent(values.posterUrl);
  }

  lemma DateOutcome(m: Movie, values: MovieForm)
    requires m.releaseDate.Some? ==> ValidDate(m.releaseDate.value)
    requires var loaded := Loaded(m).releaseDate;
      values.releaseDate != "" && Some(values.releaseDate) != loaded ==> ParseDate(Strip(values.releaseDate)).Some?
    ensures var d := Pick(Sole(OptionalFieldOps("/releaseDate", values.releaseDate, Loaded(m).releaseDate)), m.releaseDate, ReleaseDateRule);
      && d.Some?
      && (values.releaseDate == "" ==> d.value == None)
      && (values.releaseDate != "" ==> d.value == ParseDate(Strip(values.releaseDate)))
  {
    if m.releaseDate.Some? {
      IsoDateAccepted(m.releaseDate.value);
      assert IsoFormat(m.releaseDate.value) != "" by {
        ParseIsoFormat(m.releaseDate.value);
      }
    }
  }

  /**
   * `edited` holds what the form shows for `m`: the title as trimmed and
   * stripped (or the old one when the field was left alone), the selected
   * genre, the poster URL up to surrounding whitespace, the date the field's
   * text denotes, and no poster or date where the field was emptied.
   */
  predicate HoldsForm(m: Movie, values: MovieForm, edited: Movie)
  {
    && edited.title == (if values.title == m.title then m.title else Strip(Trim(values.title)))
    && GenreName(edited.genre) == values.genre
    && (values.posterUrl == "" ==> edited.posterUrl == None || edited.posterUrl == Some(""))
    && (values.posterUrl != "" ==> edited.posterUrl.Some? && Strip(edited.posterUrl.value) == Strip(values.posterUrl))
    && (values.releaseDate == "" ==> edited.releaseDate == None)
    && (values.releaseDate != "" ==> edited.releaseDate == ParseDate(Strip(values.releaseDate)))
  }

  /** What the backend reads from the list the page sends: each column the step for it wrote. */
  lemma FormData(m: Movie, values: MovieForm) returns (data: seq<(string, Value)>)
    requires m.releaseDate.Some? ==> ValidDate(m.releaseDate.value)
    ensures ConvertPatch(EncodeAll(MoviePatches(Loaded(m), values)), MovieColumns) == Ok(data)
    ensures DistinctKeys(data)
    ensures Get(data, "title") == Sole(TitleOps(Loaded(m), values))
    ensures Get(data, "genre") == Sole(GenreOps(Loaded(m), values))
    ensures Get(data, "poster_url") == Sole(OptionalFieldOps("/posterUrl", values.posterUrl, m.posterUrl))
    ensures Get(data, "release_date") == Sole(OptionalFieldOps("/releaseDate", values.releaseDate, Loaded(m).releaseDate))
  {
    var movie := Loaded(m);
    var ps := MoviePatches(movie, values);
    MoviePatchesShape(movie, values);
    ReadBack(ps, MovieColumns);
    data := ConvertPatch(EncodeAll(ps), MovieColumns).value;
    MoviePatchReads(movie, values, "title");
    MoviePatchReads(movie, values, "genre");
    MoviePatchReads(movie, values, "poster_url");
    MoviePatchReads(movie, values, "release_date");
  }

  /** The field loop accepts the data of an acceptable form and leaves the row holding the form. */
  lemma FormEdit(m: Movie, values: MovieForm) returns (edited: Movie)
    requires m.releaseDate.Some? ==> ValidDate(m.releaseDate.value)
    requires AcceptableForm(m, values)
    ensures ConvertPatch(EncodeAll(MoviePatches(Loaded(m), values)), MovieColumns).Ok?
    ensures ApplyMovieFields(m, ConvertPatch(EncodeAll(MoviePatches(Loaded(m), values)), MovieColumns).value) == Some(edited)
    ensures HoldsForm(m, values, edited)
  {
    var data := FormData(m, values);
    FieldLoopIsLookup(m, data);
    TitleOutcome(m, values);
    GenreOutcome(m, values);
    PosterOutcome(m, values);
    DateOutcome(m, values);
    assert TitleOps(Loaded(m), values) == TitleOps(LoadedMovie(m.title, "", None, None), values);
    assert GenreOps(Loaded(m), values) == GenreOps(LoadedMovie("", GenreName(m.genre), None, None), values);
    edited := MovieByLookup(m, data).value;
  }

  /**
   * The edit page against the backend: for an acceptable form, the PATCH it
   * sends succeeds, only the edited row changes, and that row then holds
   * what the form shows. The answer is 204 exactly when nothing changed,
   * and its tag is the one a following GET reports.
   */
  lemma EditMovieStores(rows: map<int, Movie>, id: int, values: MovieForm, hash: Value -> string)
    requires forall a, b :: hash(FormatMovie(id, a)) == hash(FormatMovie(id, b)) ==> a == b
    requires id in rows && (rows[id].releaseDate.Some? ==> ValidDate(rows[id].releaseDate.value))
    requires AcceptableForm(rows[id], values)
    ensures var ps := MoviePatches(Loaded(rows[id]), values);
      var r := PatchMovie(rows, id, Some(SentContentType), Some(List(EncodeAll(ps))), hash);
      && r.0.status in {200, 204}
      && id in r.1 && r.1 == rows[id := r.1[id]]
      && HoldsForm(rows[id], values, r.1[id])
      && (r.0.status == 204 <==> r.1[id] == rows[id])
      && r.0.etag == GetMovie(r.1, id, hash).etag
  {
    var m := rows[id];
    var body := EncodeAll(MoviePatches(Loaded(m), values));
    var edited := FormEdit(m, values);
    MoviePatchOutcome(rows, id, body, hash, edited);
  }

  /**
   * A title of blanks passes the page's own check (at least one character)
   * but trims to nothing, and the backend refuses the PATCH with 400.
   */
  lemma BlankTitleRefused(rows: map<int, Movie>, id: int, values: MovieForm, hash: Value -> string)
    requires id in rows && (rows[id].releaseDate.Some? ==> ValidDate(rows[id].releaseDate.value))
    requires values.title != "" && Trim(values.title) == "" && values.title != rows[id].title
    ensures var ps := MoviePatches(Loaded(rows[id]), values);
      PatchMovie(rows, id, Some(SentContentType), Some(List(EncodeAll(ps))), hash) == (Abort(400), rows)
  {
    var m := rows[id];
    var movie := Loaded(m);
    var ps := MoviePatches(movie, values);
    MoviePatchesShape(movie, values);
    ReadBack(ps, MovieColumns);
    var data := ConvertPatch(EncodeAll(ps), MovieColumns).value;
    FieldLoopIsLookup(m, data);
    MoviePatchReads(movie, values, "title");
  }
}
