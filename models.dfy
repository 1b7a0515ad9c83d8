/**
 * The persisted entities: the `Gender` and `Genre` enums, the `Actor` and
 * `Movie` rows (the identifier is the store's key, not a field), their
 * column tables, the `Movie` constructor's check and `format()`.
 * Nullable columns are `Option`s; NOT NULL columns are not.
 */
module Models {
  import opened Wrappers
  import opened Dates
  import opened Values

  datatype Gender = Male | Female

  /** The member name, what `Gender[x]` looks up. */
  function GenderName(g: Gender): string
  {
    match g
    case Male => "MALE"
    case Female => "FEMALE"
  }

  /** The member value, what `x in (g.value for g in Gender)` compares with. */
  function GenderValue(g: Gender): string
  {
    match g
    case Male => "M"
    case Female => "F"
  }

  /** `Gender[s]`; `None` where it raises KeyError. */
  function GenderByName(s: string): (r: Option<Gender>)
    ensures r.Some? ==> GenderName(r.value) == s
    ensures r.None? ==> forall g :: GenderName(g) != s
  {
    if s == "MALE" then Some(Male) else if s == "FEMALE" then Some(Female) else None
  }

  /** `v in (g.value for g in Gender)`. */
  predicate IsGenderValue(v: Value)
  {
    exists g :: v == Str(GenderValue(g))
  }

  /** No string is both a member name and a member value of `Gender`. */
  lemma GenderNameIsNeverValue(s: string)
    ensures GenderByName(s).Some? ==> !IsGenderValue(Str(s))
    ensures IsGenderValue(Str(s)) ==> GenderByName(s).None?
  {
  }

  datatype Genre =
    | ActionAndAdventure | Animation | Comedy | Documentary | Drama
    | Historical | Horror | Noir | SciFi | Western

  const AllGenres: seq<Genre> :=
    [ActionAndAdventure, Animation, Comedy, Documentary, Drama, Historical, Horror, Noir, SciFi, Western]

  function GenreName(g: Genre): string
  {
    match g
    case ActionAndAdventure => "ACTION_AND_ADVENTURE"
    case Animation => "ANIMATION"
    case Comedy => "COMEDY"
    case Documentary => "DOCUMENTARY"
    case Drama => "DRAMA"
    case Historical => "HISTORICAL"
    case Horror => "HORROR"
    case Noir => "NOIR"
    case SciFi => "SCI_FI"
    case Western => "WESTERN"
  }

  function GenreValue(g: Genre): string
  {
    match g
    case ActionAndAdventure => "ACTION_AND_ADVENTURE"
    case Animation => "ANIMATION"
    case Comedy => "COMEDY"
    case Documentary => "DOCUMENTARY"
    case Drama => "DRAMA"
    case Historical => "HISTORICAL"
    case Horror => "HORROR"
    case Noir => "NOIR"
    case SciFi => "SCI_FI"
    case Western => "WESTERN"
  }

  /** `Genre[s]`; `None` where it raises KeyError. */
  function GenreByName(s: string): (r: Option<Genre>)
    ensures r.Some? ==> GenreName(r.value) == s
    ensures r.None? ==> forall g :: GenreName(g) != s
  {
    if s == "ACTION_AND_ADVENTURE" then Some(ActionAndAdventure)
    else if s == "ANIMATION" then Some(Animation)
    else if s == "COMEDY" then Some(Comedy)
    else if s == "DOCUMENTARY" then Some(Documentary)
    else if s == "DRAMA" then Some(Drama)
    else if s == "HISTORICAL" then Some(Historical)
    else if s == "HORROR" then Some(Horror)
    else if s == "NOIR" then Some(Noir)
    else if s == "SCI_FI" then Some(SciFi)
    else if s == "WESTERN" then Some(Western)
    else None
  }

  /** `v in (g.value for g in Genre)`. */
  predicate IsGenreValue(v: Value)
  {
    exists g :: v == Str(GenreValue(g))
  }

  /** `Genre` has ten distinct members, each named by its own value. */
  lemma GenreTable()
    ensures |AllGenres| == 10
    ensures forall i, j :: 0 <= i < j < |AllGenres| ==> AllGenres[i] != AllGenres[j]
    ensures forall g :: g in AllGenres
    ensures forall g :: GenreName(g) == GenreValue(g)
    ensures forall g :: GenreByName(GenreName(g)) == Some(g)
  {
    forall g ensures g in AllGenres {
      match g
      case ActionAndAdventure => assert AllGenres[0] == g;
      case Animation => assert AllGenres[1] == g;
      case Comedy => assert AllGenres[2] == g;
      case Documentary => assert AllGenres[3] == g;
      case Drama => assert AllGenres[4] == g;
      case Historical => assert AllGenres[5] == g;
      case Horror => assert AllGenres[6] == g;
      case Noir => assert AllGenres[7] == g;
      case SciFi => assert AllGenres[8] == g;
      case Western => assert AllGenres[9] == g;
    }
  }

  /** For `Genre`, value membership and name lookup accept the same strings. */
  lemma GenreValueIsName(s: string)
    ensures IsGenreValue(Str(s)) <==> GenreByName(s).Some?
  {
    if GenreByName(s).Some? {
      assert Str(s) == Str(GenreValue(GenreByName(s).value));
    }
  }

  datatype Actor = Actor(name: string, age: int, photoUrl: Option<string>, gender: Option<Gender>)

  datatype Movie = Movie(title: string, genre: Genre, releaseDate: Option<Date>, posterUrl: Option<string>)

  /** Column names of the `actors` table, in declaration order. */
  const ActorColumns: seq<string> := ["id", "name", "age", "photo_url", "gender"]

  /** Column names of the `movies` table, in declaration order (`actors` is a relationship). */
  const MovieColumns: seq<string> := ["id", "title", "release_date", "genre", "poster_url"]

  /** `Movie(genre, title, release_date, poster_url)`; `None` where it raises ValueError. */
  function NewMovie(genre: Genre, title: string, releaseDate: Option<Date>, posterUrl: Option<string>): (r: Option<Movie>)
    ensures r.None? <==> |title| < 1
    ensures r.Some? ==>
      r.value.title == title && r.value.genre == genre && r.value.releaseDate == releaseDate && r.value.posterUrl == posterUrl
  {
    if |title| < 1 then None else Some(Movie(title, genre, releaseDate, posterUrl))
  }

  function OptionalStr(s: Option<string>): Value
  {
    match s
    case None => Null
    case Some(x) => Str(x)
  }

  function OptionalDate(d: Option<Date>): Value
  {
    match d
    case None => Null
    case Some(x) => DateVal(x)
  }

  function OptionalGender(g: Option<Gender>): Value
  {
    match g
    case None => Null
    case Some(x) => EnumMember(GenderName(x))
  }

  /** `Actor.format()`. */
  function FormatActor(id: int, a: Actor): (v: Value)
    ensures v.Dict? && Keys(v.entries) == ["age", "gender", "id", "name", "photo_url"]
  {
    Dict([("age", Int(a.age)), ("gender", OptionalGender(a.gender)), ("id", Int(id)),
          ("name", Str(a.name)), ("photo_url", OptionalStr(a.photoUrl))])
  }

  /** `Movie.format()`. */
  function FormatMovie(id: int, m: Movie): (v: Value)
    ensures v.Dict? && Keys(v.entries) == ["genre", "id", "poster_url", "release_date", "title"]
  {
    Dict([("genre", EnumMember(GenreName(m.genre))), ("id", Int(id)),
          ("poster_url", OptionalStr(m.posterUrl)), ("release_date", OptionalDate(m.releaseDate)),
          ("title", Str(m.title))])
  }

  /** `format()` exposes exactly the columns of each table. */
  lemma FormatKeysAreColumns(id: int, a: Actor, m: Movie)
    ensures (set k | k in Keys(FormatActor(id, a).entries)) == (set k | k in ActorColumns)
    ensures (set k | k in Keys(FormatMovie(id, m).entries)) == (set k | k in MovieColumns)
  {
    var ak := Keys(FormatActor(id, a).entries);
    var mk := Keys(FormatMovie(id, m).entries);
    assert forall k :: k in ak <==> k in ActorColumns;
    assert forall k :: k in mk <==> k in MovieColumns;
  }

  /** Two actors with the same representation are the same row. */
  lemma FormatActorInjective(i: int, a: Actor, j: int, b: Actor)
    requires FormatActor(i, a) == FormatActor(j, b)
    ensures i == j && a == b
  {
    var ea, eb := FormatActor(i, a).entries, FormatActor(j, b).entries;
    assert ea[1] == eb[1] && ea[4] == eb[4];
    if a.gender.Some? && b.gender.Some? {
      assert GenderName(a.gender.value) == GenderName(b.gender.value);
    }
    if a.photoUrl.Some? { assert b.photoUrl.Some?; }
  }

  /** Two movies with the same representation are the same row. */
  lemma FormatMovieInjective(i: int, a: Movie, j: int, b: Movie)
    requires FormatMovie(i, a) == FormatMovie(j, b)
    ensures i == j && a == b
  {
    var ea, eb := FormatMovie(i, a).entries, FormatMovie(j, b).entries;
    assert ea[0] == eb[0] && ea[2] == eb[2] && ea[3] == eb[3];
    assert GenreName(a.genre) == GenreName(b.genre);
    if a.posterUrl.Some? { assert b.posterUrl.Some?; }
    if a.releaseDate.Some? { assert b.releaseDate.Some?; }
  }
}
