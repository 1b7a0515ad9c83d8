/**
 * The per-field rules of the PATCH field loops in `update_movie` and
 * `update_actor`. Each rule takes the value the conversion produced for its
 * field (`Null` for a `remove`) and gives the new column value, or `None`
 * where the loop aborts with 400. A rule never looks at the current row:
 * the new column value depends on the patched value alone.
 */
module FieldRules {
  import opened Wrappers
  import opened Text
  import opened Dates
  import opened Values
  import opened Models

  /**
   * `title` and `name`: a remove, a falsy value or a non-string is refused;
   * otherwise the string is stored stripped, which may leave it empty.
   */
  function RequiredText(v: Value): (r: Option<string>)
    ensures r.Some? <==> v.Str? && v.s != ""
    ensures r.Some? ==> r.value == Strip(v.s)
  {
    if !Truthy(v) || !v.Str? then None else Some(Strip(v.s))
  }

  /**
   * `genre`: a remove or a falsy value is refused; otherwise the stripped
   * string must name a member (`Genre[...]`), and anything that is not a
   * string fails inside the `try` and is refused too.
   */
  function GenreRule(v: Value): (r: Option<Genre>)
    ensures r.Some? <==> v.Str? && exists g :: GenreName(g) == Strip(v.s)
    ensures r.Some? ==> GenreName(r.value) == Strip(v.s)
  {
    if !Truthy(v) then None
    else if !v.Str? then None
    else GenreByName(Strip(v.s))
  }

  /**
   * `release_date`: a remove clears the date; a truthy non-string or a falsy
   * value other than None is refused; a string is stripped and must parse
   * with `%Y-%m-%d`.
   */
  function ReleaseDateRule(v: Value): (r: Option<Option<Date>>)
    ensures (Truthy(v) && !v.Str?) || FalsyButNotNone(v) ==> r.None?
    ensures r == Some(None) <==> v == Null
    ensures r.Some? && r.value.Some? <==> v.Str? && v.s != "" && ParseDate(Strip(v.s)).Some?
    ensures r.Some? && r.value.Some? ==> r.value == ParseDate(Strip(v.s)) && ValidDate(r.value.value)
  {
    if v == Null then Some(None)
    else if !v.Str? || v.s == "" then None
    else
      var d := ParseDate(Strip(v.s));
      if d.None? then None else Some(d)
  }

  /**
   * `poster_url`, in the order `update_movie` checks it: a truthy non-string
   * or a falsy value other than None is refused, a remove clears the URL, and
   * a string is stored stripped.
   */
  function PosterUrlRule(v: Value): (r: Option<Option<string>>)
    ensures r == Some(None) <==> v == Null
    ensures r.Some? && r.value.Some? <==> v.Str? && v.s != ""
    ensures r.Some? && r.value.Some? ==> r.value.value == Strip(v.s)
  {
    if (Truthy(v) && !v.Str?) || FalsyButNotNone(v) then None
    else if Truthy(v) then Some(Some(Strip(v.s)))
    else Some(None)
  }

  /**
   * `photo_url`, in the order `update_actor` checks it: the falsy-but-not-None
   * test first, then the truthy non-string test, then the stripped store.
   */
  function PhotoUrlRule(v: Value): (r: Option<Option<string>>)
  {
    if FalsyButNotNone(v) then None
    else if Truthy(v) && !v.Str? then None
    else if Truthy(v) then Some(Some(Strip(v.s)))
    else Some(None)
  }

  /** The two URL rules check in a different order but accept and store the same. */
  lemma UrlRulesAgree(v: Value)
    ensures PhotoUrlRule(v) == PosterUrlRule(v)
  {
  }

  /**
   * `gender`: a remove or any falsy value (`""`, `0`, `false`, ...) clears it;
   * otherwise the value must be a member name (`Gender[...]`, unstripped),
   * and anything else fails inside the `try` and is refused.
   */
  function GenderRule(v: Value): (r: Option<Option<Gender>>)
    ensures r == Some(None) <==> !Truthy(v)
    ensures r.Some? && r.value.Some? <==> v.Str? && exists g :: GenderName(g) == v.s
    ensures r.Some? && r.value.Some? ==> GenderName(r.value.value) == v.s
  {
    if !Truthy(v) then Some(None)
    else if !v.Str? then None
    else
      var g := GenderByName(v.s);
      if g.None? then None else Some(g)
  }

  /**
   * `age`: a remove, `0` or a non-integer is refused; any other integer is
   * stored as it is, negative ones included.
   */
  function AgeRule(v: Value): (r: Option<int>)
    ensures r.Some? <==> v.Int? && v.i != 0
    ensures r.Some? ==> r.value == v.i
  {
    if !Truthy(v) || !v.Int? then None else Some(v.i)
  }

  /**
   * A column after the field loop, looked up rather than iterated: the
   * rule's result when the field was patched, else the current value.
   */
  function Pick<T>(entry: Option<Value>, current: T, rule: Value -> Option<T>): Option<T>
  {
    if entry.None? then Some(current) else rule(entry.value)
  }

  /** A string with no whitespace at either end is its own strip. */
  lemma StripUnpadded(s: string)
    requires s != [] ==> !IsPySpace(s[0]) && !IsPySpace(s[|s| - 1])
    ensures Strip(s) == s
  {
    if s != [] {
      assert DropTrailing(s, Python) == s;
    }
  }

  /** Genre names start and end with a capital, so stripping keeps them. */
  lemma GenreNameUnpadded(g: Genre)
    ensures Strip(GenreName(g)) == GenreName(g)
  {
    var n := GenreName(g);
    assert n != [] && IsAsciiUpper(n[0]) && IsAsciiUpper(n[|n| - 1]) by {
      match g
      case ActionAndAdventure =>
      case Animation =>
      case Comedy =>
      case Documentary =>
      case Drama =>
      case Historical =>
      case Horror =>
      case Noir =>
      case SciFi =>
      case Western =>
    }
    StripUnpadded(n);
  }

  /** Every genre name, patched as it is, selects that genre. */
  lemma GenreNamesAccepted(g: Genre)
    ensures GenreRule(Str(GenreName(g))) == Some(g)
  {
    GenreNameUnpadded(g);
    GenreTable();
  }

  /** A remove of a required field is refused. */
  lemma RemoveRequiredRefused()
    ensures RequiredText(Null) == None && GenreRule(Null) == None && AgeRule(Null) == None
  {
  }

  /** A whitespace-only title or name passes the check and is stored empty. */
  lemma BlankTextStoredEmpty()
    ensures RequiredText(Str("   ")) == Some("")
  {
    assert forall i :: 0 <= i < 3 ==> IsPySpace("   "[i]);
  }

  /**
   * The empty string is refused as a date or a URL (the disguised clear),
   * while a remove clears them.
   */
  lemma EmptyStringIsNoClear()
    ensures ReleaseDateRule(Str("")) == None && PosterUrlRule(Str("")) == None && PhotoUrlRule(Str("")) == None
    ensures ReleaseDateRule(Null) == Some(None) && PosterUrlRule(Null) == Some(None) && PhotoUrlRule(Null) == Some(None)
  {
  }

  /** A date the API renders is accepted back as that date. */
  lemma IsoDateAccepted(d: Date)
    requires ValidDate(d)
    ensures ReleaseDateRule(Str(IsoFormat(d))) == Some(Some(d))
  {
    var s := IsoFormat(d);
    assert |s| == 10 && IsDigit(s[0]) && IsDigit(s[9]) by {
      assert s[9] == Pad2(d.day)[1];
    }
    StripUnpadded(s);
    ParseIsoFormat(d);
    assert ParseDate(Strip(s)) == Some(d);
  }

  /** 2023 is not a leap year, so 2023-02-29 is refused. */
  lemma NonLeapDayRefused()
    ensures ReleaseDateRule(Str("2023-02-29")) == None
  {
    NonLeapDayUnpadded();
    LeapDayRefused();
  }

  lemma NonLeapDayUnpadded()
    ensures Strip("2023-02-29") == "2023-02-29"
  {
    var s := "2023-02-29";
    assert s[0] == '2' && s[|s| - 1] == '9';
    StripUnpadded(s);
  }

  /** A whitespace-only date strips to nothing and is refused. */
  lemma BlankDateRefused()
    ensures ReleaseDateRule(Str(" ")) == None
  {
    assert Strip(" ") == "" by {
      assert forall i :: 0 <= i < 1 ==> IsPySpace(" "[i]);
    }
  }

  /**
   * Gender is patched by member name: `"MALE"` sets it, the member values
   * `"M"` and `"F"` are refused, and `""` clears it.
   */
  lemma GenderByNameOnly(g: Gender)
    ensures GenderRule(Str(GenderName(g))) == Some(Some(g))
    ensures GenderRule(Str(GenderValue(g))) == None
    ensures GenderRule(Str("")) == Some(None) && GenderRule(Null) == Some(None)
  {
  }

  /** Age 0 is refused and a negative age is stored. */
  lemma AgeSignUnchecked()
    ensures AgeRule(Int(0)) == None
    ensures AgeRule(Int(-5)) == Some(-5)
    ensures AgeRule(Str("4")) == None
  {
  }
}
