/**
 * The field codec: `_camel_to_snake`, `_snake_to_camel` and the recursive
 * key renamer `_camel_case_dict`.
 *
 * `_camel_to_snake` inserts `_` before every capital A-Z that is not the
 * first character, then lower-cases the whole string; `_snake_to_camel`
 * replaces each `_` together with the character after it (any character but
 * a newline, as the regex `.` matches) by that character upper-cased.
 */
module FieldCodec {
  import opened Wrappers
  import opened Text
  import opened Values

  /** `_camel_to_snake`. */
  function CamelToSnake(s: string): (r: string)
    ensures forall i :: 0 <= i < |r| ==> !IsAsciiUpper(r[i])
  {
    if s == [] then [] else [LowerChar(s[0])] + SnakeTail(s[1..])
  }

  /** `_camel_to_snake` after the first character, where every capital gets a `_`. */
  function SnakeTail(s: string): (r: string)
    ensures forall i :: 0 <= i < |r| ==> !IsAsciiUpper(r[i])
  {
    if s == [] then []
    else (if IsAsciiUpper(s[0]) then ['_', LowerChar(s[0])] else [LowerChar(s[0])]) + SnakeTail(s[1..])
  }

  /** `_snake_to_camel`. */
  function SnakeToCamel(s: string): (r: string)
    ensures |r| <= |s|
  {
    if |s| >= 2 && s[0] == '_' && s[1] != '\n' then [UpperChar(s[1])] + SnakeToCamel(s[2..])
    else if s == [] then []
    else [s[0]] + SnakeToCamel(s[1..])
  }

  /** Lower-case ASCII words joined by single underscores, as the column names are. */
  predicate IsSnakeIdentifier(s: string)
  {
    && (forall i :: 0 <= i < |s| ==> IsAsciiLower(s[i]) || IsDigit(s[i]) || s[i] == '_')
    && (s != [] ==> s[0] != '_')
    && (forall i :: 0 <= i < |s| && s[i] == '_' ==> i + 1 < |s| && IsAsciiLower(s[i + 1]))
  }

  /** ASCII letters and digits, not starting with a capital, as the API's field names are. */
  predicate IsCamelIdentifier(s: string)
  {
    && (forall i :: 0 <= i < |s| ==> IsAsciiLower(s[i]) || IsAsciiUpper(s[i]) || IsDigit(s[i]))
    && (s != [] ==> !IsAsciiUpper(s[0]))
  }

  lemma {:induction false} SnakeTailOfCamel(s: string)
    requires forall i :: 0 <= i < |s| ==> IsAsciiLower(s[i]) || IsDigit(s[i]) || s[i] == '_'
    requires forall i :: 0 <= i < |s| && s[i] == '_' ==> i + 1 < |s| && IsAsciiLower(s[i + 1])
    ensures SnakeTail(SnakeToCamel(s)) == s
  {
    if s == [] {
    } else if s[0] == '_' {
      var rest := s[2..];
      SnakeTailOfCamel(rest);
      assert SnakeToCamel(s) == [UpperChar(s[1])] + SnakeToCamel(rest);
      assert SnakeTail(SnakeToCamel(s)) == ['_', s[1]] + SnakeTail(SnakeToCamel(rest));
      assert s == ['_', s[1]] + rest;
    } else {
      SnakeTailOfCamel(s[1..]);
      assert SnakeToCamel(s) == [s[0]] + SnakeToCamel(s[1..]);
      assert SnakeTail(SnakeToCamel(s)) == [s[0]] + SnakeTail(SnakeToCamel(s[1..]));
    }
  }

  /** Internal names survive the trip out to the API and back: photo_url, release_date. */
  lemma SnakeRoundTrip(s: string)
    requires IsSnakeIdentifier(s)
    ensures CamelToSnake(SnakeToCamel(s)) == s
  {
    if s != [] {
      SnakeTailOfCamel(s[1..]);
      assert SnakeToCamel(s) == [s[0]] + SnakeToCamel(s[1..]);
    }
  }

  lemma {:induction false} CamelOfSnakeTail(s: string)
    requires forall i :: 0 <= i < |s| ==> IsAsciiLower(s[i]) || IsAsciiUpper(s[i]) || IsDigit(s[i])
    ensures SnakeToCamel(SnakeTail(s)) == s
  {
    if s != [] {
      CamelOfSnakeTail(s[1..]);
      if IsAsciiUpper(s[0]) {
        var t := SnakeTail(s);
        assert t == ['_', LowerChar(s[0])] + SnakeTail(s[1..]);
        assert t[2..] == SnakeTail(s[1..]);
        assert SnakeToCamel(t) == [UpperChar(LowerChar(s[0]))] + SnakeToCamel(t[2..]);
      } else {
        var t := SnakeTail(s);
        assert t == [s[0]] + SnakeTail(s[1..]);
        assert t[1..] == SnakeTail(s[1..]);
      }
    }
  }

  /** API names survive the trip in to the model and back: posterUrl, releaseDate. */
  lemma CamelRoundTrip(s: string)
    requires IsCamelIdentifier(s)
    ensures SnakeToCamel(CamelToSnake(s)) == s
  {
    if s != [] {
      CamelOfSnakeTail(s[1..]);
      var t := CamelToSnake(s);
      assert t == [s[0]] + SnakeTail(s[1..]);
      assert t[1..] == SnakeTail(s[1..]);
    }
  }

  /** A prefix without `_` is left as it is. */
  lemma {:induction false} SnakeToCamelPlain(a: string, b: string)
    requires '_' !in a
    ensures SnakeToCamel(a + b) == a + SnakeToCamel(b)
  {
    if a != [] {
      assert (a + b)[1..] == a[1..] + b;
      assert forall c :: c in a[1..] ==> c in a;
      SnakeToCamelPlain(a[1..], b);
      assert SnakeToCamel(a + b) == [a[0]] + SnakeToCamel(a[1..] + b);
      assert a + SnakeToCamel(b) == [a[0]] + (a[1..] + SnakeToCamel(b));
    } else {
      assert a + b == b;
    }
  }

  /** A part without capitals is left as it is after the first character. */
  lemma {:induction false} SnakeTailPlain(a: string, b: string)
    requires forall i :: 0 <= i < |a| ==> !IsAsciiUpper(a[i])
    ensures SnakeTail(a + b) == a + SnakeTail(b)
  {
    if a != [] {
      assert (a + b)[1..] == a[1..] + b;
      SnakeTailPlain(a[1..], b);
      assert SnakeTail(a + b) == [a[0]] + SnakeTail(a[1..] + b);
      assert a + SnakeTail(b) == [a[0]] + (a[1..] + SnakeTail(b));
    } else {
      assert a + b == b;
    }
  }

  /** The two-word API field names map onto their columns. */
  lemma PhotoUrlColumn()
    ensures CamelToSnake("photoUrl") == "photo_url"
  {
    UrlSplit("photo");
    CamelToSnakeLower("photo" + "Url");
    SnakeTailPlain("photo", "Url");
    UrlWord();
  }

  lemma PosterUrlColumn()
    ensures CamelToSnake("posterUrl") == "poster_url"
  {
    UrlSplit("poster");
    CamelToSnakeLower("poster" + "Url");
    SnakeTailPlain("poster", "Url");
    UrlWord();
  }

  lemma UrlWord()
    ensures SnakeTail("Url") == "_url"
  {
  }

  lemma UrlSplit(w: string)
    requires w == "photo" || w == "poster"
    ensures w + "Url" == (if w == "photo" then "photoUrl" else "posterUrl")
    ensures w + "_url" == (if w == "photo" then "photo_url" else "poster_url")
  {
  }

  lemma ReleaseDateColumn()
    ensures CamelToSnake("releaseDate") == "release_date"
  {
    ReleaseDateSplit();
    CamelToSnakeLower("release" + "Date");
    SnakeTailPlain("release", "Date");
    assert SnakeTail("Date") == "_date";
  }

  /** Without a leading capital, the first character is treated as any other. */
  lemma CamelToSnakeLower(s: string)
    requires s != [] ==> !IsAsciiUpper(s[0])
    ensures CamelToSnake(s) == SnakeTail(s)
  {
    if s != [] {
      assert LowerChar(s[0]) == s[0];
    }
  }

  /** The column names of the formatted records reach the API in camelCase. */
  lemma PhotoUrlName()
    ensures SnakeToCamel("photo_url") == "photoUrl"
  {
    UrlSplit("photo");
    SnakeToCamelPlain("photo", "_url");
    UrlName();
  }

  lemma PosterUrlName()
    ensures SnakeToCamel("poster_url") == "posterUrl"
  {
    UrlSplit("poster");
    SnakeToCamelPlain("poster", "_url");
    UrlName();
  }

  lemma UrlName()
    ensures SnakeToCamel("_url") == "Url"
  {
    assert SnakeToCamel("rl") == "rl";
    assert "_url"[2..] == "rl";
  }

  lemma ReleaseDateName()
    ensures SnakeToCamel("release_date") == "releaseDate"
  {
    DateWord();
    ReleaseDateSplit();
    SnakeToCamelPlain("release", "_date");
  }

  lemma DateWord()
    ensures SnakeToCamel("_date") == "Date"
  {
    assert SnakeToCamel("ate") == "ate";
    assert "_date"[2..] == "ate";
  }

  lemma ReleaseDateSplit()
    ensures "release_date" == "release" + "_date" && "releaseDate" == "release" + "Date"
  {
  }

  /** A trailing `_` has no character after it and stays; `_` before a newline stays too. */
  lemma LoneUnderscoreKept()
    ensures SnakeToCamel("a_") == "a_"
    ensures SnakeToCamel("a_\nb") == "a_\nb"
    ensures SnakeToCamel("a__b") == "a_b"
  {
  }

  /**
   * `_camel_case_dict(item)`; `None` where Python raises. A dict has its keys
   * renamed at every depth; a list value is rebuilt from `_camel_case_dict`
   * of each element, so an element must itself be a dict, except that an
   * empty string or empty list iterates to `{}`; anything else raises.
   */
  function CamelCased(v: Value): (r: Option<Value>)
    ensures r.Some? ==> r.value.Dict?
    decreases v, 1
  {
    match v
    case Dict(entries) =>
      (match RenameEntries(v, entries, [])
       case None => None
       case Some(out) => Some(Dict(out)))
    case Str(s) => if s == "" then Some(Dict([])) else None
    case List(items) => if items == [] then Some(Dict([])) else None
    case _ => None
  }

  /**
   * `_camel_case_dict` on a dict fails exactly when one of its values
   * fails. Otherwise the result's keys are the camel-cased keys, each once,
   * in the order they are first written, and each reads the converted value
   * of the last entry renamed to it.
   */
  lemma CamelCasedDict(entries: seq<(string, Value)>)
    ensures CamelCased(Dict(entries)).None? <==> exists i :: 0 <= i < |entries| && RenameValue(entries[i].1).None?
    ensures CamelCased(Dict(entries)).Some? ==>
      var out := CamelCased(Dict(entries)).value.entries;
      && Keys(out) == RenamedKeys(Keys(entries), [])
      && DistinctKeys(out)
      && forall c :: Get(out, c) == (if LastUnder(entries, c).Some? then RenameValue(LastUnder(entries, c).value) else None)
  {
    RenameEntriesReads(Dict(entries), entries, []);
  }

  /** The loop of `_camel_case_dict` over the remaining `entries`, writing into `acc`. */
  function RenameEntries(ghost parent: Value, entries: seq<(string, Value)>, acc: seq<(string, Value)>): Option<seq<(string, Value)>>
    requires parent.Dict? && forall e :: e in entries ==> e in parent.entries
    decreases parent, 0, |entries|
  {
    if entries == [] then Some(acc)
    else
      assert entries[0] in parent.entries;
      match RenameValue(entries[0].1)
      case None => None
      case Some(x) => RenameEntries(parent, entries[1..], Put(acc, SnakeToCamel(entries[0].0), x))
  }

  /** One turn of the loop of `_camel_case_dict`. */
  lemma RenameEntriesStep(parent: Value, entries: seq<(string, Value)>, acc: seq<(string, Value)>, i: nat)
    requires parent.Dict? && forall e :: e in entries ==> e in parent.entries
    requires i < |entries|
    ensures RenameEntries(parent, entries[i..], acc) ==
      match RenameValue(entries[i].1)
      case None => None
      case Some(x) => RenameEntries(parent, entries[i + 1..], Put(acc, SnakeToCamel(entries[i].0), x))
  {
    assert entries[i..][0] == entries[i] && entries[i..][1..] == entries[i + 1..];
  }

  /**
   * The value of the last entry whose key camel-cases to `c`: the one a
   * Python dict keeps when several keys are renamed to the same key.
   */
  function LastUnder(entries: seq<(string, Value)>, c: string): (r: Option<Value>)
    ensures r.None? <==> forall i :: 0 <= i < |entries| ==> SnakeToCamel(entries[i].0) != c
    ensures r.Some? ==> exists i :: 0 <= i < |entries| && SnakeToCamel(entries[i].0) == c && entries[i].1 == r.value
                                   && forall j :: i < j < |entries| ==> SnakeToCamel(entries[j].0) != c
  {
    if entries == [] then None
    else
      var last := entries[|entries| - 1];
      if SnakeToCamel(last.0) == c then Some(last.1)
      else
        var front := entries[..|entries| - 1];
        var r := LastUnder(front, c);
        assert r.None? ==> forall i :: 0 <= i < |entries| ==> SnakeToCamel(entries[i].0) != c by {
          if r.None? {
            forall i | 0 <= i < |entries| ensures SnakeToCamel(entries[i].0) != c {
              if i < |front| {
                assert entries[i] == front[i];
              }
            }
          }
        }
        assert r.Some? ==> exists i :: 0 <= i < |entries| && SnakeToCamel(entries[i].0) == c && entries[i].1 == r.value
                                     && forall j :: i < j < |entries| ==> SnakeToCamel(entries[j].0) != c by {
          if r.Some? {
            var i :| 0 <= i < |front| && SnakeToCamel(front[i].0) == c && front[i].1 == r.value
                     && forall j :: i < j < |front| ==> SnakeToCamel(front[j].0) != c;
            assert entries[i] == front[i];
            forall j | i < j < |entries| ensures SnakeToCamel(entries[j].0) != c {
              if j < |front| {
                assert entries[j] == front[j];
              }
            }
          }
        }
        r
  }

  /** The renamed keys in the order they are first written, after `seen`. */
  function RenamedKeys(keys: seq<string>, seen: seq<string>): seq<string>
  {
    if keys == [] then seen
    else
      var c := SnakeToCamel(keys[0]);
      RenamedKeys(keys[1..], if c in seen then seen else seen + [c])
  }

  /**
   * The renamer's loop over a dict's entries: it fails exactly when some
   * value fails; otherwise its keys are the renamed keys in first-write
   * order, each key reads the converted value of the last entry renamed to
   * it, and a key no entry is renamed to reads as in `acc`.
   */
  lemma RenameEntriesReads(parent: Value, entries: seq<(string, Value)>, acc: seq<(string, Value)>)
    requires parent.Dict? && forall e :: e in entries ==> e in parent.entries
    ensures RenameEntries(parent, entries, acc).None? <==>
      exists i :: 0 <= i < |entries| && RenameValue(entries[i].1).None?
    ensures RenameEntries(parent, entries, acc).Some? ==>
      var out := RenameEntries(parent, entries, acc).value;
      && Keys(out) == RenamedKeys(Keys(entries), Keys(acc))
      && (DistinctKeys(acc) ==> DistinctKeys(out))
      && forall c :: Get(out, c) == (if LastUnder(entries, c).Some? then RenameValue(LastUnder(entries, c).value) else Get(acc, c))
  {
    RenameEntriesFail(parent, entries, acc);
    if RenameEntries(parent, entries, acc).Some? {
      RenameEntriesKeys(parent, entries, acc);
      forall c ensures Get(RenameEntries(parent, entries, acc).value, c) ==
        (if LastUnder(entries, c).Some? then RenameValue(LastUnder(entries, c).value) else Get(acc, c))
      {
        RenameEntriesGet(parent, entries, acc, c);
      }
    }
  }

  lemma {:induction false} RenameEntriesFail(parent: Value, entries: seq<(string, Value)>, acc: seq<(string, Value)>)
    requires parent.Dict? && forall e :: e in entries ==> e in parent.entries
    ensures RenameEntries(parent, entries, acc).None? <==>
      exists i :: 0 <= i < |entries| && RenameValue(entries[i].1).None?
    decreases |entries|
  {
    if entries != [] {
      assert entries[0] in parent.entries;
      var x := RenameValue(entries[0].1);
      if x.Some? {
        RenameEntriesFail(parent, entries[1..], Put(acc, SnakeToCamel(entries[0].0), x.value));
        assert forall i :: 1 <= i < |entries| ==> entries[i] == entries[1..][i - 1];
      }
    }
  }

  lemma {:induction false} RenameEntriesKeys(parent: Value, entries: seq<(string, Value)>, acc: seq<(string, Value)>)
    requires parent.Dict? && forall e :: e in entries ==> e in parent.entries
    requires RenameEntries(parent, entries, acc).Some?
    ensures Keys(RenameEntries(parent, entries, acc).value) == RenamedKeys(Keys(entries), Keys(acc))
    ensures DistinctKeys(acc) ==> DistinctKeys(RenameEntries(parent, entries, acc).value)
    decreases |entries|
  {
    if entries != [] {
      assert entries[0] in parent.entries;
      var x := RenameValue(entries[0].1).value;
      var k := SnakeToCamel(entries[0].0);
      RenameEntriesKeys(parent, entries[1..], Put(acc, k, x));
      PutKeys(acc, k, x);
      assert Keys(entries)[1..] == Keys(entries[1..]);
      if DistinctKeys(acc) {
        PutDistinct(acc, k, x);
      }
    }
  }

  lemma {:induction false} RenameEntriesGet(parent: Value, entries: seq<(string, Value)>, acc: seq<(string, Value)>, c: string)
    requires parent.Dict? && forall e :: e in entries ==> e in parent.entries
    requires RenameEntries(parent, entries, acc).Some?
    ensures Get(RenameEntries(parent, entries, acc).value, c) ==
      (if LastUnder(entries, c).Some? then RenameValue(LastUnder(entries, c).value) else Get(acc, c))
    decreases |entries|
  {
    if entries != [] {
      assert entries[0] in parent.entries;
      var x := RenameValue(entries[0].1).value;
      var k := SnakeToCamel(entries[0].0);
      RenameEntriesGet(parent, entries[1..], Put(acc, k, x), c);
      PutGet(acc, k, x, c);
      LastUnderFirst(entries, c);
    }
  }

  /** Splitting off the first entry: a later entry renamed to `c` wins over it. */
  lemma {:induction false} LastUnderFirst(entries: seq<(string, Value)>, c: string)
    requires entries != []
    ensures LastUnder(entries, c) ==
      if LastUnder(entries[1..], c).Some? then LastUnder(entries[1..], c)
      else if SnakeToCamel(entries[0].0) == c then Some(entries[0].1)
      else None
    decreases |entries|
  {
    if |entries| > 1 {
      var last := entries[|entries| - 1];
      assert entries[1..][|entries| - 2] == last;
      assert entries[1..][..|entries| - 2] == entries[..|entries| - 1][1..];
      if SnakeToCamel(last.0) != c {
        LastUnderFirst(entries[..|entries| - 1], c);
      }
    }
  }

  /** What `_camel_case_dict` stores under a renamed key for the value `x`. */
  function RenameValue(x: Value): (r: Option<Value>)
    ensures !x.List? && !x.Dict? ==> r == Some(x)
    decreases x, 2
  {
    match x
    case List(items) =>
      (match RenameItems(x, items, [])
       case None => None
       case Some(ys) => Some(List(ys)))
    case Dict(_) => CamelCased(x)
    case _ => Some(x)
  }

  /** `[_camel_case_dict(list_item) for list_item in items]`, appended to `acc`. */
  function RenameItems(ghost parent: Value, items: seq<Value>, acc: seq<Value>): (r: Option<seq<Value>>)
    requires parent.List? && forall y :: y in items ==> y in parent.items
    ensures r.Some? ==> |r.value| == |acc| + |items|
    decreases parent, 1, |items|
  {
    if items == [] then Some(acc)
    else
      assert items[0] in parent.items;
      match CamelCased(items[0])
      case None => None
      case Some(y) => RenameItems(parent, items[1..], acc + [y])
  }

  /**
   * A list is converted element by element: it fails exactly when some
   * element fails, and otherwise the i-th new element is the conversion of
   * the i-th old one, after what `acc` held.
   */
  lemma {:induction false} RenameItemsEach(parent: Value, items: seq<Value>, acc: seq<Value>)
    requires parent.List? && forall y :: y in items ==> y in parent.items
    ensures RenameItems(parent, items, acc).None? <==> exists i :: 0 <= i < |items| && CamelCased(items[i]).None?
    ensures RenameItems(parent, items, acc).Some? ==>
      var r := RenameItems(parent, items, acc).value;
      && r[..|acc|] == acc
      && forall i :: 0 <= i < |items| ==> CamelCased(items[i]) == Some(r[|acc| + i])
    decreases |items|
  {
    if items != [] {
      assert items[0] in parent.items;
      var y := CamelCased(items[0]);
      if y.Some? {
        RenameItemsEach(parent, items[1..], acc + [y.value]);
        assert forall i :: 1 <= i < |items| ==> items[i] == items[1..][i - 1];
        var r := RenameItems(parent, items, acc);
        if r.Some? {
          assert r.value[..|acc| + 1] == acc + [y.value];
          assert r.value[..|acc|] == (acc + [y.value])[..|acc|];
        }
      }
    }
  }

  /** `_camel_case_dict`, with its loop over the keys and its writes into `new_item`. */
  method CamelCaseDict(item: Value) returns (r: Option<Value>)
    ensures r == CamelCased(item)
    decreases item, 1
  {
    if !item.Dict? {
      if (item.Str? && item.s == "") || (item.List? && item.items == []) {
        return Some(Dict([]));
      }
      return None;
    }
    var entries := item.entries;
    var newItem: seq<(string, Value)> := [];
    var i := 0;
    while i < |entries|
      invariant 0 <= i <= |entries|
      invariant RenameEntries(item, entries, []) == RenameEntries(item, entries[i..], newItem)
    {
      var (key, value) := entries[i];
      RenameEntriesStep(item, entries, newItem, i);
      assert entries[i] in item.entries;
      var converted: Value;
      if value.List? {
        var items := CamelCaseList(value);
        if items.None? {
          return None;
        }
        converted := List(items.value);
      } else if value.Dict? {
        var d := CamelCaseDict(value);
        if d.None? {
          return None;
        }
        converted := d.value;
      } else {
        converted := value;
      }
      assert RenameValue(value) == Some(converted);
      newItem := Put(newItem, SnakeToCamel(key), converted);
      i := i + 1;
    }
    return Some(Dict(newItem));
  }

  /** `[_camel_case_dict(list_item) for list_item in value]`. */
  method CamelCaseList(value: Value) returns (r: Option<seq<Value>>)
    requires value.List?
    ensures r == RenameItems(value, value.items, [])
    decreases value, 0
  {
    var newList: seq<Value> := [];
    var j := 0;
    while j < |value.items|
      invariant 0 <= j <= |value.items|
      invariant RenameItems(value, value.items, []) == RenameItems(value, value.items[j..], newList)
    {
      assert value.items[j..][0] == value.items[j] && value.items[j..][1..] == value.items[j + 1..];
      assert value.items[j] in value.items;
      var y := CamelCaseDict(value.items[j]);
      if y.None? {
        return None;
      }
      newList := newList + [y.value];
      j := j + 1;
    }
    return Some(newList);
  }
}
