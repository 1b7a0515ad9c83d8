/**
 * Python values as the backend handles them: what `request.get_json()`
 * yields (None, bools, ints, floats, strings, lists, dicts) and what a
 * model's `format()` yields besides (enum members and `datetime.date`).
 * A dict is its insertion-ordered list of entries, as Python iterates it.
 */
module Values {
  import opened Wrappers
  import opened Dates

  datatype Value =
    | Null
    | Bool(b: bool)
    | Int(i: int)
    | Float(f: real)
    | Str(s: string)
    | List(items: seq<Value>)
    | Dict(entries: seq<(string, Value)>)
    | EnumMember(name: string)
    | DateVal(date: Date)

  /** Python's truth value of an object. */
  predicate Truthy(v: Value)
  {
    match v
    case Null => false
    case Bool(b) => b
    case Int(i) => i != 0
    case Float(f) => f != 0.0
    case Str(s) => s != ""
    case List(items) => items != []
    case Dict(entries) => entries != []
    case EnumMember(_) => true
    case DateVal(_) => true
  }

  /**
   * `_abort_if_falsy_and_not_none`: an empty value that is not None, the
   * disguised clear (`""`, `0`, `False`, `[]`, `{}`) the controllers refuse.
   */
  predicate FalsyButNotNone(v: Value)
  {
    !Truthy(v) && v != Null
  }

  /** The falsy values are exactly None and the empty values. */
  lemma FalsyValues(v: Value)
    ensures !Truthy(v) <==> v == Null || FalsyButNotNone(v)
    ensures FalsyButNotNone(v) <==>
      v == Bool(false) || v == Int(0) || v == Float(0.0) || v == Str("") || v == List([]) || v == Dict([])
  {
  }

  function Keys<V>(d: seq<(string, V)>): (ks: seq<string>)
    ensures |ks| == |d| && forall i :: 0 <= i < |d| ==> ks[i] == d[i].0
  {
    if d == [] then [] else [d[0].0] + Keys(d[1..])
  }

  /** `d.get(k)`: the value of the first entry for `k`. */
  function Get<V>(d: seq<(string, V)>, k: string): (r: Option<V>)
    ensures r.None? <==> k !in Keys(d)
    ensures r.Some? ==> exists i :: 0 <= i < |d| && d[i] == (k, r.value)
  {
    if d == [] then None
    else if d[0].0 == k then Some(d[0].1)
    else
      var r := Get(d[1..], k);
      assert r.Some? ==> exists i :: 0 <= i < |d| && d[i] == (k, r.value) by {
        if r.Some? {
          var i :| 0 <= i < |d[1..]| && d[1..][i] == (k, r.value);
          assert d[i + 1] == (k, r.value);
        }
      }
      r
  }

  /** `d.get(k)` reads the first entry for `k`: no earlier entry has that key. */
  lemma {:induction false} GetFirst<V>(d: seq<(string, V)>, k: string)
    ensures Get(d, k).Some? ==>
      exists i :: 0 <= i < |d| && d[i] == (k, Get(d, k).value) && forall j :: 0 <= j < i ==> d[j].0 != k
  {
    if d != [] && d[0].0 != k && Get(d, k).Some? {
      GetFirst(d[1..], k);
      var i :| 0 <= i < |d[1..]| && d[1..][i] == (k, Get(d, k).value) && forall j :: 0 <= j < i ==> d[1..][j].0 != k;
      assert d[i + 1] == (k, Get(d, k).value);
      assert forall j :: 0 <= j < i + 1 ==> d[j].0 != k by {
        forall j | 0 <= j < i + 1 ensures d[j].0 != k {
          if j > 0 {
            assert d[j] == d[1..][j - 1];
          }
        }
      }
    }
  }

  predicate DistinctKeys<V>(d: seq<(string, V)>)
  {
    forall i, j :: 0 <= i < j < |d| ==> d[i].0 != d[j].0
  }

  /**
   * `d[k] = v`: an existing key keeps its position and takes the new value,
   * a new key is appended.
   */
  function Put<V>(d: seq<(string, V)>, k: string, v: V): seq<(string, V)>
  {
    if d == [] then [(k, v)]
    else if d[0].0 == k then [(k, v)] + d[1..]
    else [d[0]] + Put(d[1..], k, v)
  }

  /** `d[k] = v` keeps the key order, appending `k` when it is new. */
  lemma {:induction false} PutKeys<V>(d: seq<(string, V)>, k: string, v: V)
    ensures k in Keys(d) ==> Keys(Put(d, k, v)) == Keys(d)
    ensures k !in Keys(d) ==> Keys(Put(d, k, v)) == Keys(d) + [k]
  {
    if d != [] {
      assert Keys(d) == [d[0].0] + Keys(d[1..]);
      if d[0].0 != k {
        PutKeys(d[1..], k, v);
        assert Keys(Put(d, k, v)) == [d[0].0] + Keys(Put(d[1..], k, v));
      } else {
        assert Keys(Put(d, k, v)) == [k] + Keys(d[1..]);
      }
    }
  }

  /** After `d[k] = v`, `d.get(k)` is `v` and every other key reads as before. */
  lemma {:induction false} PutGet<V>(d: seq<(string, V)>, k: string, v: V, k': string)
    ensures Get(Put(d, k, v), k') == if k' == k then Some(v) else Get(d, k')
  {
    if d != [] && d[0].0 != k {
      PutGet(d[1..], k, v, k');
    }
  }

  /** Writing a key keeps the keys distinct. */
  lemma PutDistinct<V>(d: seq<(string, V)>, k: string, v: V)
    requires DistinctKeys(d)
    ensures DistinctKeys(Put(d, k, v))
  {
    PutKeys(d, k, v);
    var r := Put(d, k, v);
    assert forall i :: 0 <= i < |r| ==> r[i].0 == Keys(r)[i];
    assert forall i :: 0 <= i < |d| ==> d[i].0 == Keys(d)[i];
  }
}
