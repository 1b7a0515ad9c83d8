/**
 * The JSON Patch lists the edit pages send (the `patches` arrays that
 * `EditMovie.tsx` and `EditActor.tsx` build in `onSubmit`), and how the
 * backend's conversion reads a list that names each column at most once.
 */
module PatchBuilder {
  import opened Wrappers
  import opened Values
  import opened FieldCodec
  import opened PatchParser

  /** One element of `patches`: `{op: "add", path, value}` or `{op: "remove", path}`. */
  datatype PatchOp = Add(path: string, value: Value) | Remove(path: string)

  /** The element as the backend receives it after `JSON.stringify`. */
  function Encode(p: PatchOp): Value
  {
    match p
    case Add(path, v) => OpWithValue("add", path, v)
    case Remove(path) => Op("remove", path)
  }

  /** `JSON.stringify(patches)`, element by element. */
  function EncodeAll(ps: seq<PatchOp>): (r: seq<Value>)
    ensures |r| == |ps| && forall i :: 0 <= i < |ps| ==> r[i] == Encode(ps[i])
  {
    seq(|ps|, i requires 0 <= i < |ps| => Encode(ps[i]))
  }

  /** The column the backend reads from the path. */
  function Column(p: PatchOp): string
  {
    CamelToSnake(DropFirst(p.path))
  }

  /** What the backend writes for the element: the value of an add, null for a remove. */
  function Written(p: PatchOp): Value
  {
    if p.Add? then p.value else Null
  }

  /** The value the list writes to `column`, when an element names it. */
  function WrittenTo(ps: seq<PatchOp>, column: string): (r: Option<Value>)
    ensures r.None? <==> forall i :: 0 <= i < |ps| ==> Column(ps[i]) != column
  {
    if ps == [] then None
    else if Column(ps[0]) == column then Some(Written(ps[0]))
    else
      var r := WrittenTo(ps[1..], column);
      assert forall i :: 1 <= i < |ps| ==> ps[i] == ps[1..][i - 1];
      r
  }

  /** The paths name known columns, each at most once. */
  predicate DistinctColumns(ps: seq<PatchOp>, columns: seq<string>)
  {
    && (forall i :: 0 <= i < |ps| ==> Column(ps[i]) in columns)
    && (forall i, j :: 0 <= i < j < |ps| ==> Column(ps[i]) != Column(ps[j]))
  }

  lemma {:induction false} WrittenToAt(ps: seq<PatchOp>, columns: seq<string>, i: nat)
    requires DistinctColumns(ps, columns) && i < |ps|
    ensures WrittenTo(ps, Column(ps[i])) == Some(Written(ps[i]))
  {
    if i > 0 {
      assert Column(ps[0]) != Column(ps[i]);
      assert ps[1..][i - 1] == ps[i];
      assert DistinctColumns(ps[1..], columns) by {
        assert forall k :: 0 <= k < |ps| - 1 ==> ps[1..][k] == ps[k + 1];
      }
      WrittenToAt(ps[1..], columns, i - 1);
    }
  }

  lemma CheckEncoded(p: PatchOp, columns: seq<string>)
    requires Column(p) in columns
    ensures CheckOp(Encode(p), columns) == Ok((Column(p), Written(p)))
  {
    if p.Add? {
      AddAccepted(p.path, p.value, columns);
    } else {
      RemoveAccepted(p.path, columns);
    }
  }

  /**
   * A list naming known columns, each at most once, converts without error,
   * and the backend reads for each column exactly what the list writes to it.
   */
  lemma ReadBack(ps: seq<PatchOp>, columns: seq<string>)
    requires DistinctColumns(ps, columns)
    ensures ConvertPatch(EncodeAll(ps), columns).Ok?
    ensures forall c :: Get(ConvertPatch(EncodeAll(ps), columns).value, c) == WrittenTo(ps, c)
    ensures DistinctKeys(ConvertPatch(EncodeAll(ps), columns).value)
  {
    var body := EncodeAll(ps);
    forall i | 0 <= i < |body|
      ensures CheckOp(body[i], columns) == Ok((Column(ps[i]), Written(ps[i])))
    {
      CheckEncoded(ps[i], columns);
    }
    ConvertOk(body, columns);
    forall c
      ensures Get(ConvertPatch(body, columns).value, c) == WrittenTo(ps, c)
    {
      if i :| 0 <= i < |ps| && Column(ps[i]) == c {
        assert UntouchedFrom(body, i + 1, columns, c);
        LastWriteWins(body, columns, i);
        WrittenToAt(ps, columns, i);
      } else {
        assert UntouchedFrom(body, 0, columns, c);
        UntouchedAbsent(body, columns, c);
      }
    }
  }

  /** JavaScript truthiness of a loaded optional string: present and non-empty. */
  predicate JsTruthy(s: Option<string>)
  {
    s.Some? && s.value != ""
  }

  /** `loaded || ""`, as the initial form values are made. */
  function OrEmpty(s: Option<string>): (r: string)
    ensures JsTruthy(s) ==> r == s.value
    ensures !JsTruthy(s) ==> r == ""
  {
    if s.None? then "" else s.value
  }

  /** The written value of a list of at most one element, as a column reads it. */
  function Sole(ps: seq<PatchOp>): Option<Value>
  {
    if ps == [] then None else Some(Written(ps[0]))
  }

  /** Reading a column from a concatenation: the first part wins when it names the column. */
  lemma {:induction false} WrittenToConcat(a: seq<PatchOp>, b: seq<PatchOp>, column: string)
    ensures WrittenTo(a + b, column) == if WrittenTo(a, column).Some? then WrittenTo(a, column) else WrittenTo(b, column)
  {
    if a != [] {
      assert (a + b)[0] == a[0] && (a + b)[1..] == a[1..] + b;
      WrittenToConcat(a[1..], b, column);
    } else {
      assert a + b == b;
    }
  }

  /**
   * Every column the list names has a place in `rank` (a non-negative one),
   * and the columns follow their places strictly: each at most once, in that order.
   */
  predicate Ranked(ps: seq<PatchOp>, rank: string -> int)
  {
    && (forall i :: 0 <= i < |ps| ==> rank(Column(ps[i])) >= 0)
    && (forall i, j :: 0 <= i < j < |ps| ==> rank(Column(ps[i])) < rank(Column(ps[j])))
  }

  /** A ranked list whose ranked columns are known names each known column at most once. */
  lemma RankedDistinct(ps: seq<PatchOp>, rank: string -> int, columns: seq<string>)
    requires Ranked(ps, rank)
    requires forall c :: rank(c) >= 0 ==> c in columns
    ensures DistinctColumns(ps, columns)
  {
  }

  /** At most one element, naming `column`. */
  predicate OnColumn(ps: seq<PatchOp>, column: string)
  {
    |ps| <= 1 && forall p :: p in ps ==> Column(p) == column
  }

  /** Appending a part on a column ranked after every column so far keeps the list ranked. */
  lemma RankedAppend(xs: seq<PatchOp>, part: seq<PatchOp>, c: string, rank: string -> int)
    requires Ranked(xs, rank) && OnColumn(part, c) && rank(c) >= 0
    requires forall i :: 0 <= i < |xs| ==> rank(Column(xs[i])) < rank(c)
    ensures Ranked(xs + part, rank)
    ensures forall i :: 0 <= i < |xs + part| ==> rank(Column((xs + part)[i])) <= rank(c)
  {
    if part != [] {
      assert part[0] in part;
      assert xs + part == xs + [part[0]];
    } else {
      assert xs + part == xs;
    }
  }

  /** Four parts on columns of increasing rank make a ranked list. */
  lemma RankedParts(a: seq<PatchOp>, b: seq<PatchOp>, c: seq<PatchOp>, d: seq<PatchOp>,
                    ca: string, cb: string, cc: string, cd: string, rank: string -> int)
    requires OnColumn(a, ca) && OnColumn(b, cb) && OnColumn(c, cc) && OnColumn(d, cd)
    requires 0 <= rank(ca) < rank(cb) < rank(cc) < rank(cd)
    ensures Ranked(a + b + c + d, rank)
  {
    RankedThree(a, b, c, ca, cb, cc, rank);
    RankedAppend(a + b + c, d, cd, rank);
  }

  lemma RankedThree(a: seq<PatchOp>, b: seq<PatchOp>, c: seq<PatchOp>, ca: string, cb: string, cc: string, rank: string -> int)
    requires OnColumn(a, ca) && OnColumn(b, cb) && OnColumn(c, cc)
    requires 0 <= rank(ca) < rank(cb) < rank(cc)
    ensures Ranked(a + b + c, rank)
    ensures forall i :: 0 <= i < |a + b + c| ==> rank(Column((a + b + c)[i])) <= rank(cc)
  {
    RankedTwo(a, b, ca, cb, rank);
    RankedAppend(a + b, c, cc, rank);
  }

  lemma RankedTwo(a: seq<PatchOp>, b: seq<PatchOp>, ca: string, cb: string, rank: string -> int)
    requires OnColumn(a, ca) && OnColumn(b, cb)
    requires 0 <= rank(ca) < rank(cb)
    ensures Ranked(a + b, rank)
    ensures forall i :: 0 <= i < |a + b| ==> rank(Column((a + b)[i])) <= rank(cb)
  {
    RankedAppend([], a, ca, rank);
    assert [] + a == a;
    RankedAppend(a, b, cb, rank);
  }

  /** A part on one column is read only under that column. */
  lemma WrittenToSingle(ps: seq<PatchOp>, c: string, column: string)
    requires OnColumn(ps, c)
    ensures WrittenTo(ps, column) == if c == column then Sole(ps) else None
  {
    if ps != [] {
      assert ps[0] in ps;
      assert ps[1..] == [];
    }
  }

  /**
   * Reading a column from four parts on four distinct columns: the part on
   * that column decides, and a column none of them names is unwritten.
   */
  lemma WrittenToParts(a: seq<PatchOp>, b: seq<PatchOp>, c: seq<PatchOp>, d: seq<PatchOp>,
                       ca: string, cb: string, cc: string, cd: string, column: string)
    requires OnColumn(a, ca) && OnColumn(b, cb) && OnColumn(c, cc) && OnColumn(d, cd)
    requires ca != cb && ca != cc && ca != cd && cb != cc && cb != cd && cc != cd
    ensures WrittenTo(a + b + c + d, column) ==
      if column == ca then Sole(a)
      else if column == cb then Sole(b)
      else if column == cc then Sole(c)
      else if column == cd then Sole(d)
      else None
  {
    WrittenToConcat(a + b + c, d, column);
    WrittenToConcat(a + b, c, column);
    WrittenToConcat(a, b, column);
    WrittenToSingle(a, ca, column);
    WrittenToSingle(b, cb, column);
    WrittenToSingle(c, cc, column);
    WrittenToSingle(d, cd, column);
  }

  /**
   * The rule both pages use for an optional text field: an emptied field with
   * a stored value sends a remove, a non-empty value other than the stored one
   * sends an add, and anything else sends nothing.
   */
  function OptionalFieldOps(path: string, form: string, stored: Option<string>): (r: seq<PatchOp>)
    ensures |r| <= 1 && forall p :: p in r ==> p.path == path
    ensures r == [Remove(path)] <==> form == "" && JsTruthy(stored)
    ensures r == [Add(path, Str(form))] <==> form != "" && stored != Some(form)
    ensures forall p :: p in r && p.Add? ==> p.value != Str("")
  {
    if form == "" && JsTruthy(stored) then [Remove(path)]
    else if form != "" && Some(form) != stored then [Add(path, Str(form))]
    else []
  }
}
