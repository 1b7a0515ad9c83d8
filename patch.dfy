/**
 * `_convert_json_patch_request_to_dict`: the backend's dialect of JSON Patch
 * (RFC 6902, section 4), which admits only `add` and `remove`. Each element
 * of the request body is checked in list order; the first bad one raises and
 * nothing after it is looked at. A good one writes its field into an
 * insertion-ordered dict, the field name being `_camel_to_snake` of the path
 * with its first character dropped.
 */
module PatchParser {
  import opened Wrappers
  import opened Text
  import opened Values
  import opened FieldCodec

  /** The exceptions the conversion raises. */
  datatype PatchError = TypeError | ValueError | KeyError

  /** `s[1:]`: the first character dropped, whatever it is. */
  function DropFirst(s: string): (r: string)
    ensures s != [] ==> [s[0]] + r == s
    ensures s == [] ==> r == []
  {
    if s == [] then [] else s[1..]
  }

  /**
   * The checks on one element of the body, in the order the source makes
   * them, and the (field, value) pair it writes: the `value` of an `add`,
   * `None` for a `remove`.
   */
  function CheckOp(item: Value, columns: seq<string>): (r: Result<(string, Value), PatchError>)
    ensures r.Ok? ==> r.value.0 in columns
  {
    if !item.Dict? then Err(TypeError)
    else
      var op := Get(item.entries, "op");
      if op.None? then Err(KeyError)
      else if op.value == Null || (op.value != Str("add") && op.value != Str("remove")) then Err(ValueError)
      else if op.value == Str("remove") && "value" in Keys(item.entries) then Err(ValueError)
      else
        var path := Get(item.entries, "path");
        if path.None? then Err(KeyError)
        else if path.value == Null then Err(ValueError)
        else if !path.value.Str? then Err(TypeError)
        else
          var field := CamelToSnake(DropFirst(path.value.s));
          if field !in columns then Err(ValueError)
          else if op.value == Str("remove") then Ok((field, Null))
          else
            match Get(item.entries, "value")
            case None => Err(KeyError)
            case Some(v) => Ok((field, v))
  }

  /**
   * What an element that passes writes: an `add` or a `remove` with a string
   * path, to the column `_camel_to_snake(path[1:])`, the `add`'s value or
   * `None`.
   */
  lemma CheckOpWrites(item: Value, columns: seq<string>)
    requires CheckOp(item, columns).Ok?
    ensures var w := CheckOp(item, columns).value;
      && item.Dict? && Get(item.entries, "path").Some? && Get(item.entries, "path").value.Str?
      && w.0 == CamelToSnake(DropFirst(Get(item.entries, "path").value.s))
      && (Get(item.entries, "op") == Some(Str("add")) || Get(item.entries, "op") == Some(Str("remove")))
      && (Get(item.entries, "op") == Some(Str("add")) ==> Get(item.entries, "value") == Some(w.1))
      && (Get(item.entries, "op") == Some(Str("remove")) ==> w.1 == Null)
  {
  }

  predicate KeysIn(d: seq<(string, Value)>, columns: seq<string>)
  {
    forall k :: k in Keys(d) ==> k in columns
  }

  /** The loop of the conversion from element `i` on, writing into `acc`. */
  function ConvertFrom(acc: seq<(string, Value)>, body: seq<Value>, i: nat, columns: seq<string>): (r: Result<seq<(string, Value)>, PatchError>)
    requires i <= |body|
    decreases |body| - i
  {
    if i == |body| then Ok(acc)
    else
      var checked := CheckOp(body[i], columns);
      if checked.Err? then Err(checked.error)
      else ConvertFrom(Put(acc, checked.value.0, checked.value.1), body, i + 1, columns)
  }

  /** `_convert_json_patch_request_to_dict(body, model)`, `columns` being the model's columns. */
  function ConvertPatch(body: seq<Value>, columns: seq<string>): Result<seq<(string, Value)>, PatchError>
  {
    ConvertFrom([], body, 0, columns)
  }

  /** The conversion as the source writes it: a loop that writes into `new_dict`. */
  method ConvertPatchRequest(body: seq<Value>, columns: seq<string>) returns (r: Result<seq<(string, Value)>, PatchError>)
    ensures r == ConvertPatch(body, columns)
  {
    var newDict: seq<(string, Value)> := [];
    var i := 0;
    while i < |body|
      invariant 0 <= i <= |body|
      invariant ConvertPatch(body, columns) == ConvertFrom(newDict, body, i, columns)
    {
      var checked := CheckOp(body[i], columns);
      if checked.Err? {
        return Err(checked.error);
      }
      var (field, value) := checked.value;
      newDict := Put(newDict, field, value);
      i := i + 1;
    }
    return Ok(newDict);
  }

  /** Every element of `xs` from `i` on satisfies `ok`. */
  predicate AllFrom<T>(xs: seq<T>, i: nat, ok: T -> bool)
    requires i <= |xs|
    decreases |xs| - i
  {
    i == |xs| || (ok(xs[i]) && AllFrom(xs, i + 1, ok))
  }

  lemma {:induction false} AllFromEvery<T>(xs: seq<T>, i: nat, ok: T -> bool)
    requires i <= |xs|
    ensures AllFrom(xs, i, ok) <==> forall j :: i <= j < |xs| ==> ok(xs[j])
    decreases |xs| - i
  {
    if i < |xs| {
      AllFromEvery(xs, i + 1, ok);
    }
  }

  /** The element passes the checks of `CheckOp`. */
  function Passes(columns: seq<string>): Value -> bool
  {
    item => CheckOp(item, columns).Ok?
  }

  lemma {:induction false} ConvertFromOk(acc: seq<(string, Value)>, body: seq<Value>, i: nat, columns: seq<string>)
    requires i <= |body|
    ensures ConvertFrom(acc, body, i, columns).Ok? <==> AllFrom(body, i, Passes(columns))
    decreases |body| - i
  {
    if i < |body| && CheckOp(body[i], columns).Ok? {
      var w := CheckOp(body[i], columns).value;
      ConvertFromOk(Put(acc, w.0, w.1), body, i + 1, columns);
    }
  }

  lemma {:induction false} ConvertFromKeys(acc: seq<(string, Value)>, body: seq<Value>, i: nat, columns: seq<string>)
    requires i <= |body| && ConvertFrom(acc, body, i, columns).Ok?
    requires DistinctKeys(acc) && KeysIn(acc, columns)
    ensures DistinctKeys(ConvertFrom(acc, body, i, columns).value)
    ensures KeysIn(ConvertFrom(acc, body, i, columns).value, columns)
    decreases |body| - i
  {
    if i < |body| {
      var w := CheckOp(body[i], columns).value;
      PutDistinct(acc, w.0, w.1);
      PutKeys(acc, w.0, w.1);
      ConvertFromKeys(Put(acc, w.0, w.1), body, i + 1, columns);
    }
  }

  lemma {:induction false} ConvertFromFirstError(acc: seq<(string, Value)>, body: seq<Value>, i: nat, k: nat, columns: seq<string>)
    requires i <= k < |body| && CheckOp(body[k], columns).Err?
    requires forall j :: i <= j < k ==> CheckOp(body[j], columns).Ok?
    ensures ConvertFrom(acc, body, i, columns) == Err(CheckOp(body[k], columns).error)
    decreases |body| - i
  {
    var checked := CheckOp(body[i], columns);
    if i < k {
      assert checked.Ok?;
      ConvertFromFirstError(Put(acc, checked.value.0, checked.value.1), body, i + 1, k, columns);
    }
  }

  /**
   * The conversion succeeds exactly when every element passes; then the
   * result has one entry per field, and every field is a column.
   */
  lemma ConvertOk(body: seq<Value>, columns: seq<string>)
    ensures ConvertPatch(body, columns).Ok? <==> forall i :: 0 <= i < |body| ==> CheckOp(body[i], columns).Ok?
    ensures ConvertPatch(body, columns).Ok? ==>
      DistinctKeys(ConvertPatch(body, columns).value) && KeysIn(ConvertPatch(body, columns).value, columns)
  {
    ConvertFromOk([], body, 0, columns);
    AllFromEvery(body, 0, Passes(columns));
    if ConvertPatch(body, columns).Ok? {
      ConvertFromKeys([], body, 0, columns);
    }
  }

  /** Elements are checked in list order and the first bad one stops the conversion. */
  lemma FirstErrorStops(body: seq<Value>, columns: seq<string>, k: nat)
    requires k < |body| && CheckOp(body[k], columns).Err?
    requires forall j :: 0 <= j < k ==> CheckOp(body[j], columns).Ok?
    ensures ConvertPatch(body, columns) == Err(CheckOp(body[k], columns).error)
  {
    ConvertFromFirstError([], body, 0, k, columns);
  }

  /** True when no element of `body` from index `i` on writes `k`. */
  predicate UntouchedFrom(body: seq<Value>, i: nat, columns: seq<string>, k: string)
  {
    forall j :: i <= j < |body| && CheckOp(body[j], columns).Ok? ==> CheckOp(body[j], columns).value.0 != k
  }

  lemma {:induction false} ConvertFromUntouched(acc: seq<(string, Value)>, body: seq<Value>, i: nat, columns: seq<string>, k: string)
    requires i <= |body| && ConvertFrom(acc, body, i, columns).Ok?
    requires UntouchedFrom(body, i, columns, k)
    ensures Get(ConvertFrom(acc, body, i, columns).value, k) == Get(acc, k)
    decreases |body| - i
  {
    if i < |body| {
      var w := CheckOp(body[i], columns).value;
      PutGet(acc, w.0, w.1, k);
      ConvertFromUntouched(Put(acc, w.0, w.1), body, i + 1, columns, k);
    }
  }

  lemma {:induction false} ConvertFromLastWrite(acc: seq<(string, Value)>, body: seq<Value>, i: nat, k: nat, columns: seq<string>)
    requires i <= k < |body| && ConvertFrom(acc, body, i, columns).Ok? && CheckOp(body[k], columns).Ok?
    requires UntouchedFrom(body, k + 1, columns, CheckOp(body[k], columns).value.0)
    ensures Get(ConvertFrom(acc, body, i, columns).value, CheckOp(body[k], columns).value.0) ==
      Some(CheckOp(body[k], columns).value.1)
    decreases |body| - i
  {
    var w := CheckOp(body[i], columns).value;
    if i == k {
      PutGet(acc, w.0, w.1, w.0);
      ConvertFromUntouched(Put(acc, w.0, w.1), body, i + 1, columns, w.0);
    } else {
      ConvertFromLastWrite(Put(acc, w.0, w.1), body, i + 1, k, columns);
    }
  }

  /** Later operations on a field overwrite earlier ones: the last write wins. */
  lemma LastWriteWins(body: seq<Value>, columns: seq<string>, k: nat)
    requires ConvertPatch(body, columns).Ok?
    requires k < |body| && CheckOp(body[k], columns).Ok?
    requires UntouchedFrom(body, k + 1, columns, CheckOp(body[k], columns).value.0)
    ensures Get(ConvertPatch(body, columns).value, CheckOp(body[k], columns).value.0) ==
      Some(CheckOp(body[k], columns).value.1)
  {
    ConvertFromLastWrite([], body, 0, k, columns);
  }

  /** A field no operation names is absent from the result. */
  lemma UntouchedAbsent(body: seq<Value>, columns: seq<string>, field: string)
    requires ConvertPatch(body, columns).Ok?
    requires UntouchedFrom(body, 0, columns, field)
    ensures field !in Keys(ConvertPatch(body, columns).value)
  {
    ConvertFromUntouched([], body, 0, columns, field);
  }

  function Op(op: string, path: string): Value
  {
    Dict([("op", Str(op)), ("path", Str(path))])
  }

  function OpWithValue(op: string, path: string, v: Value): Value
  {
    Dict([("op", Str(op)), ("path", Str(path)), ("value", v)])
  }

  /**
   * Any operation other than `add` and `remove` (the other operations of
   * RFC 6902 among them) is refused, with or without a value.
   */
  lemma OtherOpsRefused(op: string, path: string, v: Value, columns: seq<string>)
    requires op != "add" && op != "remove"
    ensures CheckOp(Op(op, path), columns) == Err(ValueError)
    ensures CheckOp(OpWithValue(op, path, v), columns) == Err(ValueError)
  {
    assert Get(Op(op, path).entries, "op") == Some(Str(op));
    assert Get(OpWithValue(op, path, v).entries, "op") == Some(Str(op));
  }

  /** A `remove` carrying a `value` is refused even when the value is null. */
  lemma RemoveWithValueRefused(path: string, v: Value, columns: seq<string>)
    ensures CheckOp(OpWithValue("remove", path, v), columns) == Err(ValueError)
  {
    var e := OpWithValue("remove", path, v).entries;
    assert Get(e, "op") == Some(Str("remove"));
    assert Keys(e)[2] == "value";
  }

  /** An `add` with a value on a path that names a column writes that value. */
  lemma AddAccepted(path: string, v: Value, columns: seq<string>)
    requires CamelToSnake(DropFirst(path)) in columns
    ensures CheckOp(OpWithValue("add", path, v), columns) == Ok((CamelToSnake(DropFirst(path)), v))
  {
    OpWithValueReads("add", path, v);
  }

  lemma OpWithValueReads(op: string, path: string, v: Value)
    ensures var e := OpWithValue(op, path, v).entries;
      Get(e, "op") == Some(Str(op)) && Get(e, "path") == Some(Str(path)) && Get(e, "value") == Some(v)
  {
    var e := OpWithValue(op, path, v).entries;
    assert e[1..] == [("path", Str(path)), ("value", v)] && e[2..] == [("value", v)];
  }

  /** A `remove` without a value on a path that names a column writes `None`. */
  lemma RemoveAccepted(path: string, columns: seq<string>)
    requires CamelToSnake(DropFirst(path)) in columns
    ensures CheckOp(Op("remove", path), columns) == Ok((CamelToSnake(DropFirst(path)), Null))
  {
    var e := Op("remove", path).entries;
    assert Get(e, "op") == Some(Str("remove")) && Get(e, "path") == Some(Str(path));
    assert Keys(e) == ["op", "path"];
  }

  /** The first character of the path is dropped unchecked: `/id` names the id column, and so does `xid`. */
  lemma IdPathAccepted(v: Value, columns: seq<string>)
    requires "id" in columns
    ensures CheckOp(OpWithValue("add", "/id", v), columns) == Ok(("id", v))
    ensures CheckOp(OpWithValue("add", "xid", v), columns) == Ok(("id", v))
    ensures CheckOp(Op("remove", "/id"), columns) == Ok(("id", Null))
  {
    assert CamelToSnake("id") == "id";
    assert DropFirst("/id") == "id" && DropFirst("xid") == "id";
    AddAccepted("/id", v, columns);
    AddAccepted("xid", v, columns);
    RemoveAccepted("/id", columns);
  }

  /**
   * A missing `op` or `path`, or an `add` without a `value`, raises KeyError
   * (which the controllers do not catch), not ValueError.
   */
  lemma MissingKeysRaiseKeyError(path: string, columns: seq<string>)
    requires CamelToSnake(DropFirst(path)) in columns
    ensures CheckOp(Dict([("path", Str(path))]), columns) == Err(KeyError)
    ensures CheckOp(Dict([("op", Str("add"))]), columns) == Err(KeyError)
    ensures CheckOp(Op("add", path), columns) == Err(KeyError)
  {
    assert Get(Dict([("path", Str(path))]).entries, "op") == None;
    var a := Dict([("op", Str("add"))]).entries;
    assert Get(a, "op") == Some(Str("add")) && Get(a, "path") == None;
    var e := Op("add", path).entries;
    assert Get(e, "op") == Some(Str("add")) && Get(e, "path") == Some(Str(path)) && Get(e, "value") == None;
  }

  /** A path that is neither null nor a string raises TypeError. */
  lemma BadPathTypes(v: Value, columns: seq<string>)
    requires v != Null && !v.Str?
    ensures CheckOp(Dict([("op", Str("remove")), ("path", v)]), columns) == Err(TypeError)
  {
    var e := Dict([("op", Str("remove")), ("path", v)]).entries;
    assert Get(e, "op") == Some(Str("remove")) && Get(e, "path") == Some(v) && Keys(e) == ["op", "path"];
  }

  /** A null path raises ValueError. */
  lemma NullPathRefused(columns: seq<string>)
    ensures CheckOp(Dict([("op", Str("remove")), ("path", Null)]), columns) == Err(ValueError)
  {
    var e := Dict([("op", Str("remove")), ("path", Null)]).entries;
    assert Get(e, "op") == Some(Str("remove")) && Get(e, "path") == Some(Null) && Keys(e) == ["op", "path"];
  }

  /**
   * A path whose field names no column of the model is refused with
   * ValueError, for an `add` as for a `remove`.
   */
  lemma UnknownPathRefused(op: string, path: string, v: Value, columns: seq<string>)
    requires op == "add" || op == "remove"
    requires CamelToSnake(DropFirst(path)) !in columns
    ensures CheckOp(Op(op, path), columns) == Err(ValueError)
    ensures op == "add" ==> CheckOp(OpWithValue(op, path, v), columns) == Err(ValueError)
  {
    var e := Op(op, path).entries;
    assert Get(e, "op") == Some(Str(op)) && Get(e, "path") == Some(Str(path)) && Keys(e) == ["op", "path"];
    OpWithValueReads(op, path, v);
  }

  /** A null `op` is refused with ValueError before the path is looked at. */
  lemma NullOpRefused(path: string, columns: seq<string>)
    ensures CheckOp(Dict([("op", Null), ("path", Str(path))]), columns) == Err(ValueError)
  {
    assert Get([("op", Null), ("path", Str(path))], "op") == Some(Null);
  }

  /** An element that is not a JSON object raises TypeError. */
  lemma NonObjectRefused(item: Value, columns: seq<string>)
    requires !item.Dict?
    ensures CheckOp(item, columns) == Err(TypeError)
  {
  }
}
