/**
 * The PATCH pipeline that `update_movie` and `update_actor` share, with the
 * entity's field loop as the parameter `apply` (`None` where the loop aborts
 * with 400) and its `format()` as `format`:
 *
 *   1. a `Content-Type` other than the JSON Patch one is refused with 415
 *      before the body is read;
 *   2. a body that does not parse, is null or is not a list gives 400;
 *   3. the conversion's TypeError and ValueError give 400, its KeyError is not
 *      caught and gives 500;
 *   4. only then is the row looked up (404);
 *   5. the row is hashed, edited, hashed again: an unchanged hash answers 204
 *      with the old tag and writes nothing, a changed one writes the row once
 *      and answers 200 with the new tag.
 *
 * `_create_etag` (SHA-256 of the sorted JSON of `format()`) is the parameter
 * `hash`; where a property needs different rows to hash differently, the
 * lemma says so in its `requires`.
 */
module PatchGate {
  import opened Wrappers
  import opened Values
  import opened PatchParser
  import opened Http

  /** The response and the table after one PATCH of row `id`. */
  function PatchRecord<R>(rows: map<int, R>, id: int, contentType: Option<string>, body: Option<Value>,
                          columns: seq<string>, apply: (R, seq<(string, Value)>) -> Option<R>,
                          format: (int, R) -> Value, hash: Value -> string): (Response, map<int, R>)
  {
    if contentType != Some(PatchContentType) then (Abort(415), rows)
    else if body.None? || !body.value.List? then (Abort(400), rows)
    else
      var data := ConvertPatch(body.value.items, columns);
      if data.Err? then (Abort(if data.error == KeyError then 500 else 400), rows)
      else if id !in rows then (Abort(404), rows)
      else
        var orig := hash(format(id, rows[id]));
        var edited := apply(rows[id], data.value);
        if edited.None? then (Abort(400), rows)
        else
          var now := hash(format(id, edited.value));
          if now == orig then (Response(204, Some(orig), None), rows)
          else (Response(200, Some(now), Some(SuccessId(Int(id)))), rows[id := edited.value])
  }

  /**
   * The checks run in order: the content type before the body, the body and
   * the operations before the row lookup.
   */
  lemma CheckOrder<R>(rows: map<int, R>, id: int, contentType: Option<string>, body: Option<Value>,
                      columns: seq<string>, apply: (R, seq<(string, Value)>) -> Option<R>,
                      format: (int, R) -> Value, hash: Value -> string)
    ensures var r := PatchRecord(rows, id, contentType, body, columns, apply, format, hash);
      && (contentType != Some(PatchContentType) ==> r.0.status == 415)
      && (contentType == Some(PatchContentType) && (body.None? || !body.value.List?) ==> r.0.status == 400)
      && (contentType == Some(PatchContentType) && body.Some? && body.value.List? ==>
            var data := ConvertPatch(body.value.items, columns);
            && (data.Err? && data.error != KeyError ==> r.0.status == 400)
            && (data.Err? && data.error == KeyError ==> r.0.status == 500)
            && (data.Ok? && id !in rows ==> r.0.status == 404))
  {
  }

  /**
   * Only a 200 writes, and it writes exactly the edited row; its tag is the
   * hash of what is now stored, the tag a following GET reports. Every other
   * answer leaves the table as it was.
   */
  lemma OnlySuccessWrites<R>(rows: map<int, R>, id: int, contentType: Option<string>, body: Option<Value>,
                             columns: seq<string>, apply: (R, seq<(string, Value)>) -> Option<R>,
                             format: (int, R) -> Value, hash: Value -> string)
    ensures var r := PatchRecord(rows, id, contentType, body, columns, apply, format, hash);
      && (r.0.status != 200 ==> r.1 == rows)
      && (r.0.status == 200 ==>
            && body.Some? && body.value.List? && ConvertPatch(body.value.items, columns).Ok? && id in rows
            && apply(rows[id], ConvertPatch(body.value.items, columns).value).Some?
            && r.1 == rows[id := apply(rows[id], ConvertPatch(body.value.items, columns).value).value]
            && r.0.etag == Some(hash(format(id, r.1[id])))
            && r.0.etag != Some(hash(format(id, rows[id]))))
      && (r.0.status == 204 ==> id in rows && r.0.etag == Some(hash(format(id, rows[id]))))
      && r.1.Keys == rows.Keys
  {
  }

  /** A PATCH that leaves the row as it was answers 204 with the old tag and writes nothing. */
  lemma NoChangeNoWrite<R>(rows: map<int, R>, id: int, body: seq<Value>,
                           columns: seq<string>, apply: (R, seq<(string, Value)>) -> Option<R>,
                           format: (int, R) -> Value, hash: Value -> string)
    requires id in rows && ConvertPatch(body, columns).Ok?
    requires apply(rows[id], ConvertPatch(body, columns).value) == Some(rows[id])
    ensures PatchRecord(rows, id, Some(PatchContentType), Some(List(body)), columns, apply, format, hash) ==
      (Response(204, Some(hash(format(id, rows[id]))), None), rows)
  {
  }

  /**
   * Sending the same PATCH again, once the first was accepted, changes
   * nothing and answers 204 with the tag the first answer carried, provided
   * the field loop gives the same row when run again on its own output with
   * the same fields.
   */
  lemma PatchIdempotent<R>(rows: map<int, R>, id: int, contentType: Option<string>, body: Option<Value>,
                           columns: seq<string>, apply: (R, seq<(string, Value)>) -> Option<R>,
                           format: (int, R) -> Value, hash: Value -> string)
    requires forall m, d :: DistinctKeys(d) && apply(m, d).Some? ==> apply(apply(m, d).value, d) == apply(m, d)
    requires PatchRecord(rows, id, contentType, body, columns, apply, format, hash).0.status in {200, 204}
    ensures var first := PatchRecord(rows, id, contentType, body, columns, apply, format, hash);
      var second := PatchRecord(first.1, id, contentType, body, columns, apply, format, hash);
      second == (Response(204, first.0.etag, None), first.1)
  {
    ConvertOk(body.value.items, columns);
    var data := ConvertPatch(body.value.items, columns).value;
    var e := apply(rows[id], data);
    assert apply(e.value, data) == e;
  }

  /**
   * When different rows get different tags (which SHA-256 of the formatted
   * row gives unless two rows collide), a PATCH that changes the row always
   * writes it and answers a tag different from the old one.
   */
  lemma ChangeDetected<R>(rows: map<int, R>, id: int, body: seq<Value>,
                          columns: seq<string>, apply: (R, seq<(string, Value)>) -> Option<R>,
                          format: (int, R) -> Value, hash: Value -> string)
    requires forall a, b :: hash(format(id, a)) == hash(format(id, b)) ==> a == b
    requires id in rows && ConvertPatch(body, columns).Ok?
    requires apply(rows[id], ConvertPatch(body, columns).value).Some?
    requires apply(rows[id], ConvertPatch(body, columns).value).value != rows[id]
    ensures var r := PatchRecord(rows, id, Some(PatchContentType), Some(List(body)), columns, apply, format, hash);
      && r.0.status == 200
      && r.0.etag != Some(hash(format(id, rows[id])))
      && r.1 == rows[id := apply(rows[id], ConvertPatch(body, columns).value).value]
  {
    var data := ConvertPatch(body, columns).value;
    TagsDiffer(format, hash, id, apply(rows[id], data).value, rows[id]);
  }

  lemma TagsDiffer<R>(format: (int, R) -> Value, hash: Value -> string, id: int, x: R, y: R)
    requires forall a, b :: hash(format(id, a)) == hash(format(id, b)) ==> a == b
    requires x != y
    ensures hash(format(id, x)) != hash(format(id, y))
  {
  }
}
