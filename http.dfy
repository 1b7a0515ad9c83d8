/**
 * What a handler answers: a status code, the `ETag` header when it sets one,
 * and the JSON payload when it has one. Error payloads come from the
 * application's error handlers, which are not part of this model.
 */
module Http {
  import opened Wrappers
  import opened Values

  datatype Response = Response(status: int, etag: Option<string>, payload: Option<Value>)

  /** The only `Content-Type` the PATCH handlers accept, compared as an exact string. */
  const PatchContentType: string := "application/json-patch+json"

  /** An `abort(status)`: the status alone. */
  function Abort(status: int): (r: Response)
    ensures r.status == status && r.etag.None? && r.payload.None?
  {
    Response(status, None, None)
  }

  /** `{"success": True, "id": id}`. */
  function SuccessId(id: Value): (v: Value)
    ensures v.Dict? && Keys(v.entries) == ["success", "id"]
  {
    Dict([("success", Bool(true)), ("id", id)])
  }
}
