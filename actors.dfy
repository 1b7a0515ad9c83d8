/**
 * The actor handlers: the field loop of `update_actor` and the PATCH it
 * completes, `get_actor`, and `post_actor` with its insert.
 */
module Actors {
  import opened Wrappers
  import opened Text
  import opened Values
  import opened Models
  import opened FieldCodec
  import opened PatchParser
  import opened Http
  import opened PatchGate
  import opened FieldRules
  import opened Store
  import opened Listing

  /** One turn of the field loop: the branch of `update_actor` for `key`. */
  function ApplyActorField(a: Actor, key: string, v: Value): (r: Option<Actor>)
    ensures r.Some? ==> (key != "name" ==> r.value.name == a.name) && (key != "gender" ==> r.value.gender == a.gender)
    ensures r.Some? ==> (key != "age" ==> r.value.age == a.age) && (key != "photo_url" ==> r.value.photoUrl == a.photoUrl)
  {
    if key == "name" then
      var n := RequiredText(v);
      if n.None? then None else Some(a.(name := n.value))
    else if key == "gender" then
      var g := GenderRule(v);
      if g.None? then None else Some(a.(gender := g.value))
    else if key == "age" then
      var n := AgeRule(v);
      if n.None? then None else Some(a.(age := n.value))
    else if key == "photo_url" then
      var p := PhotoUrlRule(v);
      if p.None? then None else Some(a.(photoUrl := p.value))
    else Some(a)
  }

  /** The field loop from entry `i` of `data` on; `None` where it aborts with 400. */
  function ApplyActorFieldsFrom(a: Actor, data: seq<(string, Value)>, i: nat): Option<Actor>
    requires i <= |data|
    decreases |data| - i
  {
    if i == |data| then Some(a)
    else
      var next := ApplyActorField(a, data[i].0, data[i].1);
      if next.None? then None else ApplyActorFieldsFrom(next.value, data, i + 1)
  }

  /** `for key in data: ...` applied to `actor`. */
  function ApplyActorFields(a: Actor, data: seq<(string, Value)>): Option<Actor>
  {
    ApplyActorFieldsFrom(a, data, 0)
  }

  /** The field loop as the handler runs it, assigning the row's fields one by one. */
  method UpdateActorFields(actor: Actor, data: seq<(string, Value)>) returns (r: Option<Actor>)
    ensures r == ApplyActorFields(actor, data)
  {
    var edited := actor;
    var i := 0;
    while i < |data|
      invariant 0 <= i <= |data|
      invariant ApplyActorFields(actor, data) == ApplyActorFieldsFrom(edited, data, i)
    {
      var (key, value) := data[i];
      if key == "name" {
        var n := RequiredText(value);
        if n.None? {
          return None;
        }
        edited := edited.(name := n.value);
      }
      if key == "gender" {
        var g := GenderRule(value);
        if g.None? {
          return None;
        }
        edited := edited.(gender := g.value);
      }
      if key == "age" {
        var n := AgeRule(value);
        if n.None? {
          return None;
        }
        edited := edited.(age := n.value);
      }
      if key == "photo_url" {
        var p := PhotoUrlRule(value);
        if p.None? {
          return None;
        }
        edited := edited.(photoUrl := p.value);
      }
      i := i + 1;
    }
    return Some(edited);
  }

  /** The lookup reference for the actor field loop. */
  function ActorByLookup(a: Actor, data: seq<(string, Value)>): Option<Actor>
  {
    var name := Pick(Get(data, "name"), a.name, RequiredText);
    var gender := Pick(Get(data, "gender"), a.gender, GenderRule);
    var age := Pick(Get(data, "age"), a.age, AgeRule);
    var photo := Pick(Get(data, "photo_url"), a.photoUrl, PhotoUrlRule);
    if name.None? || gender.None? || age.None? || photo.None? then None
    else Some(Actor(name.value, age.value, photo.value, gender.value))
  }

  lemma LookupStep(a: Actor, k: string, v: Value, rest: seq<(string, Value)>)
    requires k !in Keys(rest)
    ensures var next := ApplyActorField(a, k, v);
      ActorByLookup(a, [(k, v)] + rest) == if next.None? then None else ActorByLookup(next.value, rest)
  {
    var d := [(k, v)] + rest;
    assert d[1..] == rest;
    assert forall f :: Get(d, f) == if f == k then Some(v) else Get(rest, f);
    assert Get(rest, k) == None;
    if k == "name" {
      assert ActorByLookup(a, d) == (if RequiredText(v).None? then None else ActorByLookup(a.(name := RequiredText(v).value), rest));
    } else if k == "gender" {
      assert ActorByLookup(a, d) == (if GenderRule(v).None? then None else ActorByLookup(a.(gender := GenderRule(v).value), rest));
    } else if k == "age" {
      assert ActorByLookup(a, d) == (if AgeRule(v).None? then None else ActorByLookup(a.(age := AgeRule(v).value), rest));
    } else if k == "photo_url" {
      assert ActorByLookup(a, d) == (if PhotoUrlRule(v).None? then None else ActorByLookup(a.(photoUrl := PhotoUrlRule(v).value), rest));
    } else {
      assert ActorByLookup(a, d) == ActorByLookup(a, rest);
    }
  }

  lemma {:induction false} FoldFromIsLookup(a: Actor, data: seq<(string, Value)>, i: nat)
    requires DistinctKeys(data) && i <= |data|
    ensures ApplyActorFieldsFrom(a, data, i) == ActorByLookup(a, data[i..])
    decreases |data| - i
  {
    if i == |data| {
      assert data[i..] == [];
    } else {
      var (k, v) := data[i];
      var rest := data[i + 1..];
      assert data[i..] == [(k, v)] + rest;
      assert k !in Keys(rest);
      LookupStep(a, k, v, rest);
      var next := ApplyActorField(a, k, v);
      if next.Some? {
        FoldFromIsLookup(next.value, data, i + 1);
      }
    }
  }

  /** On a dict (distinct keys), the field loop and the lookup reference agree. */
  lemma FieldLoopIsLookup(a: Actor, data: seq<(string, Value)>)
    requires DistinctKeys(data)
    ensures ApplyActorFields(a, data) == ActorByLookup(a, data)
  {
    FoldFromIsLookup(a, data, 0);
    assert data[0..] == data;
  }

  /** The order of the patched fields does not matter. */
  lemma FieldOrderIrrelevant(a: Actor, d1: seq<(string, Value)>, d2: seq<(string, Value)>)
    requires DistinctKeys(d1) && DistinctKeys(d2)
    requires forall k :: Get(d1, k) == Get(d2, k)
    ensures ApplyActorFields(a, d1) == ApplyActorFields(a, d2)
  {
    FieldLoopIsLookup(a, d1);
    FieldLoopIsLookup(a, d2);
    assert Get(d1, "name") == Get(d2, "name") && Get(d1, "gender") == Get(d2, "gender");
    assert Get(d1, "age") == Get(d2, "age") && Get(d1, "photo_url") == Get(d2, "photo_url");
  }

  /** Running the field loop again on its own result with the same fields changes nothing. */
  lemma FieldLoopIdempotent(a: Actor, data: seq<(string, Value)>)
    requires DistinctKeys(data) && ApplyActorFields(a, data).Some?
    ensures ApplyActorFields(ApplyActorFields(a, data).value, data) == ApplyActorFields(a, data)
  {
    FieldLoopIsLookup(a, data);
    FieldLoopIsLookup(ApplyActorFields(a, data).value, data);
  }

  /** A failing field aborts the loop, wherever it sits in the dict. */
  lemma FailingFieldAborts(a: Actor, data: seq<(string, Value)>, i: nat)
    requires DistinctKeys(data) && i < |data|
    requires ApplyActorField(a, data[i].0, data[i].1).None?
    ensures ApplyActorFields(a, data) == None
  {
    FieldLoopIsLookup(a, data);
    assert Get(data, data[i].0) == Some(data[i].1) by {
      assert Keys(data)[i] == data[i].0;
    }
  }

  /** `update_actor`: the response and the actor table after the PATCH. */
  function PatchActor(rows: map<int, Actor>, id: int, contentType: Option<string>, body: Option<Value>,
                      hash: Value -> string): (Response, map<int, Actor>)
  {
    PatchRecord(rows, id, contentType, body, ActorColumns, ApplyActorFields, FormatActor, hash)
  }

  /** `update_actor` on the table, with the loop and the single `update()`. */
  method UpdateActor(table: Table<Actor>, id: int, contentType: Option<string>, body: Option<Value>,
                     hash: Value -> string) returns (resp: Response)
    requires table.Valid()
    modifies table
    ensures table.Valid() && table.nextId == old(table.nextId)
    ensures (resp, table.rows) == PatchActor(old(table.rows), id, contentType, body, hash)
  {
    if contentType != Some(PatchContentType) {
      return Abort(415);
    }
    if body.None? || !body.value.List? {
      return Abort(400);
    }
    var data := ConvertPatchRequest(body.value.items, ActorColumns);
    if data.Err? {
      return Abort(if data.error == KeyError then 500 else 400);
    }
    if id !in table.rows {
      return Abort(404);
    }
    var actor := table.rows[id];
    var origHash := hash(FormatActor(id, actor));
    var edited := UpdateActorFields(actor, data.value);
    if edited.None? {
      return Abort(400);
    }
    var newHash := hash(FormatActor(id, edited.value));
    if newHash == origHash {
      return Response(204, Some(origHash), None);
    }
    table.Update(id, edited.value);
    return Response(200, Some(newHash), Some(SuccessId(Int(id))));
  }

  /** Repeating an accepted actor PATCH answers 204 with the same tag and writes nothing. */
  lemma ActorPatchIdempotent(rows: map<int, Actor>, id: int, contentType: Option<string>, body: Option<Value>,
                             hash: Value -> string)
    requires PatchActor(rows, id, contentType, body, hash).0.status in {200, 204}
    ensures var first := PatchActor(rows, id, contentType, body, hash);
      PatchActor(first.1, id, contentType, body, hash) == (Response(204, first.0.etag, None), first.1)
  {
    forall a, d | DistinctKeys(d) && ApplyActorFields(a, d).Some?
      ensures ApplyActorFields(ApplyActorFields(a, d).value, d) == ApplyActorFields(a, d)
    {
      FieldLoopIdempotent(a, d);
    }
    PatchIdempotent(rows, id, contentType, body, ActorColumns, ApplyActorFields, FormatActor, hash);
  }

  /**
   * When no two rows under `id` share a tag, an actor PATCH that
   * changes the row is written and answers a new tag.
   */
  lemma ActorChangeDetected(rows: map<int, Actor>, id: int, body: seq<Value>, hash: Value -> string)
    requires forall a, b :: hash(FormatActor(id, a)) == hash(FormatActor(id, b)) ==> a == b
    requires id in rows && ConvertPatch(body, ActorColumns).Ok?
    requires ApplyActorFields(rows[id], ConvertPatch(body, ActorColumns).value).Some?
    requires ApplyActorFields(rows[id], ConvertPatch(body, ActorColumns).value).value != rows[id]
    ensures var r := PatchActor(rows, id, Some(PatchContentType), Some(List(body)), hash);
      && r.0.status == 200
      && r.0.etag != Some(hash(FormatActor(id, rows[id])))
      && r.1 == rows[id := ApplyActorFields(rows[id], ConvertPatch(body, ActorColumns).value).value]
  {
    ChangeDetected(rows, id, body, ActorColumns, ApplyActorFields, FormatActor, hash);
  }

  /**
   * A well-formed PATCH whose fields pass: the row becomes the edited one,
   * the answer is 204 exactly when nothing changed (else 200), and its tag
   * is the one a following GET reports.
   */
  lemma ActorPatchOutcome(rows: map<int, Actor>, id: int, body: seq<Value>, hash: Value -> string, edited: Actor)
    requires forall a, b :: hash(FormatActor(id, a)) == hash(FormatActor(id, b)) ==> a == b
    requires id in rows && ConvertPatch(body, ActorColumns).Ok?
    requires ApplyActorFields(rows[id], ConvertPatch(body, ActorColumns).value) == Some(edited)
    ensures var r := PatchActor(rows, id, Some(PatchContentType), Some(List(body)), hash);
      && r.1 == rows[id := edited]
      && r.0.status in {200, 204}
      && (r.0.status == 204 <==> edited == rows[id])
      && r.0.etag == GetActor(r.1, id, hash).etag
  {
    if edited == rows[id] {
      NoChangeNoWrite(rows, id, body, ActorColumns, ApplyActorFields, FormatActor, hash);
      assert rows[id := edited] == rows;
    } else {
      ActorChangeDetected(rows, id, body, hash);
    }
    PatchTagMatchesGet(rows, id, Some(PatchContentType), Some(List(body)), hash);
  }

  /** The field `get_actors` filters and orders by. */
  function ActorName(x: Actor): string
  {
    x.name
  }

  /** `get_actors`: the page of actors whose name contains `search`, ordered by name. */
  ghost function GetActors(rows: map<int, Actor>, search: string, page: Option<int>): (r: Response)
    requires PageNumber(page) >= 1
    ensures r.status == 200 && r.etag.None?
  {
    ListResponse(rows, ActorName, FormatActor, search, page, "actors", "total_actors")
  }

  /**
   * A page of `get_actors` lists at most ten distinct stored actors, each
   * with the search term in its name (ignoring case), in name order.
   */
  lemma ActorsPage(rows: map<int, Actor>, search: string, page: Option<int>)
    requires PageNumber(page) >= 1
    ensures var ids := PageIds(rows, ActorName, search, page);
      && |ids| <= PerPage
      && (forall i :: 0 <= i < |ids| ==> ids[i] in rows && Matches(rows[ids[i]].name, search))
      && (forall i, j :: 0 <= i < j < |ids| ==> ids[i] != ids[j] && LexLessEq(rows[ids[i]].name, rows[ids[j]].name))
  {
    PageRowsMatch(rows, ActorName, search, page);
    PageSorted(rows, ActorName, search, page);
  }

  /** Every stored actor whose name contains the search term is on some page. */
  lemma ActorOnSomePage(rows: map<int, Actor>, search: string, id: int)
    requires id in rows && Matches(rows[id].name, search)
    ensures exists n :: n >= 1 && id in PageIds(rows, ActorName, search, Some(n))
  {
    EveryMatchListed(rows, ActorName, search, id);
  }

  /** `get_actor`: 404 for a missing row, else the row with its tag. */
  function GetActor(rows: map<int, Actor>, id: int, hash: Value -> string): (r: Response)
    ensures r.status == 200 <==> id in rows
    ensures id !in rows ==> r == Abort(404)
    ensures id in rows ==> r.etag == Some(hash(FormatActor(id, rows[id])))
  {
    if id !in rows then Abort(404)
    else
      var formatted := FormatActor(id, rows[id]);
      Response(200, Some(hash(formatted)), CamelCased(Dict([("success", Bool(true)), ("actor", formatted)])))
  }

  /** The tag a PATCH answers with is the tag a following GET reports. */
  lemma PatchTagMatchesGet(rows: map<int, Actor>, id: int, contentType: Option<string>, body: Option<Value>,
                           hash: Value -> string)
    requires PatchActor(rows, id, contentType, body, hash).0.status in {200, 204}
    ensures var r := PatchActor(rows, id, contentType, body, hash);
      GetActor(r.1, id, hash).status == 200 && GetActor(r.1, id, hash).etag == r.0.etag
  {
    OnlySuccessWrites(rows, id, contentType, body, ActorColumns, ApplyActorFields, FormatActor, hash);
  }

  lemma AgeAddChecked()
    ensures CheckOp(OpWithValue("add", "/age", Int(4)), ActorColumns) == Ok(("age", Int(4)))
  {
    assert DropFirst("/age") == "age";
    assert CamelToSnake("age") == "age";
    AddAccepted("/age", Int(4), ActorColumns);
  }

  lemma PhotoRemoveChecked()
    ensures CheckOp(Op("remove", "/photoUrl"), ActorColumns) == Ok(("photo_url", Null))
  {
    assert DropFirst("/photoUrl") == "photoUrl";
    PhotoUrlColumn();
    RemoveAccepted("/photoUrl", ActorColumns);
  }

  lemma PhotoAddChecked(url: string)
    ensures CheckOp(OpWithValue("add", "/photoUrl", Str(url)), ActorColumns) == Ok(("photo_url", Str(url)))
  {
    assert DropFirst("/photoUrl") == "photoUrl";
    PhotoUrlColumn();
    AddAccepted("/photoUrl", Str(url), ActorColumns);
  }

  /** The first body of `actors_tests.test_patch_actor`: an age write and a photo clear. */
  lemma AgeAndPhotoBody()
    ensures ConvertPatch([OpWithValue("add", "/age", Int(4)), Op("remove", "/photoUrl")], ActorColumns) ==
      Ok([("age", Int(4)), ("photo_url", Null)])
  {
    var body := [OpWithValue("add", "/age", Int(4)), Op("remove", "/photoUrl")];
    var one := [("age", Int(4))];
    var two := [("age", Int(4)), ("photo_url", Null)];
    assert ConvertFrom(one, body, 1, ActorColumns) == Ok(two) by {
      PhotoRemoveChecked();
      assert body[1] == Op("remove", "/photoUrl");
      assert Put(one, "photo_url", Null) == two;
      assert ConvertFrom(two, body, 2, ActorColumns) == Ok(two);
    }
    assert ConvertFrom([], body, 0, ActorColumns) == ConvertFrom(one, body, 1, ActorColumns) by {
      AgeAddChecked();
      assert body[0] == OpWithValue("add", "/age", Int(4));
      assert Put([], "age", Int(4)) == one;
    }
  }

  /** The second body of `actors_tests.test_patch_actor`: a photo write. */
  lemma PhotoBody(url: string)
    ensures ConvertPatch([OpWithValue("add", "/photoUrl", Str(url))], ActorColumns) == Ok([("photo_url", Str(url))])
  {
    var body := [OpWithValue("add", "/photoUrl", Str(url))];
    var one := [("photo_url", Str(url))];
    PhotoAddChecked(url);
    assert Put([], "photo_url", Str(url)) == one;
    assert ConvertFrom(one, body, 1, ActorColumns) == Ok(one);
  }

  /** The field loop on the first body of `actors_tests.test_patch_actor`. */
  lemma AgeAndPhotoApplied(a: Actor)
    ensures ApplyActorFields(a, [("age", Int(4)), ("photo_url", Null)]) == Some(a.(age := 4, photoUrl := None))
  {
    var data := [("age", Int(4)), ("photo_url", Null)];
    assert ApplyActorField(a, "age", Int(4)) == Some(a.(age := 4));
    assert ApplyActorField(a.(age := 4), "photo_url", Null) == Some(a.(age := 4, photoUrl := None));
    assert ApplyActorFieldsFrom(a.(age := 4, photoUrl := None), data, 2) == Some(a.(age := 4, photoUrl := None));
  }

  /** The field loop on the second body of `actors_tests.test_patch_actor`. */
  lemma PhotoApplied(a: Actor, url: string)
    requires url != ""
    ensures ApplyActorFields(a, [("photo_url", Str(url))]) == Some(a.(photoUrl := Some(Strip(url))))
  {
    var data := [("photo_url", Str(url))];
    assert ApplyActorField(a, "photo_url", Str(url)) == Some(a.(photoUrl := Some(Strip(url))));
    assert ApplyActorFieldsFrom(a.(photoUrl := Some(Strip(url))), data, 1) == Some(a.(photoUrl := Some(Strip(url))));
  }

  /**
   * `actors_tests.test_patch_actor`, first request: setting age 4 and
   * removing the photo of an actor with another age or a photo answers 200
   * with a tag that a GET then reports, for the row with age 4 and no photo.
   */
  lemma AgeAndPhotoScenario(rows: map<int, Actor>, id: int, hash: Value -> string)
    requires forall a, b :: hash(FormatActor(id, a)) == hash(FormatActor(id, b)) ==> a == b
    requires id in rows && (rows[id].age != 4 || rows[id].photoUrl.Some?)
    ensures var r := PatchActor(rows, id, Some(PatchContentType),
                                Some(List([OpWithValue("add", "/age", Int(4)), Op("remove", "/photoUrl")])), hash);
      && r.0.status == 200
      && r.1 == rows[id := rows[id].(age := 4, photoUrl := None)]
      && GetActor(r.1, id, hash).etag == r.0.etag
  {
    var body := [OpWithValue("add", "/age", Int(4)), Op("remove", "/photoUrl")];
    AgeAndPhotoBody();
    AgeAndPhotoApplied(rows[id]);
    ActorChangeDetected(rows, id, body, hash);
    PatchTagMatchesGet(rows, id, Some(PatchContentType), Some(List(body)), hash);
  }

  /**
   * `actors_tests.test_patch_actor`, second request: adding a photo to an
   * actor without one answers 200 with a tag other than the one before.
   */
  lemma PhotoScenario(rows: map<int, Actor>, id: int, url: string, hash: Value -> string)
    requires forall a, b :: hash(FormatActor(id, a)) == hash(FormatActor(id, b)) ==> a == b
    requires id in rows && rows[id].photoUrl.None? && url != ""
    ensures var r := PatchActor(rows, id, Some(PatchContentType), Some(List([OpWithValue("add", "/photoUrl", Str(url))])), hash);
      && r.0.status == 200
      && r.0.etag != GetActor(rows, id, hash).etag
      && r.1 == rows[id := rows[id].(photoUrl := Some(Strip(url)))]
  {
    var body := [OpWithValue("add", "/photoUrl", Str(url))];
    PhotoBody(url);
    PhotoApplied(rows[id], url);
    ActorChangeDetected(rows, id, body, hash);
  }

  /** The validation at the top of `post_actor`. */
  predicate ActorBodyValid(e: seq<(string, Value)>)
  {
    var name := Get(e, "name");
    var gender := Get(e, "gender");
    var age := Get(e, "age");
    var photo := Get(e, "photoUrl");
    && name.Some? && name.value.Str?
    && (gender.None? || gender.value == Null || IsGenderValue(gender.value))
    && age.Some? && age.value.Int? && age.value.i > 0
    && (photo.None? || photo.value == Null || photo.value.Str?)
  }

  /**
   * `photo_url` of `post_actor`: stripped when non-empty, `""` kept, absent
   * or null as None. Since `""` strips to itself, a posted string is always
   * stored stripped.
   */
  function PostedPhoto(entry: Option<Value>): (r: Option<string>)
    ensures r.Some? <==> entry.Some? && entry.value.Str?
    ensures r.Some? ==> r.value == Strip(entry.value.s)
  {
    if entry.Some? && entry.value.Str? then
      (if entry.value.s != "" then Some(Strip(entry.value.s)) else Some(""))
    else None
  }

  /** `body.get("gender", None)`. */
  function GenderEntry(e: seq<(string, Value)>): (r: Value)
    ensures Get(e, "gender").Some? ==> r == Get(e, "gender").value
    ensures Get(e, "gender").None? ==> r == Null
  {
    var g := Get(e, "gender");
    if g.None? then Null else g.value
  }

  /**
   * `post_actor` up to the insert, as written: `Gender[gender]` for a truthy
   * gender, whose `KeyError` answers 500.
   */
  function NewActorFromBody(body: Value): (r: Result<Actor, int>)
    ensures !body.Dict? ==> r == Err(500)
    ensures body.Dict? && !ActorBodyValid(body.entries) ==> r == Err(400)
    ensures r.Ok? ==> body.Dict? && ActorBodyValid(body.entries) && r.value.age > 0
    ensures r.Ok? ==> r.value.name == Strip(Get(body.entries, "name").value.s)
    ensures r.Ok? ==> r.value.age == Get(body.entries, "age").value.i
    ensures r.Ok? ==> r.value.photoUrl == PostedPhoto(Get(body.entries, "photoUrl"))
  {
    if !body.Dict? then Err(500)
    else if !ActorBodyValid(body.entries) then Err(400)
    else
      var gender := GenderEntry(body.entries);
      var member := if Truthy(gender) && gender.Str? then GenderByName(gender.s) else None;
      if Truthy(gender) && member.None? then Err(500)
      else
        Ok(Actor(Strip(Get(body.entries, "name").value.s), Get(body.entries, "age").value.i,
                 PostedPhoto(Get(body.entries, "photoUrl")), member))
  }

  /**
   * The validation lets a gender through only as a member value ("M"/"F"),
   * which is never a member name: a valid body with a gender always ends in
   * 500, and a stored actor never has a gender.
   */
  lemma PostedGenderFails(body: Value)
    requires body.Dict? && ActorBodyValid(body.entries)
    ensures Truthy(GenderEntry(body.entries)) ==> NewActorFromBody(body) == Err(500)
    ensures !Truthy(GenderEntry(body.entries)) ==> NewActorFromBody(body).Ok? && NewActorFromBody(body).value.gender == None
  {
    var gender := GenderEntry(body.entries);
    if Truthy(gender) {
      assert IsGenderValue(gender);
      var g :| gender == Str(GenderValue(g));
      GenderNameIsNeverValue(GenderValue(g));
    }
  }

  /** An actor body with the given gender entry and an otherwise valid content. */
  function ActorBody(name: string, age: int, gender: Value): (r: Value)
    ensures r.Dict? && Get(r.entries, "name") == Some(Str(name)) && Get(r.entries, "age") == Some(Int(age))
    ensures Get(r.entries, "gender") == Some(gender) && Get(r.entries, "photoUrl") == None
  {
    var e := [("age", Int(age)), ("gender", gender), ("name", Str(name))];
    assert Get(e, "name") == Some(Str(name));
    assert Get(e, "photoUrl") == None by {
      assert Keys(e) == ["age", "gender", "name"];
    }
    Dict(e)
  }

  /** The gender of `actors_tests.test_create_actor` ("MALE") is refused with 400. */
  lemma PostedGenderNameRefused(name: string, age: int)
    requires age > 0
    ensures NewActorFromBody(ActorBody(name, age, Str("MALE"))) == Err(400)
  {
    var e := ActorBody(name, age, Str("MALE")).entries;
    assert !IsGenderValue(Str("MALE"));
  }

  /** A member value ("M") passes the validation only to fail with 500. */
  lemma PostedGenderValueFails(name: string, age: int)
    requires age > 0
    ensures NewActorFromBody(ActorBody(name, age, Str("M"))) == Err(500)
  {
    var body := ActorBody(name, age, Str("M"));
    assert IsGenderValue(Str(GenderValue(Male)));
    assert ActorBodyValid(body.entries);
    PostedGenderFails(body);
  }

  /** The validation `post_actor` evidently intends: the gender by member name, as `Gender[...]` reads it. */
  predicate ActorBodyValidByName(e: seq<(string, Value)>)
  {
    var name := Get(e, "name");
    var gender := Get(e, "gender");
    var age := Get(e, "age");
    var photo := Get(e, "photoUrl");
    && name.Some? && name.value.Str?
    && (gender.None? || gender.value == Null || (gender.value.Str? && GenderByName(gender.value.s).Some?))
    && age.Some? && age.value.Int? && age.value.i > 0
    && (photo.None? || photo.value == Null || photo.value.Str?)
  }

  /** `post_actor` with the validation and the lookup agreeing on member names. */
  function NewActorFromBodyByName(body: Value): (r: Result<Actor, int>)
    ensures !body.Dict? ==> r == Err(500)
    ensures body.Dict? ==> (r.Ok? <==> ActorBodyValidByName(body.entries))
    ensures r.Err? && body.Dict? ==> r == Err(400)
    ensures r.Ok? ==> r.value.gender.Some? ==> GenderEntry(body.entries) == Str(GenderName(r.value.gender.value))
  {
    if !body.Dict? then Err(500)
    else if !ActorBodyValidByName(body.entries) then Err(400)
    else
      var gender := GenderEntry(body.entries);
      var member := if Truthy(gender) && gender.Str? then GenderByName(gender.s) else None;
      Ok(Actor(Strip(Get(body.entries, "name").value.s), Get(body.entries, "age").value.i,
               PostedPhoto(Get(body.entries, "photoUrl")), member))
  }

  /** With the corrected validation, every gender name is stored as that gender. */
  lemma PostedGenderStored(name: string, age: int, g: Gender)
    requires age > 0
    ensures NewActorFromBodyByName(ActorBody(name, age, Str(GenderName(g)))) ==
      Ok(Actor(Strip(name), age, None, Some(g)))
  {
    var body := ActorBody(name, age, Str(GenderName(g)));
    var e := body.entries;
    assert GenderEntry(e) == Str(GenderName(g)) && Truthy(GenderEntry(e)) by {
      assert GenderName(g) != "";
    }
    assert GenderByName(GenderName(g)) == Some(g);
    assert ActorBodyValidByName(e);
    assert PostedPhoto(Get(e, "photoUrl")) == None;
  }

  /** `post_actor`: validation, then `actor.add()` and 201 with the new key. */
  method PostActor(table: Table<Actor>, body: Value) returns (resp: Response)
    requires table.Valid()
    modifies table
    ensures table.Valid()
    ensures NewActorFromBody(body).Err? ==>
      resp == Abort(NewActorFromBody(body).error) && table.rows == old(table.rows) && table.nextId == old(table.nextId)
    ensures NewActorFromBody(body).Ok? ==>
      && resp == Response(201, None, Some(SuccessId(Int(old(table.nextId)))))
      && old(table.nextId) !in old(table.rows)
      && table.rows == old(table.rows)[old(table.nextId) := NewActorFromBody(body).value]
  {
    var actor := NewActorFromBody(body);
    if actor.Err? {
      return Abort(actor.error);
    }
    var id := table.Add(actor.value);
    return Response(201, None, Some(SuccessId(Int(id))));
  }
}
