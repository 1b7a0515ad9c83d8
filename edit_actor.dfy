/**
 * The actor edit page: the form it fills from a loaded actor, the JSON Patch
 * list `onSubmit` builds from the edited form, and what the backend's
 * `update_actor` makes of that list. The age field is a plain text field,
 * so an edited age reaches `onSubmit` as text.
 */
module EditActor {
  import opened Wrappers
  import opened Text
  import opened Decimal
  import opened Values
  import opened Models
  import opened FieldCodec
  import opened PatchParser
  import opened Http
  import opened PatchGate
  import opened FieldRules
  import opened Actors
  import opened PatchBuilder

  /** The actor as the page receives it from `GET /actors/<id>`. */
  datatype LoadedActor = LoadedActor(name: string, gender: Option<string>, photoUrl: Option<string>, age: int)

  /**
   * What formik holds for the age: the loaded number until the field is
   * edited, text once it is typed into, or "" when nothing was loaded.
   */
  datatype AgeInput = Number(n: int) | Text(s: string)

  /** The form values formik hands to `onSubmit`. */
  datatype ActorForm = ActorForm(name: string, gender: string, photoUrl: string, age: AgeInput)

  /** A stored row as the GET renders it: the gender by its member name. */
  function Loaded(a: Actor): LoadedActor
  {
    LoadedActor(a.name, if a.gender.None? then None else Some(GenderName(a.gender.value)), a.photoUrl, a.age)
  }

  /** `initialValues`: each loaded field, or "" where it is missing or falsy. */
  function InitialForm(actor: LoadedActor): ActorForm
  {
    ActorForm(actor.name, OrEmpty(actor.gender), OrEmpty(actor.photoUrl),
              if actor.age == 0 then Text("") else Number(actor.age))
  }

  /** What formik stores when text is typed into the age field as the page declares it (no `type`). */
  function TextFieldAge(typed: string): AgeInput
  {
    Text(typed)
  }

  /**
   * What formik stores when the age field is declared `type="number"`: the
   * number the leading digits denote, or "" when there are none.
   */
  function NumberFieldAge(typed: string): (r: AgeInput)
    ensures DigitRun(typed) > 0 ==> r == Number(DigitsValue(typed[..DigitRun(typed)]))
    ensures DigitRun(typed) == 0 ==> r == Text("")
  {
    var n := DigitRun(typed);
    if n == 0 then Text("") else Number(DigitsValue(typed[..n]))
  }

  /** Typing the digits of a number, followed by anything but a digit, gives that number. */
  lemma NumberFieldReadsDigits(n: nat, rest: string)
    requires rest == [] || !IsDigit(rest[0])
    ensures NumberFieldAge(Digits(n) + rest) == Number(n)
  {
    var d := Digits(n);
    DigitRunOf(d, rest);
    DigitsRoundTrip(n);
    assert (d + rest)[..|d|] == d;
  }

  /** The `Content-Type` the page sends with the PATCH. */
  const SentContentType: string := "application/json-patch+json"

  /** The name step: an add of the trimmed name when the name field differs from the loaded one. */
  function NameOps(actor: LoadedActor, values: ActorForm): seq<PatchOp>
  {
    if values.name != actor.name then [Add("/name", Str(Trim(values.name)))] else []
  }

  /**
   * The gender step: a remove when the selection is cleared and a gender was
   * loaded, else an add of the selection (possibly "") when it differs from
   * the loaded gender.
   */
  function GenderOps(actor: LoadedActor, values: ActorForm): seq<PatchOp>
  {
    if values.gender == "" && JsTruthy(actor.gender) then [Remove("/gender")]
    else if Some(values.gender) != actor.gender then [Add("/gender", Str(values.gender))]
    else []
  }

  /** The age step: an add of the field's value unless it is the loaded number; text always differs. */
  function AgeOps(actor: LoadedActor, values: ActorForm): seq<PatchOp>
  {
    match values.age
    case Number(n) => if n != actor.age then [Add("/age", Int(n))] else []
    case Text(s) => [Add("/age", Str(s))]
  }

  /** The whole `patches` list, the four steps in the order the page pushes them. */
  function ActorPatches(actor: LoadedActor, values: ActorForm): seq<PatchOp>
  {
    NameOps(actor, values) + GenderOps(actor, values)
      + OptionalFieldOps("/photoUrl", values.photoUrl, actor.photoUrl)
      + AgeOps(actor, values)
  }

  /** `onSubmit` up to the request: the pushes onto `patches`, one field after the other. */
  method BuildActorPatches(actor: LoadedActor, values: ActorForm) returns (patches: seq<PatchOp>)
    ensures patches == ActorPatches(actor, values)
  {
    patches := [];
    if values.name != actor.name {
      patches := patches + [Add("/name", Str(Trim(values.name)))];
    }
    if values.gender == "" && JsTruthy(actor.gender) {
      patches := patches + [Remove("/gender")];
    } else if Some(values.gender) != actor.gender {
      patches := patches + [Add("/gender", Str(values.gender))];
    }
    assert patches == NameOps(actor, values) + GenderOps(actor, values);
    if values.photoUrl == "" && JsTruthy(actor.photoUrl) {
      patches := patches + [Remove("/photoUrl")];
    } else if values.photoUrl != "" && Some(values.photoUrl) != actor.photoUrl {
      patches := patches + [Add("/photoUrl", Str(values.photoUrl))];
    }
    assert patches == NameOps(actor, values) + GenderOps(actor, values)
      + OptionalFieldOps("/photoUrl", values.photoUrl, actor.photoUrl);
    var value := if values.age.Number? then Int(values.age.n) else Str(values.age.s);
    if values.age.Text? || values.age.n != actor.age {
      patches := patches + [Add("/age", value)];
    }
  }

  /** The place of each actor column in the order the page patches them; -1 for any other column. */
  function ActorColumnRank(column: string): int
  {
    if column == "name" then 0
    else if column == "gender" then 1
    else if column == "photo_url" then 2
    else if column == "age" then 3
    else -1
  }

  lemma NamePathColumn()
    ensures CamelToSnake(DropFirst("/name")) == "name"
  {
    assert DropFirst("/name") == "name";
  }

  lemma GenderPathColumn()
    ensures CamelToSnake(DropFirst("/gender")) == "gender"
  {
    assert DropFirst("/gender") == "gender";
  }

  lemma PhotoUrlPathColumn()
    ensures CamelToSnake(DropFirst("/photoUrl")) == "photo_url"
  {
    assert DropFirst("/photoUrl") == "photoUrl";
    PhotoUrlColumn();
  }

  lemma AgePathColumn()
    ensures CamelToSnake(DropFirst("/age")) == "age"
  {
    assert DropFirst("/age") == "age";
  }

  lemma NameStepColumn(actor: LoadedActor, values: ActorForm)
    ensures OnColumn(NameOps(actor, values), "name")
  {
    NamePathColumn();
  }

  lemma GenderStepColumn(actor: LoadedActor, values: ActorForm)
    ensures OnColumn(GenderOps(actor, values), "gender")
  {
    GenderPathColumn();
  }

  lemma PhotoStepColumn(actor: LoadedActor, values: ActorForm)
    ensures OnColumn(OptionalFieldOps("/photoUrl", values.photoUrl, actor.photoUrl), "photo_url")
  {
    PhotoUrlPathColumn();
  }

  lemma AgeStepColumn(actor: LoadedActor, values: ActorForm)
    ensures OnColumn(AgeOps(actor, values), "age")
  {
    AgePathColumn();
  }

  /** Each of the four steps patches its own column. */
  lemma ActorStepColumns(actor: LoadedActor, values: ActorForm)
    ensures OnColumn(NameOps(actor, values), "name")
    ensures OnColumn(GenderOps(actor, values), "gender")
    ensures OnColumn(OptionalFieldOps("/photoUrl", values.photoUrl, actor.photoUrl), "photo_url")
    ensures OnColumn(AgeOps(actor, values), "age")
  {
    NameStepColumn(actor, values);
    GenderStepColumn(actor, values);
    PhotoStepColumn(actor, values);
    AgeStepColumn(actor, values);
  }

  /** The ranked columns are actor columns. */
  lemma RankedActorColumns()
    ensures forall c :: ActorColumnRank(c) >= 0 ==> c in ActorColumns
  {
    forall c | ActorColumnRank(c) >= 0
      ensures c in ActorColumns
    {
      if c == "name" {
        assert ActorColumns[1] == c;
      } else if c == "gender" {
        assert ActorColumns[4] == c;
      } else if c == "photo_url" {
        assert ActorColumns[3] == c;
      } else {
        assert ActorColumns[2] == c;
      }
    }
  }

  /**
   * The list patches the four fields in the page's order, each at most once,
   * and every path names an actor column.
   */
  lemma ActorPatchesShape(actor: LoadedActor, values: ActorForm)
    ensures Ranked(ActorPatches(actor, values), ActorColumnRank)
    ensures DistinctColumns(ActorPatches(actor, values), ActorColumns)
  {
    ActorStepColumns(actor, values);
    RankedParts(NameOps(actor, values), GenderOps(actor, values),
                OptionalFieldOps("/photoUrl", values.photoUrl, actor.photoUrl), AgeOps(actor, values),
                "name", "gender", "photo_url", "age", ActorColumnRank);
    RankedActorColumns();
    RankedDistinct(ActorPatches(actor, values), ActorColumnRank, ActorColumns);
  }

  /** The value the list writes to each actor column: the step for that field decides. */
  lemma ActorPatchReads(actor: LoadedActor, values: ActorForm, column: string)
    ensures WrittenTo(ActorPatches(actor, values), column) ==
      if column == "name" then Sole(NameOps(actor, values))
      else if column == "gender" then Sole(GenderOps(actor, values))
      else if column == "photo_url" then Sole(OptionalFieldOps("/photoUrl", values.photoUrl, actor.photoUrl))
      else if column == "age" then Sole(AgeOps(actor, values))
      else None
  {
    ActorStepColumns(actor, values);
    WrittenToParts(NameOps(actor, values), GenderOps(actor, values),
                   OptionalFieldOps("/photoUrl", values.photoUrl, actor.photoUrl), AgeOps(actor, values),
                   "name", "gender", "photo_url", "age", column);
  }

  /** What the backend reads from the list the page sends: each column the step for it wrote. */
  lemma FormData(a: Actor, values: ActorForm) returns (data: seq<(string, Value)>)
    ensures ConvertPatch(EncodeAll(ActorPatches(Loaded(a), values)), ActorColumns) == Ok(data)
    ensures DistinctKeys(data)
    ensures Get(data, "name") == Sole(NameOps(Loaded(a), values))
    ensures Get(data, "gender") == Sole(GenderOps(Loaded(a), values))
    ensures Get(data, "photo_url") == Sole(OptionalFieldOps("/photoUrl", values.photoUrl, a.photoUrl))
    ensures Get(data, "age") == Sole(AgeOps(Loaded(a), values))
  {
    var actor := Loaded(a);
    var ps := ActorPatches(actor, values);
    ActorPatchesShape(actor, values);
    ReadBack(ps, ActorColumns);
    data := ConvertPatch(EncodeAll(ps), ActorColumns).value;
    ActorPatchReads(actor, values, "name");
    ActorPatchReads(actor, values, "gender");
    ActorPatchReads(actor, values, "photo_url");
    ActorPatchReads(actor, values, "age");
  }

  /**
   * Submitting the form as it was filled sends nothing but an add of "" to
   * a missing gender, and an add of "" to an age of 0.
   */
  lemma PristineFormSends(actor: LoadedActor)
    ensures ActorPatches(actor, InitialForm(actor)) ==
      (if actor.gender.None? then [Add("/gender", Str(""))] else [])
      + (if actor.age == 0 then [Add("/age", Str(""))] else [])
  {
  }

  /** Submitting the form of a stored actor as it was filled changes nothing: 204 with the stored tag. */
  lemma PristineFormUnchanged(rows: map<int, Actor>, id: int, hash: Value -> string)
    requires id in rows && rows[id].age != 0
    ensures var ps := ActorPatches(Loaded(rows[id]), InitialForm(Loaded(rows[id])));
      PatchActor(rows, id, Some(SentContentType), Some(List(EncodeAll(ps))), hash) ==
        (Response(204, Some(hash(FormatActor(id, rows[id]))), None), rows)
  {
    var a := rows[id];
    var values := InitialForm(Loaded(a));
    PristineFormSends(Loaded(a));
    var data := FormData(a, values);
    FieldLoopIsLookup(a, data);
    assert GenderRule(Str("")) == Some(None);
    assert ActorByLookup(a, data) == Some(a);
    NoChangeNoWrite(rows, id, EncodeAll(ActorPatches(Loaded(a), values)), ActorColumns, ApplyActorFields, FormatActor, hash);
  }

  /**
   * The form is one the backend accepts: a changed name is not blank after
   * trimming, the gender is cleared or a member name, and the age is a
   * number, non-zero when changed.
   */
  predicate AcceptableForm(a: Actor, values: ActorForm)
  {
    && AcceptableNameAndGender(a, values)
    && values.age.Number? && (values.age.n != a.age ==> values.age.n != 0)
  }

  predicate AcceptableNameAndGender(a: Actor, values: ActorForm)
  {
    && (values.name != a.name ==> Trim(values.name) != "")
    && (values.gender == "" || GenderByName(values.gender).Some?)
  }

  /**
   * `edited` holds what the form shows for `a`: the name as trimmed and
   * stripped (or the old one when the field was left alone), the selected
   * gender or none, the photo URL up to surrounding whitespace, no photo
   * where the field was emptied, and the age the field holds.
   */
  predicate HoldsForm(a: Actor, values: ActorForm, edited: Actor)
  {
    && edited.name == (if values.name == a.name then a.name else Strip(Trim(values.name)))
    && (values.gender == "" ==> edited.gender == None)
    && (values.gender != "" ==> edited.gender.Some? && GenderName(edited.gender.value) == values.gender)
    && (values.photoUrl == "" ==> edited.photoUrl == None || edited.photoUrl == Some(""))
    && (values.photoUrl != "" ==> edited.photoUrl.Some? && Strip(edited.photoUrl.value) == Strip(values.photoUrl))
    && (values.age.Number? ==> edited.age == values.age.n)
  }

  lemma NameOutcome(a: Actor, values: ActorForm)
    requires values.name != a.name ==> Trim(values.name) != ""
    ensures Pick(Sole(NameOps(Loaded(a), values)), a.name, RequiredText) ==
      Some(if values.name == a.name then a.name else Strip(Trim(values.name)))
  {
  }

  lemma GenderOutcome(a: Actor, values: ActorForm)
    requires values.gender == "" || GenderByName(values.gender).Some?
    ensures var g := Pick(Sole(GenderOps(Loaded(a), values)), a.gender, GenderRule);
      && g.Some?
      && (values.gender == "" ==> g.value == None)
      && (values.gender != "" ==> g.value.Some? && GenderName(g.value.value) == values.gender)
  {
    if a.gender.Some? {
      assert GenderName(a.gender.value) != "";
    }
    if values.gender != "" {
      var g := GenderByName(values.gender).value;
      GenderByNameOnly(g);
    }
  }

  lemma PhotoOutcome(a: Actor, values: ActorForm)
    ensures var p := Pick(Sole(OptionalFieldOps("/photoUrl", values.photoUrl, a.photoUrl)), a.photoUrl, PhotoUrlRule);
      && p.Some?
      && (values.photoUrl == "" ==> p.value == None || p.value == Some(""))
      && (values.photoUrl != "" ==> p.value.Some? && Strip(p.value.value) == Strip(values.photoUrl))
  {
    var e := Sole(OptionalFieldOps("/photoUrl", values.photoUrl, a.photoUrl));
    if e.Some? {
      UrlRulesAgree(e.value);
    }
    assert Pick(e, a.photoUrl, PhotoUrlRule) == Pick(e, a.photoUrl, PosterUrlRule);
    StripIdempotent(values.photoUrl);
  }

  lemma AgeOutcome(a: Actor, values: ActorForm)
    requires values.age.Number? && (values.age.n != a.age ==> values.age.n != 0)
    ensures Pick(Sole(AgeOps(Loaded(a), values)), a.age, AgeRule) == Some(values.age.n)
  {
  }

  /** The field loop accepts the data of an acceptable form and leaves the row holding the form. */
  lemma FormEdit(a: Actor, values: ActorForm) returns (edited: Actor)
    requires AcceptableForm(a, values)
    ensures ConvertPatch(EncodeAll(ActorPatches(Loaded(a), values)), ActorColumns).Ok?
    ensures ApplyActorFields(a, ConvertPatch(EncodeAll(ActorPatches(Loaded(a), values)), ActorColumns).value) == Some(edited)
    ensures HoldsForm(a, values, edited)
  {
    var data := FormData(a, values);
    FieldLoopIsLookup(a, data);
    NameOutcome(a, values);
    GenderOutcome(a, values);
    PhotoOutcome(a, values);
    AgeOutcome(a, values);
    edited := ActorByLookup(a, data).value;
  }

  /**
   * The edit page against the backend: for an acceptable form, the PATCH it
   * sends succeeds, only the edited row changes, and that row then holds
   * what the form shows. The answer is 204 exactly when nothing changed,
   * and its tag is the one a following GET reports.
   */
  lemma EditActorStores(rows: map<int, Actor>, id: int, values: ActorForm, hash: Value -> string)
    requires forall a, b :: hash(FormatActor(id, a)) == hash(FormatActor(id, b)) ==> a == b
    requires id in rows && AcceptableForm(rows[id], values)
    ensures var ps := ActorPatches(Loaded(rows[id]), values);
      var r := PatchActor(rows, id, Some(SentContentType), Some(List(EncodeAll(ps))), hash);
      && r.0.status in {200, 204}
      && id in r.1 && r.1 == rows[id := r.1[id]]
      && HoldsForm(rows[id], values, r.1[id])
      && (r.0.status == 204 <==> r.1[id] == rows[id])
      && r.0.etag == GetActor(r.1, id, hash).etag
  {
    var a := rows[id];
    var body := EncodeAll(ActorPatches(Loaded(a), values));
    var edited := FormEdit(a, values);
    ActorPatchOutcome(rows, id, body, hash, edited);
  }

  /**
   * Any age text in the form is sent as a string, which the age rule
   * refuses: the PATCH answers 400 and the table is left alone, whatever
   * the other fields hold.
   */
  lemma TextAgeRefused(rows: map<int, Actor>, id: int, values: ActorForm, hash: Value -> string)
    requires id in rows && values.age.Text?
    ensures var ps := ActorPatches(Loaded(rows[id]), values);
      PatchActor(rows, id, Some(SentContentType), Some(List(EncodeAll(ps))), hash) == (Abort(400), rows)
  {
    var a := rows[id];
    var data := FormData(a, values);
    FieldLoopIsLookup(a, data);
    assert AgeRule(Str(values.age.s)) == None;
  }

  /**
   * As written: typing an age into the page's text field, valid digits or
   * not, makes the whole edit fail with 400.
   */
  lemma TypedAgeRefused(rows: map<int, Actor>, id: int, values: ActorForm, typed: string, hash: Value -> string)
    requires id in rows
    ensures var ps := ActorPatches(Loaded(rows[id]), values.(age := TextFieldAge(typed)));
      PatchActor(rows, id, Some(SentContentType), Some(List(EncodeAll(ps))), hash) == (Abort(400), rows)
  {
    TextAgeRefused(rows, id, values.(age := TextFieldAge(typed)), hash);
  }

  /**
   * Corrected: with the field declared `type="number"`, a typed age the
   * field reads as a non-zero number (its leading digits) is stored as that
   * number, along with the rest of an acceptable form.
   */
  lemma TypedAgeStored(rows: map<int, Actor>, id: int, values: ActorForm, typed: string, n: int, hash: Value -> string)
    requires forall a, b :: hash(FormatActor(id, a)) == hash(FormatActor(id, b)) ==> a == b
    requires id in rows && AcceptableNameAndGender(rows[id], values)
    requires NumberFieldAge(typed) == Number(n) && n != 0
    ensures var ps := ActorPatches(Loaded(rows[id]), values.(age := NumberFieldAge(typed)));
      var r := PatchActor(rows, id, Some(SentContentType), Some(List(EncodeAll(ps))), hash);
      && r.0.status in {200, 204}
      && r.1 == rows[id := r.1[id]]
      && r.1[id].age == n
  {
    EditActorStores(rows, id, values.(age := Number(n)), hash);
  }

}
