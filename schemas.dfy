/** The request-body validators of src/shared/types.ts. A zod object schema is
    a list of fields, each with its check and whether it is required; `parse`
    accepts a body whose present fields pass their checks and whose required
    fields are present, and returns the body with unknown keys dropped.
    `.partial()` makes every field optional and keeps every check. */
module Schemas {
  import opened Common

  /** `z.string().min(n)` (`z.string()` is `Str(0)`) or `z.number()`. */
  datatype Check = Str(min: nat) | Number

  datatype Field = Field(key: string, check: Check, required: bool)

  type Schema = seq<Field>

  type Body = map<string, Json>

  predicate Passes(j: Json, c: Check)
  {
    match c
    case Str(m) => j.JStr? && |j.s| >= m
    case Number => j.JNum?
  }

  /** The field of s at index i is satisfied by body. */
  predicate FieldOk(s: Schema, i: nat, body: Body)
    requires i < |s|
  {
    (s[i].key in body ==> Passes(body[s[i].key], s[i].check))
    && (s[i].required ==> s[i].key in body)
  }

  predicate Accepts(s: Schema, body: Body)
  {
    forall i :: 0 <= i < |s| ==> FieldOk(s, i, body)
  }

  function Keys(s: Schema): (ks: set<string>)
    ensures forall i :: 0 <= i < |s| ==> s[i].key in ks
    ensures forall k :: k in ks ==> exists i :: 0 <= i < |s| && s[i].key == k
  {
    set i | 0 <= i < |s| :: s[i].key
  }

  /** The schema's keys in declaration order (the order `Object.entries` yields them). */
  function KeyOrder(s: Schema): (ks: seq<string>)
    ensures |ks| == |s|
    ensures forall i :: 0 <= i < |s| ==> ks[i] == s[i].key
  {
    seq(|s|, i requires 0 <= i < |s| => s[i].key)
  }

  /** `.partial()`. */
  function Partial(s: Schema): (p: Schema)
    ensures |p| == |s|
    ensures forall i :: 0 <= i < |s| ==> p[i] == s[i].(required := false)
  {
    seq(|s|, i requires 0 <= i < |s| => s[i].(required := false))
  }

  /** Unknown keys are dropped. */
  function Strip(s: Schema, body: Body): (d: Body)
    ensures d.Keys == body.Keys * Keys(s)
    ensures forall k :: k in d ==> d[k] == body[k]
  {
    map k | k in body && k in Keys(s) :: body[k]
  }

  /** `schema.parse(body)`: the validated data, or None when parse throws. */
  function Parse(s: Schema, body: Body): (r: Option<Body>)
    ensures r.Some? <==> Accepts(s, body)
    ensures r.Some? ==> r.value == Strip(s, body)
  {
    if Accepts(s, body) then Some(Strip(s, body)) else None
  }

  function Optional(k: string): Field { Field(k, Str(0), false) }

  const CreateClinicSchema: Schema := [
    Field("name", Str(1), true), Optional("cnpj"), Optional("address"),
    Optional("city"), Optional("state"), Optional("phone")]

  const UpdateClinicSchema: Schema := Partial(CreateClinicSchema)

  const CreateEquipmentSchema: Schema := [
    Field("name", Str(1), true), Optional("category"), Optional("manufacturer"),
    Optional("model"), Optional("serial_number"), Optional("purchase_date"),
    Optional("calibration_date"), Optional("calibration_due_date"),
    Optional("responsible_technician"), Optional("notes"), Optional("manual_url"),
    Optional("invoice_url"), Optional("photo_url")]

  const UpdateEquipmentSchema: Schema := Partial(CreateEquipmentSchema)

  const CreateManualSchema: Schema := [
    Field("title", Str(1), true), Field("type", Str(1), true),
    Optional("content"), Optional("version"), Optional("status")]

  const UpdateManualSchema: Schema := Partial(CreateManualSchema)

  const CreateRoutineTaskSchema: Schema := [
    Field("title", Str(1), true), Optional("description"),
    Field("frequency", Str(1), true), Optional("responsible")]

  const UpdateRoutineTaskSchema: Schema := Partial(CreateRoutineTaskSchema)

  const CreateRoutineCheckinSchema: Schema := [
    Field("completed_at", Str(0), true), Optional("notes"),
    Optional("photo_url"), Optional("batch_number")]

  const CreateWasteManagementPlanSchema: Schema := [
    Field("plan_data", Str(0), true), Optional("floor_plan_url"), Optional("status")]

  const UpdateWasteManagementPlanSchema: Schema := Partial(CreateWasteManagementPlanSchema)

  const CreateHealthDocumentSchema: Schema := [
    Field("document_type", Str(1), true), Optional("document_url"),
    Optional("expiry_date"), Field("partner_id", Number, false), Optional("notes")]

  const UpdateHealthDocumentSchema: Schema := Partial(CreateHealthDocumentSchema)

  /** An optional string field: absent, or a string. */
  predicate OptionalText(body: Body, k: string)
  {
    k in body ==> body[k].JStr?
  }

  /** A required string field of at least n characters. */
  predicate RequiredText(body: Body, k: string, n: nat)
  {
    k in body && body[k].JStr? && |body[k].s| >= n
  }

  // ---- properties of every partial schema ----

  /** Every update schema accepts the empty object. */
  lemma PartialAcceptsEmpty(s: Schema)
    ensures Accepts(Partial(s), map[])
  {
    var p := Partial(s);
    forall i | 0 <= i < |p| ensures FieldOk(p, i, map[]) {
      assert !p[i].required;
    }
  }

  /** Every update schema accepts what its create schema accepts. */
  lemma PartialWeakens(s: Schema, body: Body)
    requires Accepts(s, body)
    ensures Accepts(Partial(s), body)
  {
    var p := Partial(s);
    forall i | 0 <= i < |p| ensures FieldOk(p, i, body) {
      assert FieldOk(s, i, body);
    }
  }

  /** A field present in an update body keeps its create-time check. */
  lemma PartialKeepsChecks(s: Schema, body: Body, i: nat)
    requires i < |s| && Accepts(Partial(s), body) && s[i].key in body
    ensures Passes(body[s[i].key], s[i].check)
  {
    assert FieldOk(Partial(s), i, body);
  }

  /** An update body is accepted exactly when every present field passes its check. */
  lemma PartialAcceptsIff(s: Schema, body: Body)
    ensures Accepts(Partial(s), body) <==>
      forall i :: 0 <= i < |s| && s[i].key in body ==> Passes(body[s[i].key], s[i].check)
  {
    var p := Partial(s);
    if forall i :: 0 <= i < |s| && s[i].key in body ==> Passes(body[s[i].key], s[i].check) {
      forall i | 0 <= i < |p| ensures FieldOk(p, i, body) {
        assert p[i].key == s[i].key;
      }
    }
    if Accepts(p, body) {
      forall i | 0 <= i < |s| && s[i].key in body ensures Passes(body[s[i].key], s[i].check) {
        assert FieldOk(p, i, body);
      }
    }
  }

  /** Parsing is idempotent: the validated data passes the schema again and
      comes back unchanged. */
  lemma ParseIdempotent(s: Schema, body: Body)
    requires Accepts(s, body)
    ensures Parse(s, Parse(s, body).value) == Parse(s, body)
  {
    var data := Strip(s, body);
    forall i | 0 <= i < |s| ensures FieldOk(s, i, data) {
      assert FieldOk(s, i, body);
      assert s[i].key in Keys(s);
    }
    assert Strip(s, data) == data;
  }

  // ---- the concrete schemas ----

  /** Clinic creation: `name` a string of length at least 1, every other field an optional string. */
  lemma CreateClinicAccepts(body: Body)
    ensures Accepts(CreateClinicSchema, body) <==>
      RequiredText(body, "name", 1) && OptionalText(body, "cnpj") && OptionalText(body, "address")
      && OptionalText(body, "city") && OptionalText(body, "state") && OptionalText(body, "phone")
  {
    var s := CreateClinicSchema;
    if Accepts(s, body) {
      assert FieldOk(s, 0, body) && FieldOk(s, 1, body) && FieldOk(s, 2, body);
      assert FieldOk(s, 3, body) && FieldOk(s, 4, body) && FieldOk(s, 5, body);
    }
  }

  /** Equipment creation: a non-empty `name`; the twelve other fields optional strings. */
  lemma CreateEquipmentAccepts(body: Body)
    ensures Accepts(CreateEquipmentSchema, body) <==>
      RequiredText(body, "name", 1)
      && forall k :: k in Keys(CreateEquipmentSchema) && k != "name" ==> OptionalText(body, k)
  {
    var s := CreateEquipmentSchema;
    if Accepts(s, body) {
      assert FieldOk(s, 0, body);
      forall k | k in Keys(s) && k != "name" ensures OptionalText(body, k) {
        var i :| 0 <= i < |s| && s[i].key == k;
        assert FieldOk(s, i, body);
      }
    } else if RequiredText(body, "name", 1)
      && forall k :: k in Keys(CreateEquipmentSchema) && k != "name" ==> OptionalText(body, k)
    {
      forall i | 0 <= i < |s| ensures FieldOk(s, i, body) {
        if i > 0 {
          assert s[i].key in Keys(s) && s[i].key != "name" && s[i].check == Str(0);
        }
      }
      assert false;
    }
  }

  /** Manual creation: non-empty `title` and `type`. */
  lemma CreateManualAccepts(body: Body)
    ensures Accepts(CreateManualSchema, body) <==>
      RequiredText(body, "title", 1) && RequiredText(body, "type", 1)
      && OptionalText(body, "content") && OptionalText(body, "version") && OptionalText(body, "status")
  {
    var s := CreateManualSchema;
    if Accepts(s, body) {
      assert FieldOk(s, 0, body) && FieldOk(s, 1, body) && FieldOk(s, 2, body);
      assert FieldOk(s, 3, body) && FieldOk(s, 4, body);
    }
  }

  /** Routine-task creation: non-empty `title` and `frequency`. */
  lemma CreateRoutineTaskAccepts(body: Body)
    ensures Accepts(CreateRoutineTaskSchema, body) <==>
      RequiredText(body, "title", 1) && RequiredText(body, "frequency", 1)
      && OptionalText(body, "description") && OptionalText(body, "responsible")
  {
    var s := CreateRoutineTaskSchema;
    if Accepts(s, body) {
      assert FieldOk(s, 0, body) && FieldOk(s, 1, body) && FieldOk(s, 2, body) && FieldOk(s, 3, body);
    }
  }

  /** A check-in needs a `completed_at` string, which may be empty. */
  lemma CreateCheckinAccepts(body: Body)
    ensures Accepts(CreateRoutineCheckinSchema, body) <==>
      RequiredText(body, "completed_at", 0) && OptionalText(body, "notes")
      && OptionalText(body, "photo_url") && OptionalText(body, "batch_number")
    ensures Accepts(CreateRoutineCheckinSchema, map["completed_at" := JStr("")])
  {
    var s := CreateRoutineCheckinSchema;
    if Accepts(s, body) {
      assert FieldOk(s, 0, body) && FieldOk(s, 1, body) && FieldOk(s, 2, body) && FieldOk(s, 3, body);
    }
  }

  /** A health document needs a non-empty `document_type`; `partner_id`, if present, is a number. */
  lemma CreateHealthDocumentAccepts(body: Body)
    ensures Accepts(CreateHealthDocumentSchema, body) <==>
      RequiredText(body, "document_type", 1) && OptionalText(body, "document_url")
      && OptionalText(body, "expiry_date") && OptionalText(body, "notes")
      && ("partner_id" in body ==> body["partner_id"].JNum?)
  {
    var s := CreateHealthDocumentSchema;
    if Accepts(s, body) {
      assert FieldOk(s, 0, body) && FieldOk(s, 1, body) && FieldOk(s, 2, body);
      assert FieldOk(s, 3, body) && FieldOk(s, 4, body);
    }
  }

  /** A waste plan needs a `plan_data` string. */
  lemma CreateWastePlanAccepts(body: Body)
    ensures Accepts(CreateWasteManagementPlanSchema, body) <==>
      RequiredText(body, "plan_data", 0) && OptionalText(body, "floor_plan_url") && OptionalText(body, "status")
  {
    var s := CreateWasteManagementPlanSchema;
    if Accepts(s, body) {
      assert FieldOk(s, 0, body) && FieldOk(s, 1, body) && FieldOk(s, 2, body);
    }
  }

  /** `name: ""` is still rejected on update. */
  lemma UpdateRejectsEmptyName()
    ensures !Accepts(UpdateEquipmentSchema, map["name" := JStr("")])
    ensures !Accepts(UpdateClinicSchema, map["name" := JStr("")])
  {
    assert !FieldOk(UpdateEquipmentSchema, 0, map["name" := JStr("")]);
    assert !FieldOk(UpdateClinicSchema, 0, map["name" := JStr("")]);
  }
}
