/** The columns each create handler of src/worker/index.ts binds in its
    INSERT, from the validated body: required fields as given, optional ones
    through `|| null`, and the manual and waste-plan defaults. */
module Records {
  import opened Common
  import opened Schemas

  /** `data.k || null` for every key of ks. */
  function OrNullAll(data: Body, ks: set<string>): (cols: Columns)
    ensures cols.Keys == ks
  {
    map k | k in ks :: OrNull(data, k)
  }

  const ClinicOptional: set<string> := {"cnpj", "address", "city", "state", "phone"}

  /** `INSERT INTO clinics (name, cnpj, address, city, state, phone, ...)`. */
  function ClinicColumns(data: Body): Columns
  {
    OrNullAll(data, ClinicOptional)["name" := Raw(data, "name")]
  }

  const EquipmentOptional: set<string> := {
    "category", "manufacturer", "model", "serial_number", "purchase_date",
    "calibration_date", "calibration_due_date", "responsible_technician",
    "notes", "manual_url", "invoice_url", "photo_url"}

  /** `INSERT INTO equipment (clinic_id, name, category, ..., photo_url, ...)`. */
  function EquipmentColumns(data: Body): Columns
  {
    OrNullAll(data, EquipmentOptional)["name" := Raw(data, "name")]
  }

  /** `INSERT INTO manuals (clinic_id, title, type, content, version, status, created_by, ...)`. */
  function ManualColumns(data: Body, user: string): Columns
  {
    map["title" := Raw(data, "title"), "type" := Raw(data, "type"),
        "content" := OrNull(data, "content"),
        "version" := OrDefault(data, "version", "1.0"),
        "status" := OrDefault(data, "status", "draft"),
        "created_by" := Text(user)]
  }

  /** `INSERT INTO routine_tasks (clinic_id, title, description, frequency, responsible, ...)`. */
  function TaskColumns(data: Body): Columns
  {
    map["title" := Raw(data, "title"), "description" := OrNull(data, "description"),
        "frequency" := Raw(data, "frequency"), "responsible" := OrNull(data, "responsible")]
  }

  /** `INSERT INTO routine_checkins (task_id, completed_by, completed_at, notes, photo_url, batch_number, ...)`. */
  function CheckinColumns(data: Body, user: string): Columns
  {
    map["completed_by" := Text(user), "completed_at" := Raw(data, "completed_at"),
        "notes" := OrNull(data, "notes"), "photo_url" := OrNull(data, "photo_url"),
        "batch_number" := OrNull(data, "batch_number")]
  }

  /** `INSERT INTO waste_management_plans (clinic_id, plan_data, floor_plan_url, status, created_by, ...)`. */
  function PlanColumns(data: Body, user: string): Columns
  {
    map["plan_data" := Raw(data, "plan_data"), "floor_plan_url" := OrNull(data, "floor_plan_url"),
        "status" := OrDefault(data, "status", "draft"), "created_by" := Text(user)]
  }

  const DocumentOptional: set<string> := {"document_url", "expiry_date", "partner_id", "notes"}

  /** `INSERT INTO health_documents (clinic_id, document_type, document_url, expiry_date, partner_id, notes, ...)`. */
  function DocumentColumns(data: Body): Columns
  {
    OrNullAll(data, DocumentOptional)["document_type" := Raw(data, "document_type")]
  }

  // ---- what a create stores, in terms of the request body ----

  /** An optional text field as stored: null when absent or empty, the text otherwise. */
  predicate StoredOrNull(cols: Columns, body: Body, k: string)
  {
    k in cols
    && (k !in body || body[k] == JStr("") ==> cols[k] == Null)
    && (k in body && body[k].JStr? && body[k].s != "" ==> cols[k] == Text(body[k].s))
  }

  /** A created clinic stores the non-empty name as given and every empty or
      missing optional field as null. */
  lemma ClinicCreateColumns(body: Body)
    requires Accepts(CreateClinicSchema, body)
    ensures var cols := ClinicColumns(Strip(CreateClinicSchema, body));
      cols.Keys == ClinicOptional + {"name"}
      && "name" in body && body["name"].JStr? && body["name"].s != ""
      && cols["name"] == Text(body["name"].s)
      && forall k :: k in ClinicOptional ==> StoredOrNull(cols, body, k)
  {
    CreateClinicAccepts(body);
    assert Keys(CreateClinicSchema) == ClinicOptional + {"name"} by {
      assert CreateClinicSchema[0].key == "name" && CreateClinicSchema[1].key == "cnpj";
      assert CreateClinicSchema[2].key == "address" && CreateClinicSchema[3].key == "city";
      assert CreateClinicSchema[4].key == "state" && CreateClinicSchema[5].key == "phone";
    }
  }

  /** A created equipment row stores the non-empty name as given and each of
      the twelve optional fields as null when empty or missing. */
  lemma EquipmentCreateColumns(body: Body)
    requires Accepts(CreateEquipmentSchema, body)
    ensures var cols := EquipmentColumns(Strip(CreateEquipmentSchema, body));
      cols.Keys == EquipmentOptional + {"name"}
      && "name" in body && body["name"].JStr? && body["name"].s != ""
      && cols["name"] == Text(body["name"].s)
      && forall k :: k in EquipmentOptional ==> StoredOrNull(cols, body, k)
  {
    CreateEquipmentAccepts(body);
    var s := CreateEquipmentSchema;
    assert s[0].key == "name";
    forall k | k in EquipmentOptional ensures k in Keys(s) {
      assert s[1].key == "category" && s[2].key == "manufacturer" && s[3].key == "model";
      assert s[4].key == "serial_number" && s[5].key == "purchase_date" && s[6].key == "calibration_date";
      assert s[7].key == "calibration_due_date" && s[8].key == "responsible_technician" && s[9].key == "notes";
      assert s[10].key == "manual_url" && s[11].key == "invoice_url" && s[12].key == "photo_url";
    }
  }

  /** A created manual gets version "1.0" and status "draft" unless the body
      supplies non-empty ones, and records the caller as its author. */
  lemma ManualCreateDefaults(body: Body, user: string)
    requires Accepts(CreateManualSchema, body)
    ensures var cols := ManualColumns(Strip(CreateManualSchema, body), user);
      cols["created_by"] == Text(user)
      && (if "version" in body && body["version"].JStr? && body["version"].s != ""
          then cols["version"] == Text(body["version"].s) else cols["version"] == Text("1.0"))
      && (if "status" in body && body["status"].JStr? && body["status"].s != ""
          then cols["status"] == Text(body["status"].s) else cols["status"] == Text("draft"))
      && "title" in body && body["title"].JStr? && cols["title"] == Text(body["title"].s)
      && "type" in body && body["type"].JStr? && cols["type"] == Text(body["type"].s)
  {
    CreateManualAccepts(body);
    var s := CreateManualSchema;
    assert s[0].key == "title" && s[1].key == "type" && s[3].key == "version" && s[4].key == "status";
  }

  /** A created routine task stores title and frequency as given (both
      non-empty) and description and responsible as null when empty or missing. */
  lemma TaskCreateColumns(body: Body)
    requires Accepts(CreateRoutineTaskSchema, body)
    ensures var cols := TaskColumns(Strip(CreateRoutineTaskSchema, body));
      "title" in body && body["title"].JStr? && body["title"].s != "" && cols["title"] == Text(body["title"].s)
      && "frequency" in body && body["frequency"].JStr? && body["frequency"].s != ""
      && cols["frequency"] == Text(body["frequency"].s)
      && StoredOrNull(cols, body, "description") && StoredOrNull(cols, body, "responsible")
  {
    CreateRoutineTaskAccepts(body);
    var s := CreateRoutineTaskSchema;
    assert s[0].key == "title" && s[1].key == "description" && s[2].key == "frequency" && s[3].key == "responsible";
  }

  /** A check-in records the caller as `completed_by` and `completed_at` exactly
      as sent, even when it is empty. */
  lemma CheckinCreateColumns(body: Body, user: string)
    requires Accepts(CreateRoutineCheckinSchema, body)
    ensures var cols := CheckinColumns(Strip(CreateRoutineCheckinSchema, body), user);
      cols["completed_by"] == Text(user)
      && "completed_at" in body && body["completed_at"].JStr?
      && cols["completed_at"] == Text(body["completed_at"].s)
      && StoredOrNull(cols, body, "notes") && StoredOrNull(cols, body, "photo_url")
      && StoredOrNull(cols, body, "batch_number")
  {
    CreateCheckinAccepts(body);
    var s := CreateRoutineCheckinSchema;
    assert s[0].key == "completed_at" && s[1].key == "notes" && s[2].key == "photo_url" && s[3].key == "batch_number";
  }

  /** A created waste plan stores `plan_data` as sent, status "draft" unless a
      non-empty one is sent, and the caller as its author. */
  lemma PlanCreateColumns(body: Body, user: string)
    requires Accepts(CreateWasteManagementPlanSchema, body)
    ensures var cols := PlanColumns(Strip(CreateWasteManagementPlanSchema, body), user);
      cols["created_by"] == Text(user)
      && "plan_data" in body && body["plan_data"].JStr? && cols["plan_data"] == Text(body["plan_data"].s)
      && (if "status" in body && body["status"].JStr? && body["status"].s != ""
          then cols["status"] == Text(body["status"].s) else cols["status"] == Text("draft"))
      && StoredOrNull(cols, body, "floor_plan_url")
  {
    CreateWastePlanAccepts(body);
    var s := CreateWasteManagementPlanSchema;
    assert s[0].key == "plan_data" && s[1].key == "floor_plan_url" && s[2].key == "status";
  }

  /** A created health document stores `partner_id` as null when it is missing
      or 0 and as the number otherwise; the text fields as for every create. */
  lemma DocumentCreateColumns(body: Body)
    requires Accepts(CreateHealthDocumentSchema, body)
    ensures var cols := DocumentColumns(Strip(CreateHealthDocumentSchema, body));
      "document_type" in body && body["document_type"].JStr? && body["document_type"].s != ""
      && cols["document_type"] == Text(body["document_type"].s)
      && (if "partner_id" in body && body["partner_id"] != JNum(0)
          then body["partner_id"].JNum? && cols["partner_id"] == Num(body["partner_id"].n)
          else cols["partner_id"] == Null)
      && StoredOrNull(cols, body, "document_url") && StoredOrNull(cols, body, "expiry_date")
      && StoredOrNull(cols, body, "notes")
  {
    CreateHealthDocumentAccepts(body);
    var s := CreateHealthDocumentSchema;
    assert s[0].key == "document_type" && s[1].key == "document_url" && s[2].key == "expiry_date";
    assert s[3].key == "partner_id" && s[4].key == "notes";
  }
}
