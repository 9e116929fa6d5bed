/** The route handlers of src/worker/index.ts as methods of one object that
    owns the tables. The caller is the user the authentication middleware
    resolved; a path id that names a row the caller does not own through its
    clinic gives the same NotFound as an id that names no row, and such a
    request writes nothing. */
module Api {
  import opened Common
  import opened Ordering
  import opened Schemas
  import opened Tables
  import opened Records
  import opened Patch

  /** Everything the handlers read and write. */
  datatype Store = Store(
    clinics: seq<Clinic>, equipment: seq<Row>, manuals: seq<Row>, tasks: seq<Row>,
    checkins: seq<Row>, plans: seq<Row>, partners: seq<Partner>, documents: seq<Row>,
    nextId: nat, clock: nat)

  /** Ids are fresh and increasing and timestamps increase along every table. */
  ghost predicate StoreOk(s: Store)
  {
    ClinicsOk(s.clinics, s.nextId, s.clock)
    && RowsOk(s.equipment, s.nextId, s.clock) && RowsOk(s.manuals, s.nextId, s.clock)
    && RowsOk(s.tasks, s.nextId, s.clock) && RowsOk(s.checkins, s.nextId, s.clock)
    && RowsOk(s.plans, s.nextId, s.clock) && RowsOk(s.documents, s.nextId, s.clock)
  }

  /** A write that advances the id counter and the clock and replaces tables
      only by tables that keep the invariant at the new counter and clock. */
  lemma StoreOkLater(s: Store, s': Store)
    requires StoreOk(s) && s.nextId <= s'.nextId && s.clock <= s'.clock
    requires s'.clinics == s.clinics || ClinicsOk(s'.clinics, s'.nextId, s'.clock)
    requires s'.equipment == s.equipment || RowsOk(s'.equipment, s'.nextId, s'.clock)
    requires s'.manuals == s.manuals || RowsOk(s'.manuals, s'.nextId, s'.clock)
    requires s'.tasks == s.tasks || RowsOk(s'.tasks, s'.nextId, s'.clock)
    requires s'.checkins == s.checkins || RowsOk(s'.checkins, s'.nextId, s'.clock)
    requires s'.plans == s.plans || RowsOk(s'.plans, s'.nextId, s'.clock)
    requires s'.documents == s.documents || RowsOk(s'.documents, s'.nextId, s'.clock)
    ensures StoreOk(s')
  {
    ClinicsOkGrow(s.clinics, s.nextId, s.clock, s'.nextId, s'.clock);
    RowsOkGrow(s.equipment, s.nextId, s.clock, s'.nextId, s'.clock);
    RowsOkGrow(s.manuals, s.nextId, s.clock, s'.nextId, s'.clock);
    RowsOkGrow(s.tasks, s.nextId, s.clock, s'.nextId, s'.clock);
    RowsOkGrow(s.checkins, s.nextId, s.clock, s'.nextId, s'.clock);
    RowsOkGrow(s.plans, s.nextId, s.clock, s'.nextId, s'.clock);
    RowsOkGrow(s.documents, s.nextId, s.clock, s'.nextId, s'.clock);
  }

  /** Columns the response schemas declare non-null and a PUT can reach. */
  const EquipmentNotNull: set<string> := {"name"}
  const ManualNotNull: set<string> := {"title", "type", "status"}
  const PlanNotNull: set<string> := {"plan_data", "status"}

  /** A row as INSERT stores it: `is_active` defaults to 1 and both timestamps
      to the current time. */
  function NewRow(id: nat, parent: nat, cols: Columns, now: nat): Row
  {
    Row(id, parent, cols, true, now, now)
  }

  /** An inserted row keeps the table's invariant and is the row selected by
      its new id. */
  lemma InsertFresh(rows: seq<Row>, row: Row, nextId: nat, clock: nat)
    requires RowsOk(rows, nextId, clock) && row.id == nextId && row.createdAt == clock
    ensures RowsOk(rows + [row], nextId + 1, clock + 1)
    ensures RowById(rows + [row], nextId) == Some(row)
  {
    RowsOkAppend(rows, row, nextId, clock);
    var all := rows + [row];
    forall i | 0 <= i < |rows| ensures all[i].id != nextId {
      assert all[i] in rows;
    }
    RowByIdAt(all, nextId, |rows|);
  }

  lemma InsertFreshClinic(cs: seq<Clinic>, c: Clinic, nextId: nat, clock: nat)
    requires ClinicsOk(cs, nextId, clock) && c.id == nextId && c.createdAt == clock
    ensures ClinicsOk(cs + [c], nextId + 1, clock + 1)
    ensures ClinicById(cs + [c], nextId) == Some(c)
  {
    ClinicsOkAppend(cs, c, nextId, clock);
    var all := cs + [c];
    forall i | 0 <= i < |cs| ensures all[i].id != nextId {
      assert all[i] in cs;
    }
    ClinicByIdFirst(all, nextId, |cs|);
  }

  class Worker {
    var clinics: seq<Clinic>
    var equipment: seq<Row>
    var manuals: seq<Row>
    var tasks: seq<Row>
    var checkins: seq<Row>
    var plans: seq<Row>
    var partners: seq<Partner>
    var documents: seq<Row>
    /** The next id INSERT hands out. */
    var nextId: nat
    /** CURRENT_TIMESTAMP: advances with every write. */
    var clock: nat

    ghost function State(): Store
      reads this
    {
      Store(clinics, equipment, manuals, tasks, checkins, plans, partners, documents, nextId, clock)
    }

    ghost predicate Valid()
      reads this
    {
      StoreOk(State())
    }

    /** Empty tables, with the partner catalogue, which no handler writes. */
    constructor (catalogue: seq<Partner>)
      ensures Valid()
      ensures State() == Store([], [], [], [], [], [], catalogue, [], 0, 0)
    {
      clinics, equipment, manuals, tasks := [], [], [], [];
      checkins, plans, partners, documents := [], [], catalogue, [];
      nextId, clock := 0, 0;
    }

    // ---- INSERT statements ----

    /** `INSERT INTO equipment` of a row carrying the next id and the current
        time: the row is appended, the counter and the clock advance. */
    method InsertEquipment(row: Row)
      requires Valid() && row.id == nextId && row.createdAt == clock
      modifies this
      ensures Valid()
      ensures State() == old(State()).(equipment := old(equipment) + [row], nextId := old(nextId) + 1, clock := old(clock) + 1)
      ensures RowById(equipment, row.id) == Some(row)
    {
      ghost var before := State();
      InsertFresh(equipment, row, nextId, clock);
      equipment := equipment + [row];
      nextId, clock := nextId + 1, clock + 1;
      StoreOkLater(before, State());
    }

    /** `INSERT INTO manuals` of a row carrying the next id and the current
        time: the row is appended, the counter and the clock advance. */
    method InsertManual(row: Row)
      requires Valid() && row.id == nextId && row.createdAt == clock
      modifies this
      ensures Valid()
      ensures State() == old(State()).(manuals := old(manuals) + [row], nextId := old(nextId) + 1, clock := old(clock) + 1)
      ensures RowById(manuals, row.id) == Some(row)
    {
      ghost var before := State();
      InsertFresh(manuals, row, nextId, clock);
      manuals := manuals + [row];
      nextId, clock := nextId + 1, clock + 1;
      StoreOkLater(before, State());
    }

    /** `INSERT INTO routine_tasks` of a row carrying the next id and the current
        time: the row is appended, the counter and the clock advance. */
    method InsertTask(row: Row)
      requires Valid() && row.id == nextId && row.createdAt == clock
      modifies this
      ensures Valid()
      ensures State() == old(State()).(tasks := old(tasks) + [row], nextId := old(nextId) + 1, clock := old(clock) + 1)
      ensures RowById(tasks, row.id) == Some(row)
    {
      ghost var before := State();
      InsertFresh(tasks, row, nextId, clock);
      tasks := tasks + [row];
      nextId, clock := nextId + 1, clock + 1;
      StoreOkLater(before, State());
    }

    /** `INSERT INTO routine_checkins` of a row carrying the next id and the current
        time: the row is appended, the counter and the clock advance. */
    method InsertCheckin(row: Row)
      requires Valid() && row.id == nextId && row.createdAt == clock
      modifies this
      ensures Valid()
      ensures State() == old(State()).(checkins := old(checkins) + [row], nextId := old(nextId) + 1, clock := old(clock) + 1)
      ensures RowById(checkins, row.id) == Some(row)
    {
      ghost var before := State();
      InsertFresh(checkins, row, nextId, clock);
      checkins := checkins + [row];
      nextId, clock := nextId + 1, clock + 1;
      StoreOkLater(before, State());
    }

    /** `INSERT INTO waste_management_plans` of a row carrying the next id and the current
        time: the row is appended, the counter and the clock advance. */
    method InsertPlan(row: Row)
      requires Valid() && row.id == nextId && row.createdAt == clock
      modifies this
      ensures Valid()
      ensures State() == old(State()).(plans := old(plans) + [row], nextId := old(nextId) + 1, clock := old(clock) + 1)
      ensures RowById(plans, row.id) == Some(row)
    {
      ghost var before := State();
      InsertFresh(plans, row, nextId, clock);
      plans := plans + [row];
      nextId, clock := nextId + 1, clock + 1;
      StoreOkLater(before, State());
    }

    /** `INSERT INTO health_documents` of a row carrying the next id and the current
        time: the row is appended, the counter and the clock advance. */
    method InsertDocument(row: Row)
      requires Valid() && row.id == nextId && row.createdAt == clock
      modifies this
      ensures Valid()
      ensures State() == old(State()).(documents := old(documents) + [row], nextId := old(nextId) + 1, clock := old(clock) + 1)
      ensures RowById(documents, row.id) == Some(row)
    {
      ghost var before := State();
      InsertFresh(documents, row, nextId, clock);
      documents := documents + [row];
      nextId, clock := nextId + 1, clock + 1;
      StoreOkLater(before, State());
    }

    // ---- clinics ----

    /** GET /api/clinics. */
    method ListClinics(user: UserId) returns (resp: Response<Clinic>)
      requires Valid()
      ensures resp.Rows?
      ensures forall c :: c in resp.items <==> c in clinics && c.owner == user
      ensures Decreasing(resp.items, ClinicCreated)
      ensures multiset(resp.items) == multiset(Filter(clinics, OwnerIs(user)))
    {
      ClinicsOfSpec(clinics, user);
      resp := Rows(ClinicsOf(clinics, user));
    }

    /** POST /api/clinics. */
    method CreateClinic(user: UserId, body: Body) returns (resp: Response<Clinic>)
      requires Valid()
      modifies this
      ensures Valid()
      ensures !Accepts(CreateClinicSchema, body) ==> resp == Invalid && State() == old(State())
      ensures Accepts(CreateClinicSchema, body) ==>
        var c := Clinic(old(nextId), user, ClinicColumns(Strip(CreateClinicSchema, body)), old(clock), old(clock));
        resp == Created(c)
        && State() == old(State()).(clinics := old(clinics) + [c], nextId := old(nextId) + 1, clock := old(clock) + 1)
    {
      ghost var before := State();
      var parsed := Parse(CreateClinicSchema, body);
      if parsed.None? {
        return Invalid;
      }
      var c := Clinic(nextId, user, ClinicColumns(parsed.value), clock, clock);
      InsertFreshClinic(clinics, c, nextId, clock);
      clinics := clinics + [c];
      nextId, clock := nextId + 1, clock + 1;
      resp := match ClinicById(clinics, c.id) case Some(found) => Created(found) case None => ServerError;
      StoreOkLater(before, State());
    }

    /** GET /api/clinics/:id. */
    method GetClinic(user: UserId, id: nat) returns (resp: Response<Clinic>)
      ensures resp.Ok? || resp.NotFound?
      ensures resp.NotFound? <==> forall c :: c in clinics ==> !(c.id == id && c.owner == user)
      ensures resp.Ok? ==> resp.value in clinics && resp.value.id == id && resp.value.owner == user
    {
      var found := OwnedClinic(clinics, user, id);
      if found.None? {
        return NotFound;
      }
      resp := Ok(found.value);
    }

    /** PUT /api/clinics/:id. */
    method PutClinic(user: UserId, id: nat, body: Body) returns (resp: Response<Clinic>)
      requires Valid()
      modifies this
      ensures Valid()
      ensures var o := UpdateClinic(old(clinics), user, id, body, old(clock));
        resp == o.resp && State() == old(State()).(clinics := o.clinics, clock := o.clock)
    {
      ghost var before := State();
      UpdateClinicKeepsOk(clinics, user, id, body, nextId, clock);
      var o := PatchClinics(clinics, user, id, body, clock);
      clinics, clock := o.clinics, o.clock;
      resp := o.resp;
      StoreOkLater(before, State());
    }

    // ---- equipment ----

    /** GET /api/clinics/:clinicId/equipment: active equipment only. */
    method ListEquipment(user: UserId, clinicId: nat) returns (resp: Response<Row>)
      requires Valid()
      ensures resp.Rows? || resp.NotFound?
      ensures resp.NotFound? <==> !Owns(clinics, user, clinicId)
      ensures resp.Rows? ==>
        (forall x :: x in resp.items <==> x in equipment && x.parent == clinicId && x.isActive)
        && Decreasing(resp.items, RowCreated)
        && multiset(resp.items) == multiset(Filter(equipment, ChildOf(clinicId, true)))
    {
      if !Owns(clinics, user, clinicId) {
        return NotFound;
      }
      ChildrenOfSpec(equipment, clinicId, true);
      resp := Rows(ChildrenOf(equipment, clinicId, true));
    }

    /** POST /api/clinics/:clinicId/equipment. */
    method CreateEquipment(user: UserId, clinicId: nat, body: Body) returns (resp: Response<Row>)
      requires Valid()
      modifies this
      ensures Valid()
      ensures !Owns(old(clinics), user, clinicId) ==> resp == NotFound && State() == old(State())
      ensures Owns(old(clinics), user, clinicId) && !Accepts(CreateEquipmentSchema, body) ==>
        resp == Invalid && State() == old(State())
      ensures Owns(old(clinics), user, clinicId) && Accepts(CreateEquipmentSchema, body) ==>
        var row := NewRow(old(nextId), clinicId, EquipmentColumns(Strip(CreateEquipmentSchema, body)), old(clock));
        resp == Created(row)
        && State() == old(State()).(equipment := old(equipment) + [row], nextId := old(nextId) + 1, clock := old(clock) + 1)
    {
      if !Owns(clinics, user, clinicId) {
        return NotFound;
      }
      var parsed := Parse(CreateEquipmentSchema, body);
      if parsed.None? {
        return Invalid;
      }
      var row := NewRow(nextId, clinicId, EquipmentColumns(parsed.value), clock);
      InsertEquipment(row);
      resp := match RowById(equipment, row.id) case Some(found) => Created(found) case None => ServerError;
    }

    /** GET /api/equipment/:id: inactive equipment is still found. */
    method GetEquipment(user: UserId, id: nat) returns (resp: Response<Row>)
      ensures resp.Ok? || resp.NotFound?
      ensures resp.NotFound? <==> forall x :: x in equipment ==> !(x.id == id && Owns(clinics, user, x.parent))
      ensures resp.Ok? ==> resp.value in equipment && resp.value.id == id && Owns(clinics, user, resp.value.parent)
    {
      var found := OwnedRow(equipment, clinics, user, id);
      if found.None? {
        return NotFound;
      }
      resp := Ok(found.value);
    }

    /** PUT /api/equipment/:id. */
    method PutEquipment(user: UserId, id: nat, body: Body) returns (resp: Response<Row>)
      requires Valid()
      modifies this
      ensures Valid()
      ensures var o := UpdateRow(old(equipment), old(clinics), user, id, UpdateEquipmentSchema, EquipmentNotNull, body, old(clock));
        resp == o.resp && State() == old(State()).(equipment := o.rows, clock := o.clock)
    {
      ghost var before := State();
      UpdateRowKeepsOk(equipment, clinics, user, id, UpdateEquipmentSchema, EquipmentNotNull, body, nextId, clock);
      var o := PatchTable(equipment, clinics, user, id, UpdateEquipmentSchema, EquipmentNotNull, body, clock);
      equipment, clock := o.rows, o.clock;
      resp := o.resp;
      StoreOkLater(before, State());
    }

    /** DELETE /api/equipment/:id: a soft delete. */
    method DeleteEquipment(user: UserId, id: nat) returns (resp: Response<Row>)
      requires Valid()
      modifies this
      ensures Valid()
      ensures OwnedRow(old(equipment), old(clinics), user, id).None? ==> resp == NotFound && State() == old(State())
      ensures OwnedRow(old(equipment), old(clinics), user, id).Some? ==>
        resp == Success && State() == old(State()).(equipment := DeactivateWhere(old(equipment), id))
    {
      ghost var before := State();
      if OwnedRow(equipment, clinics, user, id).None? {
        return NotFound;
      }
      var after := DeactivateWhere(equipment, id);
      assert SameRowKeys(equipment, after);
      SameRowKeysOk(equipment, after, nextId, clock);
      equipment := after;
      resp := Success;
      StoreOkLater(before, State());
    }

    // ---- manuals ----

    /** GET /api/clinics/:clinicId/manuals. */
    method ListManuals(user: UserId, clinicId: nat) returns (resp: Response<Row>)
      requires Valid()
      ensures resp.Rows? || resp.NotFound?
      ensures resp.NotFound? <==> !Owns(clinics, user, clinicId)
      ensures resp.Rows? ==>
        (forall x :: x in resp.items <==> x in manuals && x.parent == clinicId)
        && Decreasing(resp.items, RowCreated)
        && multiset(resp.items) == multiset(Filter(manuals, ChildOf(clinicId, false)))
    {
      if !Owns(clinics, user, clinicId) {
        return NotFound;
      }
      ChildrenOfSpec(manuals, clinicId, false);
      resp := Rows(ChildrenOf(manuals, clinicId, false));
    }

    /** POST /api/clinics/:clinicId/manuals. */
    method CreateManual(user: UserId, clinicId: nat, body: Body) returns (resp: Response<Row>)
      requires Valid()
      modifies this
      ensures Valid()
      ensures !Owns(old(clinics), user, clinicId) ==> resp == NotFound && State() == old(State())
      ensures Owns(old(clinics), user, clinicId) && !Accepts(CreateManualSchema, body) ==>
        resp == Invalid && State() == old(State())
      ensures Owns(old(clinics), user, clinicId) && Accepts(CreateManualSchema, body) ==>
        var row := NewRow(old(nextId), clinicId, ManualColumns(Strip(CreateManualSchema, body), user), old(clock));
        resp == Created(row)
        && State() == old(State()).(manuals := old(manuals) + [row], nextId := old(nextId) + 1, clock := old(clock) + 1)
    {
      if !Owns(clinics, user, clinicId) {
        return NotFound;
      }
      var parsed := Parse(CreateManualSchema, body);
      if parsed.None? {
        return Invalid;
      }
      var row := NewRow(nextId, clinicId, ManualColumns(parsed.value, user), clock);
      InsertManual(row);
      resp := match RowById(manuals, row.id) case Some(found) => Created(found) case None => ServerError;
    }

    /** GET /api/manuals/:id. */
    method GetManual(user: UserId, id: nat) returns (resp: Response<Row>)
      ensures resp.Ok? || resp.NotFound?
      ensures resp.NotFound? <==> forall x :: x in manuals ==> !(x.id == id && Owns(clinics, user, x.parent))
      ensures resp.Ok? ==> resp.value in manuals && resp.value.id == id && Owns(clinics, user, resp.value.parent)
    {
      var found := OwnedRow(manuals, clinics, user, id);
      if found.None? {
        return NotFound;
      }
      resp := Ok(found.value);
    }

    /** PUT /api/manuals/:id. */
    method PutManual(user: UserId, id: nat, body: Body) returns (resp: Response<Row>)
      requires Valid()
      modifies this
      ensures Valid()
      ensures var o := UpdateRow(old(manuals), old(clinics), user, id, UpdateManualSchema, ManualNotNull, body, old(clock));
        resp == o.resp && State() == old(State()).(manuals := o.rows, clock := o.clock)
    {
      ghost var before := State();
      UpdateRowKeepsOk(manuals, clinics, user, id, UpdateManualSchema, ManualNotNull, body, nextId, clock);
      var o := PatchTable(manuals, clinics, user, id, UpdateManualSchema, ManualNotNull, body, clock);
      manuals, clock := o.rows, o.clock;
      resp := o.resp;
      StoreOkLater(before, State());
    }

    /** DELETE /api/manuals/:id: the row is removed. */
    method DeleteManual(user: UserId, id: nat) returns (resp: Response<Row>)
      requires Valid()
      modifies this
      ensures Valid()
      ensures OwnedRow(old(manuals), old(clinics), user, id).None? ==> resp == NotFound && State() == old(State())
      ensures OwnedRow(old(manuals), old(clinics), user, id).Some? ==>
        resp == Success && State() == old(State()).(manuals := DeleteWhere(old(manuals), id))
    {
      ghost var before := State();
      if OwnedRow(manuals, clinics, user, id).None? {
        return NotFound;
      }
      RowsOkDelete(manuals, id, nextId, clock);
      manuals := DeleteWhere(manuals, id);
      resp := Success;
      StoreOkLater(before, State());
    }

    // ---- routine tasks and check-ins ----

    /** GET /api/clinics/:clinicId/routine-tasks: active tasks only. */
    method ListTasks(user: UserId, clinicId: nat) returns (resp: Response<Row>)
      requires Valid()
      ensures resp.Rows? || resp.NotFound?
      ensures resp.NotFound? <==> !Owns(clinics, user, clinicId)
      ensures resp.Rows? ==>
        (forall x :: x in resp.items <==> x in tasks && x.parent == clinicId && x.isActive)
        && Decreasing(resp.items, RowCreated)
        && multiset(resp.items) == multiset(Filter(tasks, ChildOf(clinicId, true)))
    {
      if !Owns(clinics, user, clinicId) {
        return NotFound;
      }
      ChildrenOfSpec(tasks, clinicId, true);
      resp := Rows(ChildrenOf(tasks, clinicId, true));
    }

    /** POST /api/clinics/:clinicId/routine-tasks. */
    method CreateTask(user: UserId, clinicId: nat, body: Body) returns (resp: Response<Row>)
      requires Valid()
      modifies this
      ensures Valid()
      ensures !Owns(old(clinics), user, clinicId) ==> resp == NotFound && State() == old(State())
      ensures Owns(old(clinics), user, clinicId) && !Accepts(CreateRoutineTaskSchema, body) ==>
        resp == Invalid && State() == old(State())
      ensures Owns(old(clinics), user, clinicId) && Accepts(CreateRoutineTaskSchema, body) ==>
        var row := NewRow(old(nextId), clinicId, TaskColumns(Strip(CreateRoutineTaskSchema, body)), old(clock));
        resp == Created(row)
        && State() == old(State()).(tasks := old(tasks) + [row], nextId := old(nextId) + 1, clock := old(clock) + 1)
    {
      if !Owns(clinics, user, clinicId) {
        return NotFound;
      }
      var parsed := Parse(CreateRoutineTaskSchema, body);
      if parsed.None? {
        return Invalid;
      }
      var row := NewRow(nextId, clinicId, TaskColumns(parsed.value), clock);
      InsertTask(row);
      resp := match RowById(tasks, row.id) case Some(found) => Created(found) case None => ServerError;
    }

    /** GET /api/routine-tasks/:taskId/checkins: the 50 latest by `completed_at`. */
    method ListCheckins(user: UserId, taskId: nat) returns (resp: Response<Row>)
      ensures resp.Rows? || resp.NotFound?
      ensures resp.NotFound? <==> OwnedRow(tasks, clinics, user, taskId).None?
      ensures resp.Rows? ==>
        var all := Filter(checkins, ChildOf(taskId, false));
        |resp.items| == (if |all| < CheckinLimit then |all| else CheckinLimit)
        && (forall x :: x in resp.items ==> x in checkins && x.parent == taskId)
        && SortedDescBy(resp.items, CompletedAt)
        && multiset(resp.items) <= multiset(all)
        && (forall x, y :: x in resp.items && y in multiset(all) - multiset(resp.items) ==>
              TextLe(CompletedAt(y), CompletedAt(x)))
        && (|all| <= CheckinLimit ==> multiset(resp.items) == multiset(all))
    {
      if OwnedRow(tasks, clinics, user, taskId).None? {
        return NotFound;
      }
      CheckinsOfSpec(checkins, taskId);
      CheckinsOfLatest(checkins, taskId);
      CheckinsOfOrder(checkins, taskId);
      resp := Rows(CheckinsOf(checkins, taskId));
    }

    /** POST /api/routine-tasks/:taskId/checkins. */
    method CreateCheckin(user: UserId, taskId: nat, body: Body) returns (resp: Response<Row>)
      requires Valid()
      modifies this
      ensures Valid()
      ensures OwnedRow(old(tasks), old(clinics), user, taskId).None? ==> resp == NotFound && State() == old(State())
      ensures OwnedRow(old(tasks), old(clinics), user, taskId).Some? && !Accepts(CreateRoutineCheckinSchema, body) ==>
        resp == Invalid && State() == old(State())
      ensures OwnedRow(old(tasks), old(clinics), user, taskId).Some? && Accepts(CreateRoutineCheckinSchema, body) ==>
        var row := NewRow(old(nextId), taskId, CheckinColumns(Strip(CreateRoutineCheckinSchema, body), user), old(clock));
        resp == Created(row)
        && State() == old(State()).(checkins := old(checkins) + [row], nextId := old(nextId) + 1, clock := old(clock) + 1)
    {
      if OwnedRow(tasks, clinics, user, taskId).None? {
        return NotFound;
      }
      var parsed := Parse(CreateRoutineCheckinSchema, body);
      if parsed.None? {
        return Invalid;
      }
      var row := NewRow(nextId, taskId, CheckinColumns(parsed.value, user), clock);
      InsertCheckin(row);
      resp := match RowById(checkins, row.id) case Some(found) => Created(found) case None => ServerError;
    }

    // ---- waste management plans ----

    /** GET /api/clinics/:clinicId/waste-plan: the latest plan, or null. */
    method GetWastePlan(user: UserId, clinicId: nat) returns (resp: Response<Row>)
      requires Valid()
      ensures resp.Ok? || resp.NoPlan? || resp.NotFound?
      ensures resp.NotFound? <==> !Owns(clinics, user, clinicId)
      ensures resp.NoPlan? <==> Owns(clinics, user, clinicId) && forall p :: p in plans ==> p.parent != clinicId
      ensures resp.Ok? ==>
        resp.value in plans && resp.value.parent == clinicId
        && forall p :: p in plans && p.parent == clinicId ==> p.createdAt <= resp.value.createdAt
    {
      if !Owns(clinics, user, clinicId) {
        return NotFound;
      }
      LatestPlanSpec(plans, clinicId);
      var latest := LatestPlan(plans, clinicId);
      if latest.None? {
        return NoPlan;
      }
      resp := Ok(latest.value);
    }

    /** POST /api/clinics/:clinicId/waste-plan: a new plan, which becomes the latest. */
    method CreateWastePlan(user: UserId, clinicId: nat, body: Body) returns (resp: Response<Row>)
      requires Valid()
      modifies this
      ensures Valid()
      ensures !Owns(old(clinics), user, clinicId) ==> resp == NotFound && State() == old(State())
      ensures Owns(old(clinics), user, clinicId) && !Accepts(CreateWasteManagementPlanSchema, body) ==>
        resp == Invalid && State() == old(State())
      ensures Owns(old(clinics), user, clinicId) && Accepts(CreateWasteManagementPlanSchema, body) ==>
        var row := NewRow(old(nextId), clinicId, PlanColumns(Strip(CreateWasteManagementPlanSchema, body), user), old(clock));
        resp == Created(row)
        && State() == old(State()).(plans := old(plans) + [row], nextId := old(nextId) + 1, clock := old(clock) + 1)
    {
      if !Owns(clinics, user, clinicId) {
        return NotFound;
      }
      var parsed := Parse(CreateWasteManagementPlanSchema, body);
      if parsed.None? {
        return Invalid;
      }
      var row := NewRow(nextId, clinicId, PlanColumns(parsed.value, user), clock);
      InsertPlan(row);
      resp := match RowById(plans, row.id) case Some(found) => Created(found) case None => ServerError;
    }

    /** PUT /api/waste-plan/:id. */
    method PutWastePlan(user: UserId, id: nat, body: Body) returns (resp: Response<Row>)
      requires Valid()
      modifies this
      ensures Valid()
      ensures var o := UpdateRow(old(plans), old(clinics), user, id, UpdateWasteManagementPlanSchema, PlanNotNull, body, old(clock));
        resp == o.resp && State() == old(State()).(plans := o.rows, clock := o.clock)
    {
      ghost var before := State();
      UpdateRowKeepsOk(plans, clinics, user, id, UpdateWasteManagementPlanSchema, PlanNotNull, body, nextId, clock);
      var o := PatchTable(plans, clinics, user, id, UpdateWasteManagementPlanSchema, PlanNotNull, body, clock);
      plans, clock := o.rows, o.clock;
      resp := o.resp;
      StoreOkLater(before, State());
    }

    // ---- partners ----

    /** GET /api/partners[?category=]: active partners by name. */
    method ListPartners(category: Option<string>) returns (resp: Response<Partner>)
      ensures resp.Rows?
      ensures forall p :: p in resp.items <==>
        p in partners && p.isActive && (category.Some? && category.value != "" ==> p.category == category.value)
      ensures SortedBy(resp.items, PartnerName)
      ensures multiset(resp.items) == multiset(Filter(partners, PartnerMatches(category)))
    {
      PartnersOfSpec(partners, category);
      resp := Rows(PartnersOf(partners, category));
    }

    // ---- health documents ----

    /** GET /api/clinics/:clinicId/health-documents. */
    method ListDocuments(user: UserId, clinicId: nat) returns (resp: Response<Row>)
      requires Valid()
      ensures resp.Rows? || resp.NotFound?
      ensures resp.NotFound? <==> !Owns(clinics, user, clinicId)
      ensures resp.Rows? ==>
        (forall x :: x in resp.items <==> x in documents && x.parent == clinicId)
        && Decreasing(resp.items, RowCreated)
        && multiset(resp.items) == multiset(Filter(documents, ChildOf(clinicId, false)))
    {
      if !Owns(clinics, user, clinicId) {
        return NotFound;
      }
      ChildrenOfSpec(documents, clinicId, false);
      resp := Rows(ChildrenOf(documents, clinicId, false));
    }

    /** POST /api/clinics/:clinicId/health-documents. */
    method CreateDocument(user: UserId, clinicId: nat, body: Body) returns (resp: Response<Row>)
      requires Valid()
      modifies this
      ensures Valid()
      ensures !Owns(old(clinics), user, clinicId) ==> resp == NotFound && State() == old(State())
      ensures Owns(old(clinics), user, clinicId) && !Accepts(CreateHealthDocumentSchema, body) ==>
        resp == Invalid && State() == old(State())
      ensures Owns(old(clinics), user, clinicId) && Accepts(CreateHealthDocumentSchema, body) ==>
        var row := NewRow(old(nextId), clinicId, DocumentColumns(Strip(CreateHealthDocumentSchema, body)), old(clock));
        resp == Created(row)
        && State() == old(State()).(documents := old(documents) + [row], nextId := old(nextId) + 1, clock := old(clock) + 1)
    {
      if !Owns(clinics, user, clinicId) {
        return NotFound;
      }
      var parsed := Parse(CreateHealthDocumentSchema, body);
      if parsed.None? {
        return Invalid;
      }
      var row := NewRow(nextId, clinicId, DocumentColumns(parsed.value), clock);
      InsertDocument(row);
      resp := match RowById(documents, row.id) case Some(found) => Created(found) case None => ServerError;
    }
  }
}
