/** The tables behind src/worker/index.ts and the SQL statements the handlers
    run on them, as functions on the table contents: the ownership lookups,
    the list queries, and the UPDATE / DELETE statements. Row ids come from a
    fresh counter and timestamps from a monotonic clock, so every table is in
    increasing id and created_at order. */
module Tables {
  import opened Common
  import opened Ordering
  import opened Schemas

  type UserId = string

  datatype Clinic = Clinic(id: nat, owner: UserId, cols: Columns, createdAt: nat, updatedAt: nat)

  /** A row of a clinic-scoped table (equipment, manuals, routine tasks, waste
      plans, health documents), or a check-in, whose parent is its task. */
  datatype Row = Row(id: nat, parent: nat, cols: Columns, isActive: bool, createdAt: nat, updatedAt: nat)

  datatype Partner = Partner(id: nat, name: string, category: string, isActive: bool, details: Columns)

  function ClinicId(c: Clinic): int { c.id }
  function ClinicCreated(c: Clinic): int { c.createdAt }
  function RowId(r: Row): int { r.id }
  function RowCreated(r: Row): int { r.createdAt }
  function PartnerName(p: Partner): string { p.name }

  /** The `completed_at` text of a check-in (an absent value sorts first). */
  function CompletedAt(r: Row): string
  {
    if "completed_at" in r.cols then TextOrEmpty(r.cols["completed_at"]) else ""
  }

  // ---- table invariants ----

  ghost predicate ClinicsOk(cs: seq<Clinic>, nextId: nat, clock: nat)
  {
    Increasing(cs, ClinicId) && Increasing(cs, ClinicCreated) && forall c :: c in cs ==> c.id < nextId && c.createdAt < clock
  }

  ghost predicate RowsOk(rows: seq<Row>, nextId: nat, clock: nat)
  {
    Increasing(rows, RowId) && Increasing(rows, RowCreated) && forall r :: r in rows ==> r.id < nextId && r.createdAt < clock
  }

  // ---- lookups ----

  /** `SELECT * FROM clinics WHERE id = ? AND owner_user_id = ?`. */
  function OwnedClinic(cs: seq<Clinic>, user: UserId, id: nat): (r: Option<Clinic>)
    ensures r.Some? ==> r.value in cs && r.value.id == id && r.value.owner == user
    ensures r.None? <==> forall c :: c in cs ==> !(c.id == id && c.owner == user)
  {
    if |cs| == 0 then None
    else if cs[0].id == id && cs[0].owner == user then Some(cs[0])
    else assert cs == [cs[0]] + cs[1..]; OwnedClinic(cs[1..], user, id)
  }

  predicate Owns(cs: seq<Clinic>, user: UserId, clinicId: nat)
  {
    OwnedClinic(cs, user, clinicId).Some?
  }

  /** `SELECT t.* FROM t INNER JOIN clinics c ON t.clinic_id = c.id
      WHERE t.id = ? AND c.owner_user_id = ?`. */
  function OwnedRow(rows: seq<Row>, cs: seq<Clinic>, user: UserId, id: nat): (r: Option<Row>)
    ensures r.Some? ==> r.value in rows && r.value.id == id && Owns(cs, user, r.value.parent)
    ensures r.None? <==> forall x :: x in rows ==> !(x.id == id && Owns(cs, user, x.parent))
  {
    if |rows| == 0 then None
    else if rows[0].id == id && Owns(cs, user, rows[0].parent) then Some(rows[0])
    else assert rows == [rows[0]] + rows[1..]; OwnedRow(rows[1..], cs, user, id)
  }

  /** `SELECT * FROM t WHERE id = ?`. */
  function RowById(rows: seq<Row>, id: nat): (r: Option<Row>)
    ensures r.Some? ==> r.value in rows && r.value.id == id
    ensures r.None? <==> forall x :: x in rows ==> x.id != id
  {
    if |rows| == 0 then None
    else if rows[0].id == id then Some(rows[0])
    else assert rows == [rows[0]] + rows[1..]; RowById(rows[1..], id)
  }

  function ClinicById(cs: seq<Clinic>, id: nat): (r: Option<Clinic>)
    ensures r.Some? ==> r.value in cs && r.value.id == id
    ensures r.None? <==> forall x :: x in cs ==> x.id != id
  {
    if |cs| == 0 then None
    else if cs[0].id == id then Some(cs[0])
    else assert cs == [cs[0]] + cs[1..]; ClinicById(cs[1..], id)
  }

  /** The row found through the ownership join is the row with that id:
      ids are unique because they increase along the table. */
  lemma {:induction false} OwnedRowIsRowById(rows: seq<Row>, cs: seq<Clinic>, user: UserId, id: nat)
    requires Increasing(rows, RowId)
    requires OwnedRow(rows, cs, user, id).Some?
    ensures RowById(rows, id) == OwnedRow(rows, cs, user, id)
  {
    assert rows == [rows[0]] + rows[1..];
    if rows[0].id != id {
      IncreasingTail(rows, RowId);
      OwnedRowIsRowById(rows[1..], cs, user, id);
    }
  }

  // ---- list queries ----

  function OwnerIs(user: UserId): Clinic -> bool
  {
    (c: Clinic) => c.owner == user
  }

  /** `SELECT * FROM clinics WHERE owner_user_id = ? ORDER BY created_at DESC`. */
  function ClinicsOf(cs: seq<Clinic>, user: UserId): seq<Clinic>
  {
    Reverse(Filter(cs, OwnerIs(user)))
  }

  /** The caller's clinics, each once, newest first. */
  lemma ClinicsOfSpec(cs: seq<Clinic>, user: UserId)
    requires Increasing(cs, ClinicCreated)
    ensures forall c :: c in ClinicsOf(cs, user) <==> c in cs && c.owner == user
    ensures Decreasing(ClinicsOf(cs, user), ClinicCreated)
    ensures multiset(ClinicsOf(cs, user)) == multiset(Filter(cs, OwnerIs(user)))
  {
    var f := Filter(cs, OwnerIs(user));
    forall c ensures c in ClinicsOf(cs, user) <==> c in cs && c.owner == user {
      ReverseMembers(f, c);
      if c in cs && c.owner == user { FilterComplete(cs, OwnerIs(user), c); }
    }
    FilterIncreasing(cs, OwnerIs(user), ClinicCreated);
    ReverseOfIncreasing(f, ClinicCreated);
  }

  /** Rows of a clinic (or check-ins of a task), active ones only when asked. */
  function ChildOf(parent: nat, activeOnly: bool): Row -> bool
  {
    (r: Row) => r.parent == parent && (activeOnly ==> r.isActive)
  }

  /** `SELECT * FROM t WHERE clinic_id = ? [AND is_active = 1] ORDER BY created_at DESC`. */
  function ChildrenOf(rows: seq<Row>, parent: nat, activeOnly: bool): seq<Row>
  {
    Reverse(Filter(rows, ChildOf(parent, activeOnly)))
  }

  /** A clinic's rows (active ones only when asked), each once, newest first. */
  lemma ChildrenOfSpec(rows: seq<Row>, parent: nat, activeOnly: bool)
    requires Increasing(rows, RowCreated)
    ensures forall x :: x in ChildrenOf(rows, parent, activeOnly) <==>
      x in rows && x.parent == parent && (activeOnly ==> x.isActive)
    ensures Decreasing(ChildrenOf(rows, parent, activeOnly), RowCreated)
    ensures multiset(ChildrenOf(rows, parent, activeOnly)) == multiset(Filter(rows, ChildOf(parent, activeOnly)))
  {
    var p := ChildOf(parent, activeOnly);
    var f := Filter(rows, p);
    forall x ensures x in ChildrenOf(rows, parent, activeOnly) <==>
      x in rows && x.parent == parent && (activeOnly ==> x.isActive)
    {
      ReverseMembers(f, x);
      if x in rows && p(x) { FilterComplete(rows, p, x); }
    }
    FilterIncreasing(rows, p, RowCreated);
    ReverseOfIncreasing(f, RowCreated);
  }

  const CheckinLimit: nat := 50

  /** `SELECT * FROM routine_checkins WHERE task_id = ? ORDER BY completed_at DESC LIMIT 50`. */
  function CheckinsOf(rows: seq<Row>, taskId: nat): seq<Row>
  {
    Limit(Reverse(SortBy(Filter(rows, ChildOf(taskId, false)), CompletedAt)), CheckinLimit)
  }

  /** At most 50 check-ins, all of the task; all of them when the task has
      no more than 50. */
  lemma CheckinsOfSpec(rows: seq<Row>, taskId: nat)
    ensures var all := Filter(rows, ChildOf(taskId, false));
      |CheckinsOf(rows, taskId)| == if |all| < CheckinLimit then |all| else CheckinLimit
    ensures forall x :: x in CheckinsOf(rows, taskId) ==> x in rows && x.parent == taskId
    ensures var all := Filter(rows, ChildOf(taskId, false));
      |all| <= CheckinLimit ==> multiset(CheckinsOf(rows, taskId)) == multiset(all)
  {
    var all := Filter(rows, ChildOf(taskId, false));
    var desc := Reverse(SortBy(all, CompletedAt));
    var r := CheckinsOf(rows, taskId);
    assert multiset(desc) == multiset(all);
    forall x | x in r ensures x in rows && x.parent == taskId {
      var i :| 0 <= i < |r| && r[i] == x;
      assert desc[i] == x;
      assert x in multiset(desc);
      assert x in all;
    }
  }

  /** The kept check-ins are the latest: each is stored at least as often as
      it is listed, and no left-out check-in has a later `completed_at` than
      a kept one. */
  lemma CheckinsOfLatest(rows: seq<Row>, taskId: nat)
    ensures multiset(CheckinsOf(rows, taskId)) <= multiset(Filter(rows, ChildOf(taskId, false)))
    ensures var r := CheckinsOf(rows, taskId);
      var omitted := multiset(Filter(rows, ChildOf(taskId, false))) - multiset(r);
      forall x, y :: x in r && y in omitted ==> TextLe(CompletedAt(y), CompletedAt(x))
  {
    var all := Filter(rows, ChildOf(taskId, false));
    var sorted := SortBy(all, CompletedAt);
    var desc := Reverse(sorted);
    SortBySorted(all, CompletedAt);
    ReverseOfSorted(sorted, CompletedAt);
    LimitKeepsGreatest(desc, CheckinLimit, CompletedAt);
  }

  /** Check-ins come latest `completed_at` first. */
  lemma CheckinsOfOrder(rows: seq<Row>, taskId: nat)
    ensures SortedDescBy(CheckinsOf(rows, taskId), CompletedAt)
  {
    var sorted := SortBy(Filter(rows, ChildOf(taskId, false)), CompletedAt);
    var desc := Reverse(sorted);
    var r := CheckinsOf(rows, taskId);
    SortBySorted(Filter(rows, ChildOf(taskId, false)), CompletedAt);
    ReverseOfSorted(sorted, CompletedAt);
    forall i, j | 0 <= i < j < |r| ensures TextLe(CompletedAt(r[j]), CompletedAt(r[i])) {
      assert r[i] == desc[i] && r[j] == desc[j];
    }
  }

  function PartnerMatches(category: Option<string>): Partner -> bool
  {
    (p: Partner) => p.isActive && (category.Some? && category.value != "" ==> p.category == category.value)
  }

  /** `SELECT * FROM partners WHERE is_active = 1 [AND category = ?] ORDER BY name`;
      the category filter applies only when the query parameter is non-empty. */
  function PartnersOf(ps: seq<Partner>, category: Option<string>): seq<Partner>
  {
    SortBy(Filter(ps, PartnerMatches(category)), PartnerName)
  }

  /** The matching partners, each as often as the catalogue holds it, by name. */
  lemma PartnersOfSpec(ps: seq<Partner>, category: Option<string>)
    ensures forall p :: p in PartnersOf(ps, category) <==>
      p in ps && p.isActive && (category.Some? && category.value != "" ==> p.category == category.value)
    ensures SortedBy(PartnersOf(ps, category), PartnerName)
    ensures multiset(PartnersOf(ps, category)) == multiset(Filter(ps, PartnerMatches(category)))
  {
    var f := Filter(ps, PartnerMatches(category));
    var r := PartnersOf(ps, category);
    forall p ensures p in r <==> p in ps && PartnerMatches(category)(p) {
      assert p in r <==> p in multiset(r);
      assert p in f <==> p in multiset(f);
      if p in ps && PartnerMatches(category)(p) { FilterComplete(ps, PartnerMatches(category), p); }
    }
    SortBySorted(f, PartnerName);
  }

  /** `SELECT * FROM waste_management_plans WHERE clinic_id = ? ORDER BY created_at DESC LIMIT 1`. */
  function LatestPlan(plans: seq<Row>, clinicId: nat): Option<Row>
  {
    var newest := ChildrenOf(plans, clinicId, false);
    if |newest| == 0 then None else Some(newest[0])
  }

  /** The plan with the greatest created_at for the clinic, or none when it has none. */
  lemma LatestPlanSpec(plans: seq<Row>, clinicId: nat)
    requires Increasing(plans, RowCreated)
    ensures LatestPlan(plans, clinicId).None? <==> forall p :: p in plans ==> p.parent != clinicId
    ensures LatestPlan(plans, clinicId).Some? ==>
      var latest := LatestPlan(plans, clinicId).value;
      latest in plans && latest.parent == clinicId
      && forall p :: p in plans && p.parent == clinicId ==> p.createdAt <= latest.createdAt
  {
    var newest := ChildrenOf(plans, clinicId, false);
    ChildrenOfSpec(plans, clinicId, false);
    forall p | p in plans && p.parent == clinicId ensures |newest| > 0 {
      assert p in newest;
    }
    if |newest| > 0 {
      forall p | p in plans && p.parent == clinicId ensures p.createdAt <= newest[0].createdAt {
        var j :| 0 <= j < |newest| && newest[j] == p;
        if j > 0 { assert RowCreated(newest[0]) >= RowCreated(newest[j]); }
      }
    }
  }

  /** A plan created after every other plan of its clinic is the one GET returns. */
  lemma LatestPlanWins(plans: seq<Row>, p: Row, nextId: nat, clock: nat)
    requires RowsOk(plans, nextId, clock) && p.createdAt >= clock
    ensures LatestPlan(plans + [p], p.parent) == Some(p)
  {
    var all := plans + [p];
    assert Increasing(all, RowCreated) by {
      forall i, j | 0 <= i < j < |all| ensures RowCreated(all[i]) < RowCreated(all[j]) {
        if j == |plans| { assert all[i] in plans; } else { assert all[i] == plans[i] && all[j] == plans[j]; }
      }
    }
    FilterAppend(plans, p, ChildOf(p.parent, false));
  }

  // ---- statements ----

  /** `UPDATE t SET <assignments>, updated_at = CURRENT_TIMESTAMP WHERE id = ?`. */
  function PatchWhere(rows: seq<Row>, id: nat, assigns: Columns, stamp: nat): (r: seq<Row>)
    ensures |r| == |rows|
    ensures forall i :: 0 <= i < |rows| ==> r[i] == if rows[i].id == id
      then rows[i].(cols := rows[i].cols + assigns, updatedAt := stamp) else rows[i]
  {
    seq(|rows|, i requires 0 <= i < |rows| =>
      if rows[i].id == id then rows[i].(cols := rows[i].cols + assigns, updatedAt := stamp) else rows[i])
  }

  /** `UPDATE equipment SET is_active = 0 WHERE id = ?`. */
  function DeactivateWhere(rows: seq<Row>, id: nat): (r: seq<Row>)
    ensures |r| == |rows|
    ensures forall i :: 0 <= i < |rows| ==> r[i] == if rows[i].id == id then rows[i].(isActive := false) else rows[i]
  {
    seq(|rows|, i requires 0 <= i < |rows| => if rows[i].id == id then rows[i].(isActive := false) else rows[i])
  }

  function IdIsNot(id: nat): Row -> bool
  {
    (r: Row) => r.id != id
  }

  /** `DELETE FROM t WHERE id = ?`. */
  function DeleteWhere(rows: seq<Row>, id: nat): seq<Row>
  {
    Filter(rows, IdIsNot(id))
  }

  /** `UPDATE clinics SET <assignments>, updated_at = CURRENT_TIMESTAMP WHERE id = ?`. */
  function PatchClinicWhere(cs: seq<Clinic>, id: nat, assigns: Columns, stamp: nat): (r: seq<Clinic>)
    ensures |r| == |cs|
    ensures forall i :: 0 <= i < |cs| ==> r[i] == if cs[i].id == id
      then cs[i].(cols := cs[i].cols + assigns, updatedAt := stamp) else cs[i]
  {
    seq(|cs|, i requires 0 <= i < |cs| =>
      if cs[i].id == id then cs[i].(cols := cs[i].cols + assigns, updatedAt := stamp) else cs[i])
  }

  /** Two tables that differ only in columns other than id and created_at. */
  ghost predicate SameRowKeys(a: seq<Row>, b: seq<Row>)
  {
    |a| == |b| && forall i :: 0 <= i < |a| ==> a[i].id == b[i].id && a[i].createdAt == b[i].createdAt
  }

  lemma SameRowKeysOk(a: seq<Row>, b: seq<Row>, nextId: nat, clock: nat)
    requires RowsOk(a, nextId, clock) && SameRowKeys(a, b)
    ensures RowsOk(b, nextId, clock)
  {
    assert forall i :: 0 <= i < |a| ==> RowId(a[i]) == RowId(b[i]) && RowCreated(a[i]) == RowCreated(b[i]);
    forall x | x in b ensures x.id < nextId && x.createdAt < clock {
      var i :| 0 <= i < |b| && b[i] == x;
      assert a[i] in a;
    }
  }

  lemma RowsOkGrow(rows: seq<Row>, nextId: nat, clock: nat, nextId': nat, clock': nat)
    requires RowsOk(rows, nextId, clock) && nextId <= nextId' && clock <= clock'
    ensures RowsOk(rows, nextId', clock')
  {
  }

  lemma ClinicsOkGrow(cs: seq<Clinic>, nextId: nat, clock: nat, nextId': nat, clock': nat)
    requires ClinicsOk(cs, nextId, clock) && nextId <= nextId' && clock <= clock'
    ensures ClinicsOk(cs, nextId', clock')
  {
  }

  lemma RowsOkAppend(rows: seq<Row>, x: Row, nextId: nat, clock: nat)
    requires RowsOk(rows, nextId, clock) && x.id == nextId && x.createdAt == clock
    ensures RowsOk(rows + [x], nextId + 1, clock + 1)
  {
    var all := rows + [x];
    forall i, j | 0 <= i < j < |all| ensures RowId(all[i]) < RowId(all[j]) && RowCreated(all[i]) < RowCreated(all[j]) {
      if j == |rows| { assert all[i] in rows; } else { assert all[i] == rows[i] && all[j] == rows[j]; }
    }
  }

  lemma ClinicsOkAppend(cs: seq<Clinic>, x: Clinic, nextId: nat, clock: nat)
    requires ClinicsOk(cs, nextId, clock) && x.id == nextId && x.createdAt == clock
    ensures ClinicsOk(cs + [x], nextId + 1, clock + 1)
  {
    var all := cs + [x];
    forall i, j | 0 <= i < j < |all| ensures ClinicId(all[i]) < ClinicId(all[j]) && ClinicCreated(all[i]) < ClinicCreated(all[j]) {
      if j == |cs| { assert all[i] in cs; } else { assert all[i] == cs[i] && all[j] == cs[j]; }
    }
  }

  lemma ClinicsOkPatch(cs: seq<Clinic>, id: nat, assigns: Columns, stamp: nat, nextId: nat, clock: nat)
    requires ClinicsOk(cs, nextId, clock)
    ensures ClinicsOk(PatchClinicWhere(cs, id, assigns, stamp), nextId, clock)
  {
    var r := PatchClinicWhere(cs, id, assigns, stamp);
    assert forall i :: 0 <= i < |cs| ==> ClinicId(cs[i]) == ClinicId(r[i]) && ClinicCreated(cs[i]) == ClinicCreated(r[i]);
    forall x | x in r ensures x.id < nextId && x.createdAt < clock {
      var i :| 0 <= i < |r| && r[i] == x;
      assert cs[i] in cs;
    }
  }

  lemma RowsOkDelete(rows: seq<Row>, id: nat, nextId: nat, clock: nat)
    requires RowsOk(rows, nextId, clock)
    ensures RowsOk(DeleteWhere(rows, id), nextId, clock)
  {
    FilterIncreasing(rows, IdIsNot(id), RowId);
    FilterIncreasing(rows, IdIsNot(id), RowCreated);
  }

  // ---- what the statements do ----

  /** UPDATE writes the assignments over the row with that id, stamps it, and
      leaves every other row as it was. */
  lemma PatchWhereEffect(rows: seq<Row>, id: nat, assigns: Columns, stamp: nat, old_row: Row)
    requires Increasing(rows, RowId) && RowById(rows, id) == Some(old_row)
    ensures RowById(PatchWhere(rows, id, assigns, stamp), id) ==
      Some(old_row.(cols := old_row.cols + assigns, updatedAt := stamp))
    ensures forall x :: x in rows && x.id != id ==> x in PatchWhere(rows, id, assigns, stamp)
    ensures forall x :: x in PatchWhere(rows, id, assigns, stamp) && x.id != id ==> x in rows
  {
    var r := PatchWhere(rows, id, assigns, stamp);
    var k := FirstIndex(rows, id);
    assert r[k] == old_row.(cols := old_row.cols + assigns, updatedAt := stamp);
    RowByIdAt(r, id, k);
    forall x | x in rows && x.id != id ensures x in r {
      var i :| 0 <= i < |rows| && rows[i] == x;
      assert r[i] == x;
    }
    forall x | x in r && x.id != id ensures x in rows {
      var i :| 0 <= i < |r| && r[i] == x;
      assert rows[i] == x;
    }
  }

  /** Index of the row that `SELECT ... WHERE id = ?` returns. */
  lemma FirstIndex(rows: seq<Row>, id: nat) returns (k: nat)
    requires RowById(rows, id).Some?
    ensures k < |rows| && rows[k] == RowById(rows, id).value
    ensures forall i :: 0 <= i < k ==> rows[i].id != id
  {
    if rows[0].id == id {
      k := 0;
    } else {
      var k' := FirstIndex(rows[1..], id);
      k := k' + 1;
    }
  }

  lemma {:induction false} RowByIdAt(rows: seq<Row>, id: nat, k: nat)
    requires k < |rows| && rows[k].id == id
    requires forall i :: 0 <= i < k ==> rows[i].id != id
    ensures RowById(rows, id) == Some(rows[k])
  {
    if k > 0 {
      RowByIdAt(rows[1..], id, k - 1);
    }
  }

  /** After a soft delete the row is still found by id, now inactive, and it
      no longer appears among its clinic's active rows. */
  lemma DeactivateEffect(rows: seq<Row>, cs: seq<Clinic>, user: UserId, id: nat)
    requires Increasing(rows, RowId) && RowById(rows, id).Some?
    ensures RowById(DeactivateWhere(rows, id), id) == Some(RowById(rows, id).value.(isActive := false))
    ensures OwnedRow(DeactivateWhere(rows, id), cs, user, id).Some? <==> OwnedRow(rows, cs, user, id).Some?
    ensures forall p :: forall x :: x in Filter(DeactivateWhere(rows, id), ChildOf(p, true)) ==> x.id != id
  {
    var r := DeactivateWhere(rows, id);
    var k := FirstIndex(rows, id);
    RowByIdAt(r, id, k);
    var found := RowById(rows, id).value;
    if OwnedRow(rows, cs, user, id).Some? {
      OwnedRowIsRowById(rows, cs, user, id);
      assert r[k] in r && r[k].parent == found.parent;
    }
    if OwnedRow(r, cs, user, id).Some? {
      var x := OwnedRow(r, cs, user, id).value;
      var i :| 0 <= i < |r| && r[i] == x;
      assert rows[i].id == id && rows[i].parent == x.parent && rows[i] in rows;
    }
    forall p, x | x in Filter(r, ChildOf(p, true)) ensures x.id != id {
      var i :| 0 <= i < |r| && r[i] == x;
    }
  }

  /** After a hard delete no row has that id, and every other row is kept. */
  lemma DeleteEffect(rows: seq<Row>, cs: seq<Clinic>, user: UserId, id: nat)
    ensures RowById(DeleteWhere(rows, id), id).None?
    ensures OwnedRow(DeleteWhere(rows, id), cs, user, id).None?
    ensures forall x :: x in DeleteWhere(rows, id) <==> x in rows && x.id != id
  {
    forall x ensures x in DeleteWhere(rows, id) <==> x in rows && x.id != id {
      if x in rows && x.id != id { FilterComplete(rows, IdIsNot(id), x); }
    }
  }
}
