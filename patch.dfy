/** The PUT handlers of src/worker/index.ts. After the ownership lookup and
    the validation, each handler builds a list of `column = ?` assignments
    with bound values (`value || null`), runs one UPDATE that also stamps
    `updated_at` only when the list is non-empty, and answers with the row
    selected again by id. */
module Patch {
  import opened Common
  import opened Ordering
  import opened Schemas
  import opened Tables

  /** The columns a PUT writes: every supplied key, bound as `value || null`. */
  function PatchOf(data: Body): (p: Columns)
    ensures p.Keys == data.Keys
    ensures forall k :: k in p ==> p[k] == ValueOrNull(data[k])
  {
    map k | k in data :: ValueOrNull(data[k])
  }

  function InData(data: Body): string -> bool
  {
    (k: string) => k in data
  }

  /** The keys of the validated data in the order `Object.entries` yields them,
      which is the schema's declaration order. */
  function EntryKeys(s: Schema, data: Body): seq<string>
  {
    Filter(KeyOrder(s), InData(data))
  }

  lemma EntryKeysSpec(s: Schema, data: Body)
    requires data.Keys <= Keys(s)
    ensures forall k :: k in EntryKeys(s, data) <==> k in data
  {
    forall k | k in data ensures k in EntryKeys(s, data) {
      var i :| 0 <= i < |s| && s[i].key == k;
      assert KeyOrder(s)[i] == k;
      FilterComplete(KeyOrder(s), InData(data), k);
    }
  }

  /** The columns an UPDATE's assignment list sets, with its bound values. */
  function Assignments(updates: seq<string>, values: seq<Cell>): (m: Columns)
    requires |updates| == |values|
    ensures m.Keys == set k | k in updates
  {
    if |updates| == 0 then map[]
    else Assignments(updates[..|updates| - 1], values[..|values| - 1])[updates[|updates| - 1] := values[|values| - 1]]
  }

  /** An assignment list that binds each supplied key to `value || null`, and
      covers every supplied key, sets exactly the patch. */
  lemma {:induction false} AssignmentsArePatch(updates: seq<string>, values: seq<Cell>, data: Body)
    requires |updates| == |values|
    requires forall j :: 0 <= j < |updates| ==> updates[j] in data && values[j] == ValueOrNull(data[updates[j]])
    requires forall k :: k in data ==> k in updates
    ensures Assignments(updates, values) == PatchOf(data)
  {
    AssignmentsAgree(updates, values, data);
  }

  lemma {:induction false} AssignmentsAgree(updates: seq<string>, values: seq<Cell>, data: Body)
    requires |updates| == |values|
    requires forall j :: 0 <= j < |updates| ==> updates[j] in data && values[j] == ValueOrNull(data[updates[j]])
    ensures forall k :: k in Assignments(updates, values) ==> Assignments(updates, values)[k] == ValueOrNull(data[k])
  {
    if |updates| > 0 {
      var n := |updates| - 1;
      AssignmentsAgree(updates[..n], values[..n], data);
    }
  }

  /** The forEach over the validated entries: one `key = ?` and one bound
      `value || null` per supplied key. */
  method CollectAssignments(s: Schema, data: Body) returns (updates: seq<string>, values: seq<Cell>)
    requires data.Keys <= Keys(s)
    ensures |updates| == |values|
    ensures updates == EntryKeys(s, data)
    ensures Assignments(updates, values) == PatchOf(data)
  {
    var entries := EntryKeys(s, data);
    updates, values := [], [];
    var i := 0;
    while i < |entries|
      invariant 0 <= i <= |entries|
      invariant updates == entries[..i]
      invariant |values| == i
      invariant forall j :: 0 <= j < i ==> entries[j] in data && values[j] == ValueOrNull(data[entries[j]])
    {
      assert entries[i] in entries;
      updates := updates + [entries[i]];
      values := values + [ValueOrNull(data[entries[i]])];
      i := i + 1;
    }
    assert updates == entries;
    EntryKeysSpec(s, data);
    AssignmentsArePatch(updates, values, data);
  }

  /** Each listed column is a supplied key bound to `value || null`. */
  ghost predicate Binds(updates: seq<string>, values: seq<Cell>, data: Body)
  {
    |updates| == |values|
    && forall j :: 0 <= j < |updates| ==> updates[j] in data && values[j] == ValueOrNull(data[updates[j]])
  }

  lemma BindsPush(updates: seq<string>, values: seq<Cell>, data: Body, k: string)
    requires Binds(updates, values, data) && k in data
    ensures Binds(updates + [k], values + [ValueOrNull(data[k])], data)
  {
  }

  /** The fields the clinic PUT looks at, and `name` bound as given equals
      `name || null` because a present name is a non-empty string. */
  lemma ClinicUpdateFields(data: Body)
    requires Accepts(UpdateClinicSchema, data)
    ensures Keys(UpdateClinicSchema) == {"name", "cnpj", "address", "city", "state", "phone"}
    ensures "name" in data ==> ToCell(data["name"]) == ValueOrNull(data["name"])
  {
    var p := UpdateClinicSchema;
    assert p[0].key == "name" && p[1].key == "cnpj" && p[2].key == "address";
    assert p[3].key == "city" && p[4].key == "state" && p[5].key == "phone";
    if "name" in data {
      PartialKeepsChecks(CreateClinicSchema, data, 0);
    }
  }

  /** The clinic PUT's if-chain over its six fields: `name` is bound as given,
      the other five as `value || null`. */
  method CollectClinicAssignments(data: Body) returns (updates: seq<string>, values: seq<Cell>)
    requires data.Keys <= Keys(UpdateClinicSchema)
    requires Accepts(UpdateClinicSchema, data)
    ensures |updates| == |values|
    ensures Assignments(updates, values) == PatchOf(data)
  {
    ClinicUpdateFields(data);
    updates, values := [], [];
    if "name" in data {
      BindsPush(updates, values, data, "name");
      updates, values := updates + ["name"], values + [ToCell(data["name"])];
    }
    ghost var seen := {"name"};
    assert Binds(updates, values, data) && forall k :: k in seen && k in data ==> k in updates;
    if "cnpj" in data {
      BindsPush(updates, values, data, "cnpj");
      updates, values := updates + ["cnpj"], values + [ValueOrNull(data["cnpj"])];
    }
    seen := seen + {"cnpj"};
    assert Binds(updates, values, data) && forall k :: k in seen && k in data ==> k in updates;
    if "address" in data {
      BindsPush(updates, values, data, "address");
      updates, values := updates + ["address"], values + [ValueOrNull(data["address"])];
    }
    seen := seen + {"address"};
    assert Binds(updates, values, data) && forall k :: k in seen && k in data ==> k in updates;
    if "city" in data {
      BindsPush(updates, values, data, "city");
      updates, values := updates + ["city"], values + [ValueOrNull(data["city"])];
    }
    seen := seen + {"city"};
    assert Binds(updates, values, data) && forall k :: k in seen && k in data ==> k in updates;
    if "state" in data {
      BindsPush(updates, values, data, "state");
      updates, values := updates + ["state"], values + [ValueOrNull(data["state"])];
    }
    seen := seen + {"state"};
    assert Binds(updates, values, data) && forall k :: k in seen && k in data ==> k in updates;
    if "phone" in data {
      BindsPush(updates, values, data, "phone");
      updates, values := updates + ["phone"], values + [ValueOrNull(data["phone"])];
    }
    seen := seen + {"phone"};
    assert Binds(updates, values, data) && forall k :: k in seen && k in data ==> k in updates;
    forall k | k in data ensures k in updates {
      assert k in Keys(UpdateClinicSchema);
      assert k in seen;
    }
    AssignmentsArePatch(updates, values, data);
  }

  /** The UPDATE would put null into a column that does not accept it. */
  predicate NullIntoNotNull(patch: Columns, notNull: set<string>)
  {
    exists k :: k in patch && k in notNull && patch[k] == Null
  }

  /** The answer built from `SELECT * FROM t WHERE id = ?`; no row makes the
      response schema throw. */
  function Reselect(rows: seq<Row>, id: nat): (r: Response<Row>)
    ensures r.Ok? <==> RowById(rows, id).Some?
    ensures r.Ok? ==> r.value in rows && r.value.id == id
  {
    match RowById(rows, id)
    case Some(row) => Ok(row)
    case None => ServerError
  }

  /** A table after a handler, with the answer and the clock. */
  datatype Outcome = Outcome(resp: Response<Row>, rows: seq<Row>, clock: nat)

  /** PUT on a row of a clinic-scoped table (equipment, manuals, waste plans).
      `notNull` names the columns the table keeps non-null. */
  function UpdateRow(rows: seq<Row>, cs: seq<Clinic>, user: UserId, id: nat, s: Schema,
                     notNull: set<string>, body: Body, clock: nat): (o: Outcome)
    ensures OwnedRow(rows, cs, user, id).None? ==> o == Outcome(NotFound, rows, clock)
    ensures OwnedRow(rows, cs, user, id).Some? && !Accepts(s, body) ==> o == Outcome(Invalid, rows, clock)
    ensures o.rows == rows || o.clock == clock + 1
  {
    match OwnedRow(rows, cs, user, id)
    case None => Outcome(NotFound, rows, clock)
    case Some(_) =>
      match Parse(s, body)
      case None => Outcome(Invalid, rows, clock)
      case Some(data) =>
        var patch := PatchOf(data);
        if |patch| == 0 then Outcome(Reselect(rows, id), rows, clock)
        else if NullIntoNotNull(patch, notNull) then Outcome(ServerError, rows, clock)
        else
          var rows' := PatchWhere(rows, id, patch, clock);
          Outcome(Reselect(rows', id), rows', clock + 1)
  }

  /** The handler body: ownership lookup, validation, the forEach, and the
      UPDATE only when there is something to set. */
  method PatchTable(rows: seq<Row>, cs: seq<Clinic>, user: UserId, id: nat, s: Schema,
                    notNull: set<string>, body: Body, clock: nat) returns (o: Outcome)
    ensures o == UpdateRow(rows, cs, user, id, s, notNull, body, clock)
  {
    var found := OwnedRow(rows, cs, user, id);
    if found.None? {
      return Outcome(NotFound, rows, clock);
    }
    var parsed := Parse(s, body);
    if parsed.None? {
      return Outcome(Invalid, rows, clock);
    }
    var updates, values := CollectAssignments(s, parsed.value);
    var assigns := Assignments(updates, values);
    if |updates| == 0 {
      assert assigns == map[];
      o := Outcome(Reselect(rows, id), rows, clock);
    } else {
      assert updates[0] in assigns;
      if NullIntoNotNull(assigns, notNull) {
        return Outcome(ServerError, rows, clock);
      }
      var rows' := PatchWhere(rows, id, assigns, clock);
      o := Outcome(Reselect(rows', id), rows', clock + 1);
    }
  }

  // ---- what a PUT does ----

  /** The columns of a patched row: each supplied schema key holds
      `value || null`, every other column keeps its value. */
  lemma PatchedColumns(cols: Columns, s: Schema, body: Body)
    ensures var after := cols + PatchOf(Strip(s, body));
      after.Keys == cols.Keys + (body.Keys * Keys(s))
      && (forall k :: k in body && k in Keys(s) ==> after[k] == ValueOrNull(body[k]))
      && (forall k :: k in cols && !(k in body && k in Keys(s)) ==> after[k] == cols[k])
  {
  }

  /** A PUT by the owner with a valid body and no supplied key runs no UPDATE:
      the row comes back as it was, `updated_at` included. */
  lemma UpdateRowEmptyPatch(rows: seq<Row>, cs: seq<Clinic>, user: UserId, id: nat, s: Schema,
                            notNull: set<string>, body: Body)
    requires Increasing(rows, RowId)
    requires OwnedRow(rows, cs, user, id).Some? && Accepts(s, body)
    requires |PatchOf(Strip(s, body))| == 0
    ensures forall clock :: (UpdateRow(rows, cs, user, id, s, notNull, body, clock) ==
      Outcome(Ok(OwnedRow(rows, cs, user, id).value), rows, clock))
  {
    OwnedRowIsRowById(rows, cs, user, id);
  }

  /** A PUT by the owner with a valid body that supplies a key: unless it puts
      null into a non-null column (which fails and writes nothing), the row
      gets the patch and the current time and every other row is kept. */
  lemma UpdateRowWrites(rows: seq<Row>, cs: seq<Clinic>, user: UserId, id: nat, s: Schema,
                        notNull: set<string>, body: Body, clock: nat)
    requires Increasing(rows, RowId)
    requires OwnedRow(rows, cs, user, id).Some? && Accepts(s, body)
    requires |PatchOf(Strip(s, body))| > 0
    ensures var patch := PatchOf(Strip(s, body));
      var o := UpdateRow(rows, cs, user, id, s, notNull, body, clock);
      NullIntoNotNull(patch, notNull) ==> o == Outcome(ServerError, rows, clock)
    ensures var found := OwnedRow(rows, cs, user, id).value;
      var patch := PatchOf(Strip(s, body));
      var o := UpdateRow(rows, cs, user, id, s, notNull, body, clock);
      var updated := found.(cols := found.cols + patch, updatedAt := clock);
      !NullIntoNotNull(patch, notNull) ==>
        o.resp == Ok(updated) && o.clock == clock + 1
        && RowById(o.rows, id) == Some(updated)
        && (forall x :: x in rows && x.id != id ==> x in o.rows)
        && (forall x :: x in o.rows && x.id != id ==> x in rows)
  {
    var found := OwnedRow(rows, cs, user, id).value;
    var patch := PatchOf(Strip(s, body));
    OwnedRowIsRowById(rows, cs, user, id);
    if !NullIntoNotNull(patch, notNull) {
      PatchWhereEffect(rows, id, patch, clock, found);
    }
  }

  /** Every PUT keeps the table's invariant. */
  lemma UpdateRowKeepsOk(rows: seq<Row>, cs: seq<Clinic>, user: UserId, id: nat, s: Schema,
                         notNull: set<string>, body: Body, nextId: nat, clock: nat)
    requires RowsOk(rows, nextId, clock)
    ensures var o := UpdateRow(rows, cs, user, id, s, notNull, body, clock);
      RowsOk(o.rows, nextId, o.clock)
  {
    var patch := PatchOf(Strip(s, body));
    if OwnedRow(rows, cs, user, id).Some? && Accepts(s, body) && |patch| > 0 && !NullIntoNotNull(patch, notNull) {
      var rows' := PatchWhere(rows, id, patch, clock);
      assert SameRowKeys(rows, rows');
      SameRowKeysOk(rows, rows', nextId, clock);
    }
  }

  /** The clinics table after a handler, with the answer and the clock. */
  datatype ClinicOutcome = ClinicOutcome(resp: Response<Clinic>, clinics: seq<Clinic>, clock: nat)

  function ReselectClinic(cs: seq<Clinic>, id: nat): (r: Response<Clinic>)
    ensures r.Ok? <==> ClinicById(cs, id).Some?
  {
    match ClinicById(cs, id)
    case Some(c) => Ok(c)
    case None => ServerError
  }

  /** PUT /api/clinics/:id. */
  function UpdateClinic(cs: seq<Clinic>, user: UserId, id: nat, body: Body, clock: nat): (o: ClinicOutcome)
    ensures OwnedClinic(cs, user, id).None? ==> o == ClinicOutcome(NotFound, cs, clock)
    ensures OwnedClinic(cs, user, id).Some? && !Accepts(UpdateClinicSchema, body) ==> o == ClinicOutcome(Invalid, cs, clock)
    ensures o.clinics == cs || o.clock == clock + 1
  {
    match OwnedClinic(cs, user, id)
    case None => ClinicOutcome(NotFound, cs, clock)
    case Some(_) =>
      match Parse(UpdateClinicSchema, body)
      case None => ClinicOutcome(Invalid, cs, clock)
      case Some(data) =>
        var patch := PatchOf(data);
        if |patch| == 0 then ClinicOutcome(ReselectClinic(cs, id), cs, clock)
        else
          var cs' := PatchClinicWhere(cs, id, patch, clock);
          ClinicOutcome(ReselectClinic(cs', id), cs', clock + 1)
  }

  /** The clinic PUT handler body: ownership lookup, validation, the if-chain,
      and the UPDATE only when there is something to set. */
  method PatchClinics(cs: seq<Clinic>, user: UserId, id: nat, body: Body, clock: nat) returns (o: ClinicOutcome)
    ensures o == UpdateClinic(cs, user, id, body, clock)
  {
    var found := OwnedClinic(cs, user, id);
    if found.None? {
      return ClinicOutcome(NotFound, cs, clock);
    }
    var parsed := Parse(UpdateClinicSchema, body);
    if parsed.None? {
      return ClinicOutcome(Invalid, cs, clock);
    }
    ParseIdempotent(UpdateClinicSchema, body);
    var updates, values := CollectClinicAssignments(parsed.value);
    var assigns := Assignments(updates, values);
    if |updates| == 0 {
      assert assigns == map[];
      o := ClinicOutcome(ReselectClinic(cs, id), cs, clock);
    } else {
      assert updates[0] in assigns;
      var cs' := PatchClinicWhere(cs, id, assigns, clock);
      o := ClinicOutcome(ReselectClinic(cs', id), cs', clock + 1);
    }
  }

  /** Every clinic PUT keeps the table's invariant. */
  lemma UpdateClinicKeepsOk(cs: seq<Clinic>, user: UserId, id: nat, body: Body, nextId: nat, clock: nat)
    requires ClinicsOk(cs, nextId, clock)
    ensures var o := UpdateClinic(cs, user, id, body, clock);
      ClinicsOk(o.clinics, nextId, o.clock)
  {
    var patch := PatchOf(Strip(UpdateClinicSchema, body));
    if OwnedClinic(cs, user, id).Some? && Accepts(UpdateClinicSchema, body) && |patch| > 0 {
      ClinicsOkPatch(cs, id, patch, clock, nextId, clock);
      ClinicsOkGrow(PatchClinicWhere(cs, id, patch, clock), nextId, clock, nextId, clock + 1);
    }
  }

  lemma {:induction false} ClinicByIdFirst(cs: seq<Clinic>, id: nat, k: nat)
    requires k < |cs| && cs[k].id == id
    requires forall i :: 0 <= i < k ==> cs[i].id != id
    ensures ClinicById(cs, id) == Some(cs[k])
  {
    if k > 0 {
      ClinicByIdFirst(cs[1..], id, k - 1);
    }
  }

  /** The owner's valid clinic PUT: an empty body writes nothing; otherwise
      the clinic gets the patch and the current time, its owner unchanged. */
  lemma UpdateClinicEffect(cs: seq<Clinic>, user: UserId, id: nat, body: Body, nextId: nat, clock: nat)
    requires ClinicsOk(cs, nextId, clock)
    requires OwnedClinic(cs, user, id).Some? && Accepts(UpdateClinicSchema, body)
    ensures var found := OwnedClinic(cs, user, id).value;
      var patch := PatchOf(Strip(UpdateClinicSchema, body));
      var o := UpdateClinic(cs, user, id, body, clock);
      ClinicsOk(o.clinics, nextId, o.clock)
      && (|patch| == 0 ==> o == ClinicOutcome(Ok(found), cs, clock))
      && (|patch| > 0 ==>
            var updated := found.(cols := found.cols + patch, updatedAt := clock);
            o.resp == Ok(updated) && o.clock == clock + 1 && updated.owner == user
            && (forall c :: c in cs && c.id != id ==> c in o.clinics))
  {
    var found := OwnedClinic(cs, user, id).value;
    var patch := PatchOf(Strip(UpdateClinicSchema, body));
    var k :| 0 <= k < |cs| && cs[k] == found;
    forall i | 0 <= i < k ensures cs[i].id != id {
      assert ClinicId(cs[i]) < ClinicId(cs[k]);
    }
    ClinicByIdFirst(cs, id, k);
    if |patch| > 0 {
      var cs' := PatchClinicWhere(cs, id, patch, clock);
      ClinicByIdFirst(cs', id, k);
      ClinicsOkPatch(cs, id, patch, clock, nextId, clock);
      forall c | c in cs && c.id != id ensures c in cs' {
        var i :| 0 <= i < |cs| && cs[i] == c;
        assert cs'[i] == c;
      }
    }
  }
}
