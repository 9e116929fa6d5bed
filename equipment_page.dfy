/** The equipment detail page (src/react-app/pages/Equipment.tsx): the
    calibration badges, the edit form filled from the loaded record, cancel,
    and what a save sends and keeps. */
module EquipmentPage {
  import opened Common
  import opened Schemas
  import opened Patch
  import opened DueDates

  /** The fields the edit form holds (the three URL fields are not on the form). */
  const FormKeys: set<string> := {
    "name", "category", "manufacturer", "model", "serial_number", "purchase_date",
    "calibration_date", "calibration_due_date", "responsible_technician", "notes"}

  type Form = map<string, string>

  /** `record.k || ""` for a text column. */
  function CellText(rec: Columns, k: string): string
  {
    if k in rec then TextOrEmpty(rec[k]) else ""
  }

  /** The form `fetchEquipment` and cancel build from a record: `name` is
      copied without a fallback, so a record without one (an error body)
      leaves it undefined, which the form map models as absent; every other
      field is `record.k || ""`. */
  function FormFromRecord(rec: Columns): (f: Form)
    ensures f.Keys == if "name" in rec then FormKeys else FormKeys - {"name"}
    ensures forall k :: k in FormKeys && k in rec && rec[k].Text? ==> f[k] == rec[k].s
    ensures forall k :: k in FormKeys && k != "name" && (k !in rec || rec[k].Null?) ==> f[k] == ""
  {
    map k | k in FormKeys && (k != "name" || k in rec) :: CellText(rec, k)
  }

  /** The displayed record (None until it loads), the edit mode and the form.
      The load does not look at the response status, so a 404's error body is
      loaded as the record like any other (see AfterLoad). */
  datatype PageState = PageState(record: Option<Columns>, editing: bool, form: Form)

  /** `fetchEquipment`: show the record and fill the form from it. */
  function AfterLoad(st: PageState, data: Columns): PageState
  {
    st.(record := Some(data), form := FormFromRecord(data))
  }

  /** "Editar". */
  function StartEdit(st: PageState): PageState
  {
    st.(editing := true)
  }

  /** An input's onChange: `{ ...formData, k: value }`. */
  function Edit(st: PageState, k: string, value: string): PageState
  {
    st.(form := st.form[k := value])
  }

  /** A sequence of keystrokes, each setting one form field. */
  function ApplyEdits(st: PageState, edits: seq<(string, string)>): (r: PageState)
    ensures r.record == st.record && r.editing == st.editing
  {
    if |edits| == 0 then st
    else Edit(ApplyEdits(st, edits[..|edits| - 1]), edits[|edits| - 1].0, edits[|edits| - 1].1)
  }

  /** After a sequence of keystrokes every edited field holds the value of its
      last edit. */
  lemma {:induction false} ApplyEditsLastWins(st: PageState, edits: seq<(string, string)>)
    ensures forall i :: 0 <= i < |edits| && (forall j :: i < j < |edits| ==> edits[j].0 != edits[i].0) ==>
      (edits[i].0 in ApplyEdits(st, edits).form && ApplyEdits(st, edits).form[edits[i].0] == edits[i].1)
  {
    if |edits| > 0 {
      var n := |edits| - 1;
      var init := edits[..n];
      ApplyEditsLastWins(st, init);
      var form := ApplyEdits(st, edits).form;
      assert form == ApplyEdits(st, init).form[edits[n].0 := edits[n].1];
      forall i | 0 <= i < n && (forall j :: i < j < |edits| ==> edits[j].0 != edits[i].0)
        ensures edits[i].0 in form && form[edits[i].0] == edits[i].1
      {
        assert init[i] == edits[i];
        assert forall j :: i < j < n ==> init[j] == edits[j];
      }
    }
  }

  /** A field no keystroke touched keeps its value (and stays absent if it was). */
  lemma {:induction false} ApplyEditsKeepsOthers(st: PageState, edits: seq<(string, string)>, k: string)
    requires forall i :: 0 <= i < |edits| ==> edits[i].0 != k
    ensures k in ApplyEdits(st, edits).form <==> k in st.form
    ensures k in st.form ==> ApplyEdits(st, edits).form[k] == st.form[k]
  {
    if |edits| > 0 {
      var n := |edits| - 1;
      var init := edits[..n];
      assert forall i :: 0 <= i < n ==> init[i] == edits[i];
      ApplyEditsKeepsOthers(st, init, k);
      assert edits[n].0 != k;
    }
  }

  /** "Cancelar" (shown only once a record is displayed): leave edit mode and
      rebuild the form from the displayed record. */
  function Cancel(st: PageState): PageState
    requires st.record.Some?
  {
    st.(editing := false, form := FormFromRecord(st.record.value))
  }

  /** Whatever was typed, cancel returns the page to the state the load left
      it in, out of edit mode. */
  lemma CancelRestoresLoad(st: PageState, data: Columns, edits: seq<(string, string)>)
    ensures Cancel(ApplyEdits(StartEdit(AfterLoad(st, data)), edits)) == AfterLoad(st, data).(editing := false)
  {
  }

  /** `handleUpdate`'s response: the displayed record is replaced, and edit
      mode left, only when the response is ok; the form is kept as typed. */
  function AfterUpdate(st: PageState, ok: bool, data: Columns): (r: PageState)
    ensures !ok ==> r == st
    ensures ok ==> r.record == Some(data) && !r.editing && r.form == st.form
  {
    if ok then st.(record := Some(data), editing := false) else st
  }

  /** `JSON.stringify(formData)` as the server reads it. */
  function FormBody(form: Form): (body: Body)
    ensures body.Keys == form.Keys
    ensures forall k :: k in body ==> body[k] == JStr(form[k])
  {
    map k | k in form :: JStr(form[k])
  }

  /** A saved form is accepted exactly when its name is absent (left out by
      `JSON.stringify`) or not empty. */
  lemma FormBodyAccepted(form: Form)
    requires FormKeys - {"name"} <= form.Keys <= FormKeys
    ensures Accepts(UpdateEquipmentSchema, FormBody(form)) <==> ("name" in form ==> form["name"] != "")
  {
    var s := CreateEquipmentSchema;
    var body := FormBody(form);
    PartialAcceptsIff(s, body);
    assert s[0].key == "name" && s[0].check == Str(1);
    if "name" !in form || form["name"] != "" {
      forall i | 0 <= i < |s| && s[i].key in body ensures Passes(body[s[i].key], s[i].check) {
        if i > 0 { assert s[i].check == Str(0); }
      }
    }
  }

  lemma FormKeysInSchema()
    ensures FormKeys <= Keys(UpdateEquipmentSchema)
  {
    var s := UpdateEquipmentSchema;
    assert s[0].key == "name" && s[1].key == "category" && s[2].key == "manufacturer";
    assert s[3].key == "model" && s[4].key == "serial_number" && s[5].key == "purchase_date";
    assert s[6].key == "calibration_date" && s[7].key == "calibration_due_date";
    assert s[8].key == "responsible_technician" && s[9].key == "notes";
  }

  /** A form carries only schema keys, so validation keeps all of it. */
  lemma FormBodyKept(form: Form)
    requires form.Keys <= FormKeys
    ensures Strip(UpdateEquipmentSchema, FormBody(form)) == FormBody(form)
  {
    FormKeysInSchema();
  }

  /** Each form value binds `value || null`: "" binds null, text binds itself. */
  lemma FormPatch(rec: Columns)
    requires forall k :: k in FormKeys ==> k in rec && (rec[k] == Null || (rec[k].Text? && rec[k].s != ""))
    ensures PatchOf(FormBody(FormFromRecord(rec))) == map k | k in FormKeys :: rec[k]
  {
    var form := FormFromRecord(rec);
    var patch := PatchOf(FormBody(form));
    forall k | k in FormKeys ensures patch[k] == rec[k] {
      assert patch[k] == ValueOrNull(JStr(form[k]));
    }
  }

  /** Saving a form nobody edited writes every form column back as it was,
      for a record whose text columns are null or non-empty, as every create
      and update stores them. */
  lemma UneditedSaveWritesBack(rec: Columns)
    requires forall k :: k in FormKeys ==> k in rec && (rec[k] == Null || (rec[k].Text? && rec[k].s != ""))
    requires rec["name"] != Null
    ensures Accepts(UpdateEquipmentSchema, FormBody(FormFromRecord(rec)))
    ensures PatchOf(Strip(UpdateEquipmentSchema, FormBody(FormFromRecord(rec))))
      == map k | k in FormKeys :: rec[k]
  {
    var form := FormFromRecord(rec);
    FormBodyAccepted(form);
    FormBodyKept(form);
    FormPatch(rec);
  }

  /** A record without `name`, such as the error body of a 404 loaded as the
      record, gives a form whose save is accepted and does not touch `name`. */
  lemma NamelessRecordSaves(rec: Columns)
    requires "name" !in rec
    ensures Accepts(UpdateEquipmentSchema, FormBody(FormFromRecord(rec)))
    ensures "name" !in PatchOf(Strip(UpdateEquipmentSchema, FormBody(FormFromRecord(rec))))
  {
    var form := FormFromRecord(rec);
    FormBodyAccepted(form);
    FormBodyKept(form);
  }

  /** The two status badges: "Calibração Vencida" when overdue, and
      "Calibração Próxima" when due soon and not overdue. */
  datatype Badges = Badges(overdue: bool, soon: bool)

  function BadgesFor(due: Option<int>, now: int): (b: Badges)
    ensures b.overdue <==> IsOverdue(due, now)
    ensures b.soon <==> IsDueSoon(due, now)
    ensures !(b.overdue && b.soon)
    ensures due.None? ==> !b.overdue && !b.soon
  {
    Badges(IsOverdue(due, now), IsDueSoon(due, now) && !IsOverdue(due, now))
  }
}
