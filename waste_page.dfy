/** The waste-management page (src/react-app/pages/Waste.tsx): the list of
    rooms of the selected clinic's plan, adding and removing rooms, the
    add-button rule, the group labels shown per room, and where a save goes.
    The plan's `plan_data` is the JSON text of the room list; the encoding
    and decoding are taken as parameters. */
module WastePage {
  import opened Common
  import opened Ordering
  import opened Schemas
  import opened Records
  import opened Patch

  datatype WasteRoom = WasteRoom(
    name: string,
    groupA: bool, groupB: bool, groupC: bool, groupD: bool, groupE: bool,
    container: string, frequency: string)

  /** The blank room the add-room form starts from. */
  const EmptyRoom := WasteRoom("", false, false, false, false, false, "", "")

  /** A loaded plan as the page keeps it. */
  datatype Plan = Plan(id: nat, planData: string)

  datatype PageState = PageState(
    selectedClinic: string, plan: Option<Plan>, rooms: seq<WasteRoom>,
    showRoomModal: bool, newRoom: WasteRoom)

  // ---- groups ----

  datatype GroupKey = A | B | C | D | E

  datatype Group = Group(key: GroupKey, caption: string)

  /** `wasteGroups`, in the order the page lists them. */
  const WasteGroups: seq<Group> := [
    Group(A, "Grupo A - Biológico"), Group(B, "Grupo B - Químico"),
    Group(C, "Grupo C - Radioativo"), Group(D, "Grupo D - Comum"),
    Group(E, "Grupo E - Perfurocortante")]

  /** `room[group.key]`. */
  function Flag(room: WasteRoom, k: GroupKey): bool
  {
    match k
    case A => room.groupA
    case B => room.groupB
    case C => room.groupC
    case D => room.groupD
    case E => room.groupE
  }

  /** Position of a group in A-E order. */
  function Rank(g: Group): int
  {
    match g.key
    case A => 0
    case B => 1
    case C => 2
    case D => 3
    case E => 4
  }

  function FlagSet(room: WasteRoom): Group -> bool
  {
    (g: Group) => Flag(room, g.key)
  }

  /** The group badges a room card shows. */
  function ShownGroups(room: WasteRoom): seq<Group>
  {
    Filter(WasteGroups, FlagSet(room))
  }

  /** A room shows exactly the groups whose flag is set, in A-E order. */
  lemma ShownGroupsSpec(room: WasteRoom)
    ensures forall g :: g in ShownGroups(room) <==> g in WasteGroups && Flag(room, g.key)
    ensures Increasing(ShownGroups(room), Rank)
  {
    forall g | g in WasteGroups && Flag(room, g.key) ensures g in ShownGroups(room) {
      FilterComplete(WasteGroups, FlagSet(room), g);
    }
    assert Increasing(WasteGroups, Rank);
    FilterIncreasing(WasteGroups, FlagSet(room), Rank);
  }

  // ---- editing the room list ----

  /** The add button's `disabled` expression. */
  predicate AddDisabled(room: WasteRoom)
  {
    room.name == "" || room.container == "" || room.frequency == ""
    || !(room.groupA || room.groupB || room.groupC || room.groupD || room.groupE)
  }

  /** A room that can be added shows at least one group badge; the blank
      room cannot be added. */
  lemma AddableRoomShowsGroup(room: WasteRoom)
    ensures !AddDisabled(room) ==> |ShownGroups(room)| >= 1
    ensures AddDisabled(EmptyRoom)
  {
    if !AddDisabled(room) {
      var k :| k in {A, B, C, D, E} && Flag(room, k);
      var g := WasteGroups[Rank(Group(k, ""))];
      assert g.key == k && g in WasteGroups;
      FilterComplete(WasteGroups, FlagSet(room), g);
    }
  }

  /** `handleAddRoom`: append the new room, blank the form, close the modal. */
  function AddRoom(st: PageState): (r: PageState)
    ensures |r.rooms| == |st.rooms| + 1
    ensures r.rooms[..|st.rooms|] == st.rooms && r.rooms[|st.rooms|] == st.newRoom
    ensures r.newRoom == EmptyRoom && !r.showRoomModal
    ensures r.selectedClinic == st.selectedClinic && r.plan == st.plan
  {
    st.(rooms := st.rooms + [st.newRoom], newRoom := EmptyRoom, showRoomModal := false)
  }

  /** `rooms.filter((_, i) => i !== index)`. */
  function WithoutIndex<T>(s: seq<T>, index: int): (r: seq<T>)
    ensures |r| <= |s|
  {
    if |s| == 0 then []
    else if |s| - 1 == index then WithoutIndex(s[..|s| - 1], index)
    else WithoutIndex(s[..|s| - 1], index) + [s[|s| - 1]]
  }

  /** Removing index i drops exactly that element and keeps the rest in
      order; an index out of range removes nothing. */
  lemma {:induction false} WithoutIndexSpec<T>(s: seq<T>, index: int)
    ensures 0 <= index < |s| ==> WithoutIndex(s, index) == s[..index] + s[index + 1..]
    ensures !(0 <= index < |s|) ==> WithoutIndex(s, index) == s
  {
    if |s| > 0 {
      var n := |s| - 1;
      var init := s[..n];
      WithoutIndexSpec(init, index);
      if index == n {
        assert s[..index] + s[index + 1..] == init;
      } else if 0 <= index < n {
        assert init[..index] == s[..index];
        assert init[index + 1..] + [s[n]] == s[index + 1..];
      } else {
        assert init + [s[n]] == s;
      }
    }
  }

  /** `handleRemoveRoom(index)`. */
  function RemoveRoom(st: PageState, index: int): PageState
  {
    st.(rooms := WithoutIndex(st.rooms, index))
  }

  /** Adding a room and removing it again by its index restores the list. */
  lemma AddThenRemove(st: PageState)
    ensures RemoveRoom(AddRoom(st), |st.rooms|).rooms == st.rooms
  {
    var r := AddRoom(st).rooms;
    WithoutIndexSpec(r, |st.rooms|);
    assert r[..|st.rooms|] == st.rooms;
  }

  // ---- loading and saving the plan ----

  /** `fetchPlan`, once a clinic is selected. */
  function FetchRequest(st: PageState): (r: Option<Request>)
    ensures r.None? <==> st.selectedClinic == ""
    ensures r.Some? ==>
      r.value.verb == Get && r.value.url == "/api/clinics/" + st.selectedClinic + "/waste-plan"
  {
    if st.selectedClinic == "" then None
    else Some(Request(Get, "/api/clinics/" + st.selectedClinic + "/waste-plan", map[]))
  }

  /** The plan response: a plan loads its rooms from `plan_data`; `null`
      clears the plan and the rooms. */
  function AfterFetch(st: PageState, data: Option<Plan>, decode: string -> seq<WasteRoom>): (r: PageState)
    ensures data.None? ==> r.plan.None? && r.rooms == []
    ensures data.Some? ==> r.plan == data && r.rooms == decode(data.value.planData)
    ensures r.selectedClinic == st.selectedClinic && r.newRoom == st.newRoom
  {
    match data
    case Some(p) => st.(plan := Some(p), rooms := decode(p.planData))
    case None => st.(plan := None, rooms := [])
  }

  /** The fetch effect depends on the selected clinic only: loading the plan
      does not change which request the page would send. */
  lemma FetchAfterFetchSame(st: PageState, data: Option<Plan>, decode: string -> seq<WasteRoom>)
    ensures FetchRequest(AfterFetch(st, data, decode)) == FetchRequest(st)
  {
  }

  /** The body a save sends: the rooms' JSON as `plan_data` and status "draft". */
  function SaveBody(rooms: seq<WasteRoom>, encode: seq<WasteRoom> -> string): Body
  {
    map["plan_data" := JStr(encode(rooms)), "status" := JStr("draft")]
  }

  /** `handleSave`: nothing without a clinic; a PUT to the loaded plan, or a
      POST of a new plan for the selected clinic when none is loaded. */
  function SaveRequest(st: PageState, encode: seq<WasteRoom> -> string): (r: Option<Request>)
    ensures r.None? <==> st.selectedClinic == ""
    ensures r.Some? && st.plan.Some? ==>
      (r.value.verb == Put && r.value.url == "/api/waste-plan/" + NatToString(st.plan.value.id))
    ensures r.Some? && st.plan.None? ==>
      (r.value.verb == Post && r.value.url == "/api/clinics/" + st.selectedClinic + "/waste-plan")
    ensures r.Some? ==> r.value.body == SaveBody(st.rooms, encode)
  {
    if st.selectedClinic == "" then None
    else
      var url := if st.plan.Some? then "/api/waste-plan/" + NatToString(st.plan.value.id)
                 else "/api/clinics/" + st.selectedClinic + "/waste-plan";
      Some(Request(if st.plan.Some? then Put else Post, url, SaveBody(st.rooms, encode)))
  }

  /** A save response: when ok the returned plan becomes the loaded plan. */
  function AfterSave(st: PageState, ok: bool, saved: Plan): (r: PageState)
    ensures !ok ==> r == st
    ensures ok ==> r.plan == Some(saved) && r.rooms == st.rooms
  {
    if ok then st.(plan := Some(saved)) else st
  }

  /** Once a save has answered with a plan, the next save updates that plan. */
  lemma SaveAfterSaveUpdates(st: PageState, saved: Plan, encode: seq<WasteRoom> -> string)
    requires st.selectedClinic != ""
    ensures var next := SaveRequest(AfterSave(st, true, saved), encode);
      next.Some? && next.value.verb == Put && next.value.url == "/api/waste-plan/" + NatToString(saved.id)
  {
  }

  /** The saved body passes both plan schemas; a POST stores the encoded
      rooms with status "draft", and a PUT writes exactly those two columns. */
  lemma SaveBodyStored(rooms: seq<WasteRoom>, encode: seq<WasteRoom> -> string, user: string)
    ensures Accepts(CreateWasteManagementPlanSchema, SaveBody(rooms, encode))
    ensures Accepts(UpdateWasteManagementPlanSchema, SaveBody(rooms, encode))
    ensures var cols := PlanColumns(Strip(CreateWasteManagementPlanSchema, SaveBody(rooms, encode)), user);
      cols["plan_data"] == Text(encode(rooms)) && cols["status"] == Text("draft")
    ensures PatchOf(Strip(UpdateWasteManagementPlanSchema, SaveBody(rooms, encode)))
      == map["plan_data" := ValueOrNull(JStr(encode(rooms))), "status" := Text("draft")]
  {
    var body := SaveBody(rooms, encode);
    CreateWastePlanAccepts(body);
    PartialWeakens(CreateWasteManagementPlanSchema, body);
    var s := CreateWasteManagementPlanSchema;
    assert s[0].key == "plan_data" && s[2].key == "status";
    assert Strip(s, body) == body;
    var u := UpdateWasteManagementPlanSchema;
    assert u[0].key == "plan_data" && u[2].key == "status";
    assert Strip(u, body) == body;
  }

  /** With an encoding that decoding inverts, reloading a saved plan gives
      back the rooms that were saved. */
  lemma ReloadAfterSave(st: PageState, id: nat, encode: seq<WasteRoom> -> string,
                        decode: string -> seq<WasteRoom>)
    requires forall rs :: decode(encode(rs)) == rs
    ensures AfterFetch(st, Some(Plan(id, encode(st.rooms))), decode).rooms == st.rooms
  {
  }
}
