# CliniGest core, modelled in Dafny

CliniGest is a clinic-compliance web application. A Cloudflare Worker serves a JSON API over a SQL database. A React front end calls the API. This project models and proves properties of the following parts:

- **The API** (`src/worker/index.ts`). `Api.Worker` is a class that owns the tables: clinics, equipment, manuals, routine tasks, check-ins, waste-management plans, partners and health documents. It has one method per route handler.
  - Every clinic-scoped handler first looks the clinic up by id and owner. A clinic that does not exist and a clinic owned by someone else give the same NotFound, and the request writes nothing.
  - Creates bind optional fields through `value || null` and fill the manual and plan defaults.
  - The PUT handlers collect one `column = ?` assignment per supplied key. They run an UPDATE, which also stamps `updated_at`, only when that list is non-empty. They then answer with the row selected again by id.
  - DELETE of equipment clears `is_active`. DELETE of a manual removes the row.
  - List queries are a WHERE filter plus an ORDER BY, plus a LIMIT for check-ins.
  - The SQL involved is modelled as functions on append-ordered sequences in `Tables` and `Ordering`.
- **The request validators** (`src/shared/types.ts`). Each zod schema is data: a list of fields with a check and a required flag.
  - `Accepts` says what `parse` accepts.
  - `Strip` drops unknown keys.
  - `Partial` is `.partial()`.
- **The pages.** They use the due-date rule shared by the clinic, equipment and health pages (`DueDates`) and the page logic of ClinicDetail, Equipment, Health and Waste. `Layout` holds the navigation highlight rule.

Ids come from one fresh counter, and `CURRENT_TIMESTAMP` is a clock that ticks once per write. So ids and creation times strictly increase along every table (`Tables.RowsOk`, `Tables.ClinicsOk`), and every writing method keeps that invariant. This is what makes "ORDER BY created_at DESC" the reverse of the table order.

A rejected body is answered with `Invalid`. The code does not catch the `ZodError` that `parse` throws, so the answer is the framework's generic 500 server error, not a 400. `Invalid` stands for that uncaught-error 500; it is kept apart from `ServerError` only so that the contracts can say which check failed. Nothing is written either way.

## Model

Most query, record and page functions that only compute a value carry no contract of their own. Each is specified by a lemma that cites the same lines, and that lemma's row names it as "(specifies `F`)". `Schemas.Accepts` is stated schema by schema by the `Create…Accepts` lemmas and, for the update schemas, by `Schemas.PartialAcceptsIff`.

| member | source | states |
|---|---|---|
| Common.ValueOrNull | src/worker/index.ts:335 | `value \|\| null` binds null exactly for a falsy value ("", 0, false, null) and binds a non-empty string as itself |
| Common.OrDefault | src/worker/index.ts:431-432 | a missing or falsy field takes the fallback; a non-empty string is kept |
| Common.ParseInt | src/react-app/pages/Health.tsx:326 | `parseInt` is NaN (None) exactly when the text does not start with a digit, or starts with "0x"/"0X" not followed by a hex digit |
| Common.ParseIntExamples | src/react-app/pages/Health.tsx:326 | decimal parsing stops at the first non-digit ("12ab" is 12), "0x1f" is 31, "0x" and "x1" are NaN |
| Common.ParseIntOfNatToString | src/react-app/pages/Health.tsx:326 | parsing the decimal rendering of an id gives the id back |
| Common.DigitsValueOfNatToString | src/react-app/pages/Health.tsx:326 | the digits of `String(n)` have the value n |
| Ordering.Filter | src/worker/index.ts:98-102 | WHERE keeps only matching rows of the table, and no more rows than it has |
| Ordering.FilterComplete | src/worker/index.ts:98-102 | WHERE keeps every matching row |
| Ordering.FilterAppend | src/worker/index.ts:704-715 | filtering a table after an INSERT is the old result plus the new row if it matches |
| Ordering.FilterPrepend | src/react-app/pages/ClinicDetail.tsx:66-68 | filtering a list with an item put in front keeps it in front if it matches |
| Ordering.FilterDisjoint | src/react-app/pages/ClinicDetail.tsx:165-175 | two filters that never keep the same item keep at most the list's length together |
| Ordering.FilterIncreasing | src/worker/index.ts:98-102 | WHERE preserves the table's order |
| Ordering.Reverse | src/worker/index.ts:98-102 | the reverse holds the same rows, last first |
| Ordering.ReverseMembers | src/worker/index.ts:98-102 | reversing neither adds nor loses a row |
| Ordering.ReverseOfIncreasing | src/worker/index.ts:98-102 | ORDER BY created_at DESC over an append-ordered table is newest first |
| Ordering.Limit | src/worker/index.ts:610-614 | LIMIT n keeps the first min(n, length) rows |
| Ordering.LimitKeepsGreatest | src/worker/index.ts:610-614 | LIMIT over a descending order keeps a sub-multiset, and nothing it leaves out sorts later than anything it keeps |
| Ordering.TextLeTotal | src/worker/index.ts:787 | any two names are ordered one way or the other |
| Ordering.TextLeTransitive | src/worker/index.ts:787 | the text order is transitive |
| Ordering.TextLeAntisymmetric | src/worker/index.ts:787 | names ordered both ways are equal |
| Ordering.Insert | src/worker/index.ts:787 | inserting adds exactly the one row |
| Ordering.SortBy | src/worker/index.ts:787 | ORDER BY a text column is a permutation of the rows |
| Ordering.InsertSorted | src/worker/index.ts:787 | inserting into a sorted list keeps it sorted |
| Ordering.SortBySorted | src/worker/index.ts:787 | ORDER BY a text column yields ascending order |
| Ordering.ReverseOfSorted | src/worker/index.ts:610-614 | ORDER BY a text column DESC yields descending order |
| Schemas.Strip | src/shared/types.ts:17-26 | the parsed data has exactly the body's keys that the schema declares, with their values |
| Schemas.Parse | src/shared/types.ts:17-26 | parse succeeds exactly when the schema accepts the body, and returns the stripped body |
| Schemas.Partial | src/shared/types.ts:26 | `.partial()` makes every field optional and keeps every check |
| Schemas.PartialAcceptsEmpty | src/shared/types.ts:26 | every update schema accepts `{}` |
| Schemas.PartialWeakens | src/shared/types.ts:26 | every update schema accepts what its create schema accepts |
| Schemas.PartialKeepsChecks | src/shared/types.ts:70 | a field present in an update body still has to pass its create-time check |
| Schemas.PartialAcceptsIff | src/shared/types.ts:26 | an update body is accepted iff every present field passes its check |
| Schemas.ParseIdempotent | src/shared/types.ts:17-26 | parsing validated data again accepts it and changes nothing |
| Schemas.CreateClinicAccepts | src/shared/types.ts:17-24 | (specifies `Accepts`) a clinic body is valid iff `name` is a string of length at least 1 and the other five fields are absent or strings |
| Schemas.CreateEquipmentAccepts | src/shared/types.ts:54-68 | equipment needs a non-empty `name`; the twelve other fields are optional strings |
| Schemas.CreateManualAccepts | src/shared/types.ts:90-96 | a manual needs non-empty `title` and `type` |
| Schemas.CreateRoutineTaskAccepts | src/shared/types.ts:117-122 | a routine task needs non-empty `title` and `frequency` |
| Schemas.CreateCheckinAccepts | src/shared/types.ts:143-148 | a check-in needs a `completed_at` string, which may be empty |
| Schemas.CreateWastePlanAccepts | src/shared/types.ts:165-169 | a plan needs a `plan_data` string |
| Schemas.CreateHealthDocumentAccepts | src/shared/types.ts:210-216 | a health document needs a non-empty `document_type`, and a present `partner_id` must be a number |
| Schemas.UpdateRejectsEmptyName | src/shared/types.ts:70 | `name: ""` is rejected on update of equipment and of clinics |
| Tables.OwnedClinic | src/worker/index.ts:222-230 | finds a clinic with that id and that owner; None iff no clinic has both |
| Tables.OwnedRow | src/worker/index.ts:296-302 | finds a row with that id in a clinic the caller owns; None iff there is none |
| Tables.RowById | src/worker/index.ts:349-353 | SELECT by id: finds a row with that id; None iff there is none |
| Tables.ClinicById | src/worker/index.ts:128-130 | SELECT clinic by id: finds it; None iff there is none |
| Tables.OwnedRowIsRowById | src/worker/index.ts:349-353 | selecting again by id returns the row the ownership lookup found |
| Tables.ClinicsOfSpec | src/worker/index.ts:98-102 | (specifies `ClinicsOf`) GET clinics lists exactly the caller's clinics, each once (the multiset of the filtered table), strictly newest first |
| Tables.ChildrenOfSpec | src/worker/index.ts:232-236 | (specifies `ChildrenOf`) a clinic's list holds exactly its rows (active ones only where the query says so), each once (the multiset of the filtered table), strictly newest first |
| Tables.CheckinsOfSpec | src/worker/index.ts:610-614 | (specifies `CheckinsOf`) the check-in list has min(50, all) entries, all of that task, and all of them when there are at most 50 |
| Tables.CheckinsOfLatest | src/worker/index.ts:610-614 | the kept check-ins are a sub-multiset of the task's, and no left-out check-in is later by `completed_at` than a kept one: the 50 latest |
| Tables.CheckinsOfOrder | src/worker/index.ts:610-614 | the check-in list is ordered by `completed_at` descending |
| Tables.PartnersOfSpec | src/worker/index.ts:772-790 | (specifies `PartnersOf`) GET partners lists exactly the active partners (of the category, when one is given), as the multiset of the filtered catalogue, by name |
| Tables.LatestPlanSpec | src/worker/index.ts:674-682 | (specifies `LatestPlan`) GET waste-plan gives None iff the clinic has no plan, else the plan with the greatest `created_at` |
| Tables.LatestPlanWins | src/worker/index.ts:704-715 | a plan just created is the one GET waste-plan returns |
| Tables.PatchWhere | src/worker/index.ts:342-346 | UPDATE ... WHERE id = ? changes only rows with that id, setting the columns and `updated_at` |
| Tables.DeactivateWhere | src/worker/index.ts:374-376 | `is_active = 0` changes only that row's flag |
| Tables.PatchClinicWhere | src/worker/index.ts:201-205 | the clinic UPDATE changes only that clinic, setting the columns and `updated_at` |
| Tables.PatchWhereEffect | src/worker/index.ts:338-347 | after an UPDATE the row found by id carries the patch and the new `updated_at`, and every other row is kept |
| Tables.DeactivateEffect | src/worker/index.ts:374-376 | a deleted piece of equipment is still found by id and still owned, but is in no active list |
| Tables.DeleteEffect | src/worker/index.ts:526-528 | (specifies `DeleteWhere`) a deleted manual is found by no lookup; every other row is kept |
| Tables.RowsOkAppend | src/worker/index.ts:258-281 | an INSERT with the fresh id and the current time keeps ids and times increasing |
| Tables.ClinicsOkAppend | src/worker/index.ts:113-126 | a clinic INSERT keeps ids and times increasing |
| Tables.ClinicsOkPatch | src/worker/index.ts:197-205 | a clinic UPDATE keeps ids and creation times |
| Tables.RowsOkDelete | src/worker/index.ts:526-528 | a DELETE keeps ids and times increasing |
| Tables.SameRowKeysOk | src/worker/index.ts:374-376 | a statement that keeps every row's id and creation time keeps the invariant |
| Records.ClinicCreateColumns | src/worker/index.ts:113-126 | (specifies `ClinicColumns`) a created clinic stores the name as given and each empty or missing optional field as null |
| Records.EquipmentCreateColumns | src/worker/index.ts:258-281 | (specifies `EquipmentColumns`) created equipment stores the name and each optional field as text or null |
| Records.ManualCreateDefaults | src/worker/index.ts:422-435 | (specifies `ManualColumns`) a created manual defaults `version` to "1.0" and `status` to "draft", and `created_by` is the caller |
| Records.TaskCreateColumns | src/worker/index.ts:574-585 | (specifies `TaskColumns`) a created task stores title and frequency as given, the others as text or null |
| Records.CheckinCreateColumns | src/worker/index.ts:638-650 | (specifies `CheckinColumns`) a check-in's `completed_by` is the caller and `completed_at` is as sent |
| Records.PlanCreateColumns | src/worker/index.ts:704-715 | (specifies `PlanColumns`) a plan stores `plan_data` as sent, `status` defaulting to "draft", `created_by` the caller |
| Records.DocumentCreateColumns | src/worker/index.ts:833-845 | (specifies `DocumentColumns`) `partner_id` is stored as null when missing or 0, as the number otherwise; text fields as for every create |
| Patch.PatchOf | src/worker/index.ts:333-336 | a PUT writes exactly the supplied keys, each as `value \|\| null` |
| Patch.EntryKeysSpec | src/worker/index.ts:333 | `Object.entries` visits exactly the supplied keys |
| Patch.Assignments | src/worker/index.ts:338-346 | an assignment list sets exactly the columns it names |
| Patch.AssignmentsArePatch | src/worker/index.ts:333-336 | the collected assignments set exactly the patch |
| Patch.CollectAssignments | src/worker/index.ts:330-336 | the forEach collects one assignment per supplied key, in schema order, setting exactly the patch |
| Patch.ClinicUpdateFields | src/worker/index.ts:172-195 | the clinic if-chain covers every schema key, and `name` as given equals `name \|\| null` |
| Patch.CollectClinicAssignments | src/worker/index.ts:169-195 | the clinic if-chain sets exactly the patch |
| Patch.Reselect | src/worker/index.ts:349-355 | the answer is the row selected again by id, or an error when it is gone |
| Patch.UpdateRow | src/worker/index.ts:311-356 | a PUT by a non-owner or for a missing row is NotFound, and one with an invalid body is Invalid, with nothing written |
| Patch.PatchTable | src/worker/index.ts:311-356 | the PUT handler body computes exactly `UpdateRow` |
| Patch.UpdateRowEmptyPatch | src/worker/index.ts:338-353 | an empty patch runs no UPDATE: the row, `updated_at` included, comes back unchanged |
| Patch.UpdateRowWrites | src/worker/index.ts:338-355 | a non-empty patch writes its columns and `updated_at` into that row only, unless it puts null into a non-null column |
| Patch.UpdateRowKeepsOk | src/worker/index.ts:338-347 | every PUT keeps ids and times increasing |
| Patch.UpdateClinic | src/worker/index.ts:152-214 | the clinic PUT answers NotFound for a clinic the caller does not own, and Invalid for a bad body, writing nothing |
| Patch.PatchClinics | src/worker/index.ts:152-214 | the clinic PUT handler body computes exactly `UpdateClinic` |
| Patch.UpdateClinicKeepsOk | src/worker/index.ts:197-205 | the clinic PUT keeps ids and times increasing |
| Patch.UpdateClinicEffect | src/worker/index.ts:197-214 | an empty clinic patch changes nothing; otherwise the clinic gets the patch and `updated_at` and keeps its owner, and no other clinic changes |
| Api.InsertFresh | src/worker/index.ts:283-287 | the row just inserted is what SELECT by the new id returns |
| Api.InsertFreshClinic | src/worker/index.ts:128-130 | the clinic just inserted is what SELECT by the new id returns |
| Api.Worker.constructor | src/worker/index.ts:32 | the service starts with empty tables and the given partner catalogue |
| Api.Worker.InsertEquipment | src/worker/index.ts:258-281 | `INSERT INTO equipment` appends the row with the next id and the current time, advances both, keeps the id and time invariant, and SELECT by the new id finds it |
| Api.Worker.InsertManual | src/worker/index.ts:422-435 | `INSERT INTO manuals` appends the row with the next id and the current time, advances both, keeps the id and time invariant, and SELECT by the new id finds it |
| Api.Worker.InsertTask | src/worker/index.ts:574-585 | `INSERT INTO routine_tasks` appends the row with the next id and the current time, advances both, keeps the id and time invariant, and SELECT by the new id finds it |
| Api.Worker.InsertCheckin | src/worker/index.ts:638-650 | `INSERT INTO routine_checkins` appends the row with the next id and the current time, advances both, keeps the id and time invariant, and SELECT by the new id finds it |
| Api.Worker.InsertPlan | src/worker/index.ts:704-715 | `INSERT INTO waste_management_plans` appends the row with the next id and the current time, advances both, keeps the id and time invariant, and SELECT by the new id finds it |
| Api.Worker.InsertDocument | src/worker/index.ts:833-845 | `INSERT INTO health_documents` appends the row with the next id and the current time, advances both, keeps the id and time invariant, and SELECT by the new id finds it |
| Api.Worker.ListClinics | src/worker/index.ts:95-105 | exactly the caller's clinics, each once, strictly newest first |
| Api.Worker.CreateClinic | src/worker/index.ts:107-133 | Invalid and no write for a bad body; otherwise the clinic is appended with the caller as owner and returned as Created |
| Api.Worker.GetClinic | src/worker/index.ts:135-150 | NotFound iff no clinic has that id and that owner, else that clinic |
| Api.Worker.PutClinic | src/worker/index.ts:152-215 | the new clinics table and answer are `UpdateClinic`'s; nothing else changes |
| Api.Worker.ListEquipment | src/worker/index.ts:218-239 | NotFound iff the clinic is not the caller's; else exactly its active equipment, each once (the multiset of the filtered table), strictly newest first |
| Api.Worker.CreateEquipment | src/worker/index.ts:241-290 | NotFound or Invalid with no write; else the new row is appended and returned as Created |
| Api.Worker.GetEquipment | src/worker/index.ts:292-309 | NotFound iff no row with that id is in a clinic of the caller's, else that row, active or not |
| Api.Worker.PutEquipment | src/worker/index.ts:311-356 | the new equipment table and answer are `UpdateRow`'s with the equipment schema |
| Api.Worker.DeleteEquipment | src/worker/index.ts:358-379 | NotFound with no write, or Success with only that row's `is_active` cleared |
| Api.Worker.ListManuals | src/worker/index.ts:382-403 | NotFound iff the clinic is not the caller's; else exactly its manuals, each once (the multiset of the filtered table), strictly newest first |
| Api.Worker.CreateManual | src/worker/index.ts:405-442 | NotFound or Invalid with no write; else the manual with its defaults is appended and returned |
| Api.Worker.GetManual | src/worker/index.ts:444-461 | NotFound iff no manual with that id is in a clinic of the caller's, else that manual |
| Api.Worker.PutManual | src/worker/index.ts:463-508 | the new manuals table and answer are `UpdateRow`'s with the manual schema |
| Api.Worker.DeleteManual | src/worker/index.ts:510-531 | NotFound with no write, or Success with that row removed |
| Api.Worker.ListTasks | src/worker/index.ts:534-555 | NotFound iff the clinic is not the caller's; else exactly its active tasks, each once (the multiset of the filtered table), strictly newest first |
| Api.Worker.CreateTask | src/worker/index.ts:557-592 | NotFound or Invalid with no write; else the task is appended and returned |
| Api.Worker.ListCheckins | src/worker/index.ts:594-617 | NotFound iff the task is not in a clinic of the caller's; else its min(50, all) latest check-ins by `completed_at`, none left out later than one kept, latest first |
| Api.Worker.CreateCheckin | src/worker/index.ts:619-657 | NotFound or Invalid with no write; else the check-in is appended with the caller as `completed_by` |
| Api.Worker.GetWastePlan | src/worker/index.ts:660-685 | NotFound iff the clinic is not the caller's; NoPlan iff it has no plan; else its newest plan |
| Api.Worker.CreateWastePlan | src/worker/index.ts:687-722 | NotFound or Invalid with no write; else the plan is appended and returned |
| Api.Worker.PutWastePlan | src/worker/index.ts:724-769 | the new plans table and answer are `UpdateRow`'s with the plan schema |
| Api.Worker.ListPartners | src/worker/index.ts:772-790 | exactly the active partners, of the category when one is given, as the multiset of the filtered catalogue, sorted by name |
| Api.Worker.ListDocuments | src/worker/index.ts:793-814 | NotFound iff the clinic is not the caller's; else exactly its documents, each once (the multiset of the filtered table), strictly newest first |
| Api.Worker.CreateDocument | src/worker/index.ts:816-852 | NotFound or Invalid with no write; else the document is appended and returned |
| DueDates.DaysUntil | src/react-app/pages/ClinicDetail.tsx:94 | the whole days until the due date, rounded down |
| DueDates.IsDueSoon | src/react-app/pages/ClinicDetail.tsx:90-96 | due soon iff the date lies in [now, now + 31 days); never together with overdue (the same rule as Equipment.tsx:107-113 and Health.tsx:93-99) |
| DueDates.IsOverdue | src/react-app/pages/ClinicDetail.tsx:98-103 | overdue iff a date is present and its day count is negative, that is, it lies before now (the same rule as Equipment.tsx:115-120 and Health.tsx:101-106) |
| DueDates.Examples | src/react-app/pages/ClinicDetail.tsx:90-103 | 10 days ahead is due soon, 1 ms past is overdue, 60 days ahead is neither; the window closes at 31 days |
| ClinicDetailPage.CountDueSoon | src/react-app/pages/ClinicDetail.tsx:165 | the due-soon count is at most the number of items |
| ClinicDetailPage.CountOverdue | src/react-app/pages/ClinicDetail.tsx:175 | the overdue count is at most the number of items |
| ClinicDetailPage.CountsWithinTotal | src/react-app/pages/ClinicDetail.tsx:165-175 | the two counts add up to at most the number of items |
| ClinicDetailPage.DateColour | src/react-app/pages/ClinicDetail.tsx:256-262 | red iff overdue, amber iff due soon, neutral iff neither |
| ClinicDetailPage.AfterCreateCounts | src/react-app/pages/ClinicDetail.tsx:66-68 | (specifies `AfterCreate`) a create puts the new item first and moves each count by one exactly when the item belongs to it |
| EquipmentPage.FormFromRecord | src/react-app/pages/Equipment.tsx:29-40 | the form holds the ten form fields, except `name` when the record has none (it is copied without a fallback, so it stays undefined); each column's text is kept as it is, and every other null or missing column becomes "" |
| EquipmentPage.ApplyEdits | src/react-app/pages/Equipment.tsx:199-311 | (specifies `Edit`) typing into the form changes neither the displayed record nor the edit mode |
| EquipmentPage.ApplyEditsLastWins | src/react-app/pages/Equipment.tsx:199-311 | after the keystrokes each edited field holds the value of its last edit |
| EquipmentPage.ApplyEditsKeepsOthers | src/react-app/pages/Equipment.tsx:199-311 | a field no keystroke touched keeps its value, and stays absent if it was |
| EquipmentPage.CancelRestoresLoad | src/react-app/pages/Equipment.tsx:139-152 | (specifies `AfterLoad`, `StartEdit` and `Cancel`) whatever was typed, cancel returns the page to the state the load left it in, out of edit mode |
| EquipmentPage.AfterUpdate | src/react-app/pages/Equipment.tsx:57-61 | the displayed record is replaced, and edit mode left, only when the response is ok |
| EquipmentPage.FormBody | src/react-app/pages/Equipment.tsx:54 | the request body carries every form field as a string |
| EquipmentPage.FormBodyAccepted | src/react-app/pages/Equipment.tsx:48-55 | the server accepts a saved form iff its name is absent or not empty |
| EquipmentPage.FormPatch | src/react-app/pages/Equipment.tsx:29-40 | a form filled from a record binds each column back to its own value |
| EquipmentPage.UneditedSaveWritesBack | src/react-app/pages/Equipment.tsx:48-61 | saving an unedited form writes every form column back as it was |
| EquipmentPage.NamelessRecordSaves | src/react-app/pages/Equipment.tsx:24-55 | a record without `name`, such as a 404's error body loaded as the record, gives a form whose save is accepted and leaves `name` unchanged |
| EquipmentPage.BadgesFor | src/react-app/pages/Equipment.tsx:328-339 | the overdue badge iff overdue, the due-soon badge iff due soon, never both, none without a date |
| HealthPage.Badge | src/react-app/pages/Health.tsx:160-170 | a badge iff expired or expiring; "Vencido" whenever expired; "Vence em breve" iff expiring soon |
| HealthPage.PartnerSelection | src/react-app/pages/Health.tsx:326 | "" selects no partner; a value starting with a digit selects its number, unless it is "0x"/"0X" with no hex digit after; anything else is NaN |
| HealthPage.PartnerOptionSelects | src/react-app/pages/Health.tsx:321-337 | choosing a partner's option selects that partner's id |
| HealthPage.SubmitBody | src/react-app/pages/Health.tsx:64-70 | the body has exactly the four text fields, plus `partner_id`; each text field is sent as it stands in the form; `partner_id` is sent iff a partner is set, as the parsed id or, for NaN, as null |
| HealthPage.SubmitRequest | src/react-app/pages/Health.tsx:57-71 | nothing is sent iff no clinic is selected; otherwise a POST to that clinic's health documents |
| HealthPage.SubmitAccepted | src/react-app/pages/Health.tsx:64-70 | the server accepts a submitted form iff a document type is chosen and the partner is not NaN |
| HealthPage.SubmitStoresPartner | src/react-app/pages/Health.tsx:64-70 | no partner is stored as null, a chosen partner as its id, the type as chosen |
| HealthPage.AfterSubmit | src/react-app/pages/Health.tsx:73-84 | on ok the new document goes first, the modal closes and the form empties; otherwise nothing changes |
| HealthPage.SubmitAgainNeedsClinic | src/react-app/pages/Health.tsx:77-84 | after a successful submit, submitting again sends nothing until a clinic is chosen |
| WastePage.ShownGroupsSpec | src/react-app/pages/Waste.tsx:237-249 | (specifies `ShownGroups`) a room shows exactly the groups whose flag is set, in A–E order |
| WastePage.AddableRoomShowsGroup | src/react-app/pages/Waste.tsx:391-396 | (specifies `AddDisabled`) an addable room shows at least one group; the blank room cannot be added |
| WastePage.AddRoom | src/react-app/pages/Waste.tsx:77-90 | the new room goes at the end with earlier rooms unchanged; the form is blanked and the modal closed |
| WastePage.WithoutIndex | src/react-app/pages/Waste.tsx:92-94 | removal never lengthens the list |
| WastePage.WithoutIndexSpec | src/react-app/pages/Waste.tsx:92-94 | removing index i drops exactly that room and keeps the rest in order; an index out of range removes nothing |
| WastePage.AddThenRemove | src/react-app/pages/Waste.tsx:77-94 | (specifies `RemoveRoom`) adding a room and removing it by its index restores the list |
| WastePage.FetchRequest | src/react-app/pages/Waste.tsx:40-63 | the plan is fetched iff a clinic is selected, by a GET of that clinic's `/waste-plan` |
| WastePage.FetchAfterFetchSame | src/react-app/pages/Waste.tsx:40-44 | loading a plan keeps the selected clinic, so the fetch the page would send is the same request (the effect depends on `selectedClinic` only) |
| WastePage.AfterFetch | src/react-app/pages/Waste.tsx:61-71 | a plan loads its rooms from `plan_data`; `null` clears the plan and empties the rooms |
| WastePage.SaveRequest | src/react-app/pages/Waste.tsx:96-114 | nothing iff no clinic is selected; a PUT to the loaded plan, else a POST for the selected clinic; the body is the rooms and "draft" |
| WastePage.AfterSave | src/react-app/pages/Waste.tsx:116-119 | an ok response makes the returned plan the loaded one; otherwise nothing changes |
| WastePage.SaveAfterSaveUpdates | src/react-app/pages/Waste.tsx:101-105 | once a save has answered with a plan, the next save is a PUT to that plan |
| WastePage.SaveBodyStored | src/react-app/pages/Waste.tsx:110-113 | (specifies `SaveBody`) the body passes both plan schemas; a POST stores the encoded rooms as "draft", and a PUT writes exactly `plan_data` and `status` |
| WastePage.ReloadAfterSave | src/react-app/pages/Waste.tsx:65-67 | with a decoding that inverts the encoding, reloading a saved plan gives back the saved rooms |
| Layout.IsActive | src/react-app/components/Layout.tsx:50-51 | active on an exact match; "/dashboard" only on an exact match; any other item on every location its path is a prefix of (the mobile bar, lines 102-103, uses the same rule) |
| Layout.Examples | src/react-app/components/Layout.tsx:50-51 | "/clinics/3/equipment/5" and "/clinicsX" both light "/clinics"; "/dashboard/x" does not light the dashboard |
| Layout.NavPathsPrefixFree | src/react-app/components/Layout.tsx:20-28 | no item's path is a prefix of another's |
| Layout.AtMostOneActive | src/react-app/components/Layout.tsx:48-67 | (specifies `ActiveItems`) at most one item is highlighted for any location |

## Left out

- The OAuth and session routes (src/worker/index.ts:37-92) and the authentication middleware. They call an external identity service and set cookies. The caller is a parameter of every handler, and the 401 for a missing session is not modelled.
- The SQL engine. Statements are functions on sequences.
  - `last_row_id` is one fresh counter shared by all tables, not a counter per table.
  - `CURRENT_TIMESTAMP` is a clock that ticks on every write, so two writes never share a second. In the code, two rows created in the same second tie on `created_at`, and SQLite then orders them in an unspecified way.
- The NOT NULL constraints of the schema. The migrations are not part of this model. The model assumes `equipment.name`, `manuals.title`, `manuals.type`, `manuals.status`, `waste_management_plans.plan_data` and `waste_management_plans.status` are NOT NULL. A PUT binding `""` (hence null) to one of them is modelled as a server error that writes nothing.
- EquipmentPage.FormFromRecord: a record whose `name` is JSON null would put null in the form and send it, and the update schema rejects it. The model puts "" there, which the schema also rejects, so the outcome is the same but the body differs. A stored equipment name is never null.
- The response schemas (`ClinicSchema.parse`, `EquipmentSchema.parse`, `ManualSchema.parse`, `WasteManagementPlanSchema.parse` and the like, applied to every single-row answer) are taken as the identity. That holds because every field those schemas declare non-nullable (src/shared/types.ts:4-163) is a column the model never leaves null. These are the columns assumed NOT NULL above. They also include the clinic name, which `min(1)` keeps non-empty on create and on update; the task title and frequency, which are only written at creation and are required non-empty there; the check-in's `completed_at`, which is stored as sent; and the ids, owners and timestamps.
- Path parameters arrive as strings. The model takes them as numbers, so a non-numeric id, which matches no row, is not represented.
- JSON numbers are integers. Booleans are bound as 1/0. Objects and arrays in a body are `JOther` and fail every check.
- Parsing and formatting dates (`new Date`, date-fns). Dates are integer milliseconds, and None stands for a null, empty or unparseable date.
- DueDates.IsDueSoon: the pages read the clock separately in each check. The model uses one `now` for a whole page render.
- Common.ParseInt: leading blanks and a sign are not handled, and values beyond 2^53 are exact rather than rounded to a float. The partner select only offers digit strings.
- The text order is code-point order. SQLite's binary collation compares UTF-8 bytes, and the two agree on the order of code points.
- `JSON.stringify`/`JSON.parse` of the room list. The waste page takes the encoding and decoding as parameters.
- Fetch orchestration and loading flags: the health page's loop fetching each clinic's documents, and the Dashboard, Routines, Manuals, ManualDetail, Clinics and Partners pages. Also all rendering and routing.
- `UpdateRoutineTaskSchema` and `UpdateHealthDocumentSchema` are defined, but no handler uses them. They are modelled as schemas only.
- `Object.entries` order is taken to be the schema's declaration order, which is the order zod's parse builds the object in. Any order gives the same UPDATE.
- Concurrency between overlapping requests. The code has no coordination to model.
