/** The clinic detail page (src/react-app/pages/ClinicDetail.tsx): the two
    calibration counters over the clinic's equipment list, the colour of each
    item's next-calibration date, and the list after a successful create. */
module ClinicDetailPage {
  import opened Common
  import opened Ordering
  import opened DueDates

  /** An equipment item as the page sees it: its id and its calibration due date. */
  datatype Item = Item(id: nat, calibrationDue: Option<int>)

  function DueSoonAt(now: int): Item -> bool
  {
    (e: Item) => IsDueSoon(e.calibrationDue, now)
  }

  function OverdueAt(now: int): Item -> bool
  {
    (e: Item) => IsOverdue(e.calibrationDue, now)
  }

  /** "Calibrações próximas": how many items are due soon. */
  function CountDueSoon(items: seq<Item>, now: int): (n: nat)
    ensures n <= |items|
  {
    |Filter(items, DueSoonAt(now))|
  }

  /** "Calibrações vencidas": how many items are overdue. */
  function CountOverdue(items: seq<Item>, now: int): (n: nat)
    ensures n <= |items|
  {
    |Filter(items, OverdueAt(now))|
  }

  /** No item is counted twice: the two counters add up to at most the list length. */
  lemma CountsWithinTotal(items: seq<Item>, now: int)
    ensures CountDueSoon(items, now) + CountOverdue(items, now) <= |items|
  {
    forall e: Item ensures !(DueSoonAt(now)(e) && OverdueAt(now)(e)) {
    }
    FilterDisjoint(items, DueSoonAt(now), OverdueAt(now));
  }

  datatype Colour = Red | Amber | Neutral

  /** The colour of a next-calibration date: red when overdue, else amber
      when due soon, else the neutral text colour. */
  function DateColour(due: Option<int>, now: int): (c: Colour)
    ensures c == Red <==> IsOverdue(due, now)
    ensures c == Amber <==> IsDueSoon(due, now)
    ensures c == Neutral <==> !IsOverdue(due, now) && !IsDueSoon(due, now)
  {
    if IsOverdue(due, now) then Red else if IsDueSoon(due, now) then Amber else Neutral
  }

  /** `[newEquipment, ...equipment]`. */
  function AfterCreate(items: seq<Item>, created: Item): seq<Item>
  {
    [created] + items
  }

  /** A successful create puts the new item first, keeps the others in order,
      and moves each counter by one exactly when the new item belongs to it. */
  lemma AfterCreateCounts(items: seq<Item>, created: Item, now: int)
    ensures |AfterCreate(items, created)| == |items| + 1
    ensures AfterCreate(items, created)[0] == created && AfterCreate(items, created)[1..] == items
    ensures CountDueSoon(AfterCreate(items, created), now)
      == CountDueSoon(items, now) + (if IsDueSoon(created.calibrationDue, now) then 1 else 0)
    ensures CountOverdue(AfterCreate(items, created), now)
      == CountOverdue(items, now) + (if IsOverdue(created.calibrationDue, now) then 1 else 0)
  {
    FilterPrepend(created, items, DueSoonAt(now));
    FilterPrepend(created, items, OverdueAt(now));
  }
}
