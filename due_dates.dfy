/** The due-date classification the clinic, equipment and health pages share:
    a date is "due soon" when the whole number of days until it, rounded
    down, lies in [0, 30], and "overdue" when it lies before now. Dates are
    integer milliseconds; None stands for a null or empty date (and for one
    that does not parse), which the pages treat as neither. */
module DueDates {
  import opened Common

  const MsPerDay: int := 1000 * 60 * 60 * 24
  const SoonDays: int := 30

  /** `Math.floor((due - now) / MsPerDay)`. */
  function DaysUntil(due: int, now: int): (d: int)
    ensures d * MsPerDay <= due - now < (d + 1) * MsPerDay
  {
    (due - now) / MsPerDay
  }

  /** A due date strictly before now. */
  function IsOverdue(due: Option<int>, now: int): (b: bool)
    ensures b <==> due.Some? && DaysUntil(due.value, now) < 0
  {
    due.Some? && due.value < now
  }

  /** A due date at most 30 whole days ahead, and not past. */
  function IsDueSoon(due: Option<int>, now: int): (b: bool)
    ensures b <==> due.Some? && now <= due.value < now + (SoonDays + 1) * MsPerDay
    ensures b ==> !IsOverdue(due, now)
  {
    due.Some? && 0 <= DaysUntil(due.value, now) <= SoonDays
  }

  /** Concrete dates: ten days ahead is due soon, one millisecond past is
      overdue, sixty days ahead is neither, and the window closes exactly
      31 days after now. */
  lemma Examples(now: int)
    ensures IsDueSoon(Some(now + 10 * MsPerDay), now) && !IsOverdue(Some(now + 10 * MsPerDay), now)
    ensures IsOverdue(Some(now - 1), now) && !IsDueSoon(Some(now - 1), now)
    ensures !IsDueSoon(Some(now + 60 * MsPerDay), now) && !IsOverdue(Some(now + 60 * MsPerDay), now)
    ensures IsDueSoon(Some(now), now) && IsDueSoon(Some(now + 31 * MsPerDay - 1), now)
    ensures !IsDueSoon(Some(now + 31 * MsPerDay), now)
  {
  }
}
