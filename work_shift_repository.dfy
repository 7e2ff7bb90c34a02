/**
 * `WorkShiftRepository`: the shift listing (by start time), the name check
 * the service runs before writing, the soft delete, the count of employees
 * on a shift and the shifts running at a time of day.
 */
module WorkShiftRepository {
  import opened Wrappers
  import opened Seqs
  import opened Calendar
  import opened Entities
  import opened Tables
  import opened Database

  function ShiftStart(s: WorkShift): int { s.startTime }

  function ShiftListed(includeInactive: bool): WorkShift -> bool
  {
    (s: WorkShift) => includeInactive || s.isActive
  }

  /** `GetAllAsync(includeInactive)`: the active shifts (or all of them), by start time. */
  function GetAll(shifts: seq<WorkShift>, includeInactive: bool): (r: seq<WorkShift>)
    ensures forall i :: 0 <= i < |r| ==> r[i] in shifts && (includeInactive || r[i].isActive)
    ensures forall i :: 0 <= i < |shifts| && (includeInactive || shifts[i].isActive) ==> shifts[i] in r
    ensures multiset(r) == multiset(Filter(shifts, ShiftListed(includeInactive)))
    ensures forall i, j :: 0 <= i < j < |r| ==> r[i].startTime <= r[j].startTime
  {
    var listed := Filter(shifts, ShiftListed(includeInactive));
    ByIntIsPreorder(ShiftStart);
    SortBySorted(listed, ByInt(ShiftStart));
    SortFilterMembers(shifts, ShiftListed(includeInactive), ByInt(ShiftStart));
    var r := SortBy(listed, ByInt(ShiftStart));
    assert forall i, j :: 0 <= i < j < |r| ==> ByInt(ShiftStart)(r[i], r[j]) == (ShiftStart(r[i]) <= ShiftStart(r[j]));
    r
  }

  /** `NameExistsAsync(name, exclude)`: a shift other than the excluded one has the name; inactive shifts count. */
  function NameExists(shifts: seq<WorkShift>, shiftName: string, excludeShiftId: Option<int>): (r: bool)
    ensures r <==> exists j :: 0 <= j < |shifts| && shifts[j].shiftName == shiftName &&
                              (excludeShiftId.Some? ==> shifts[j].shiftId != excludeShiftId.value)
  {
    exists j :: 0 <= j < |shifts| && shifts[j].shiftName == shiftName &&
                (excludeShiftId.Some? ==> shifts[j].shiftId != excludeShiftId.value)
  }

  function ShiftNameKey(s: WorkShift): string { s.shiftName }

  /**
   * The check excluding the shift's own id answers whether writing `s` over
   * its row keeps the names distinct.
   */
  lemma NameCheckKeepsNamesUnique(shifts: seq<WorkShift>, i: int, s: WorkShift)
    requires UniqueKeys(shifts, ShiftNameKey) && UniqueKeys(shifts, ShiftKey) && 0 <= i < |shifts|
    requires s.shiftId == shifts[i].shiftId
    requires !NameExists(shifts, s.shiftName, Some(s.shiftId))
    ensures UniqueKeys(shifts[i := s], ShiftNameKey)
  {
    forall j | 0 <= j < |shifts| && j != i
      ensures ShiftNameKey(shifts[j]) != ShiftNameKey(s)
    {
      if j < i {
        assert ShiftKey(shifts[j]) != ShiftKey(shifts[i]);
      } else {
        assert ShiftKey(shifts[i]) != ShiftKey(shifts[j]);
      }
    }
    UniqueKeysReplace(shifts, ShiftNameKey, i, s);
  }

  /** The table after `SoftDeleteAsync(id)` at time `now`: the row stays, inactive and stamped. */
  function SoftDeleted(shifts: seq<WorkShift>, shiftId: int, now: Instant): (r: seq<WorkShift>)
    ensures |r| == |shifts|
    ensures forall j :: 0 <= j < |r| ==> r[j].shiftId == shifts[j].shiftId && r[j].shiftName == shifts[j].shiftName
    ensures forall j :: 0 <= j < |r| && shifts[j].shiftId != shiftId ==> r[j] == shifts[j]
    ensures HasKey(shifts, ShiftKey, shiftId) ==>
              var i := IndexOf(shifts, ShiftKey, shiftId);
              !r[i].isActive && r[i].modifiedDate == Some(now) &&
              r[i].(isActive := shifts[i].isActive, modifiedDate := shifts[i].modifiedDate) == shifts[i]
    ensures !HasKey(shifts, ShiftKey, shiftId) ==> r == shifts
  {
    var i := IndexOf(shifts, ShiftKey, shiftId);
    if i == -1 then shifts
    else shifts[i := shifts[i].(isActive := false, modifiedDate := Some(now))]
  }

  /** `SoftDeleteAsync(id)`; a missing id changes nothing. */
  method SoftDelete(db: Context, shiftId: int, now: Instant)
    requires db.Valid()
    modifies db`shifts
    ensures db.Valid()
    ensures db.shifts == SoftDeleted(old(db.shifts), shiftId, now)
  {
    var i := IndexOf(db.shifts, ShiftKey, shiftId);
    if i >= 0 {
      var r := db.UpdateShift(db.shifts[i].(isActive := false, modifiedDate := Some(now)));
      assert r.Ok?;
    }
  }

  /** Soft deletion keeps every shift name where it was, so the name check answers as before. */
  lemma SoftDeleteKeepsNames(shifts: seq<WorkShift>, shiftId: int, now: Instant, shiftName: string, exclude: Option<int>)
    ensures NameExists(SoftDeleted(shifts, shiftId, now), shiftName, exclude) == NameExists(shifts, shiftName, exclude)
  {
    var r := SoftDeleted(shifts, shiftId, now);
    if NameExists(shifts, shiftName, exclude) {
      var j :| 0 <= j < |shifts| && shifts[j].shiftName == shiftName &&
               (exclude.Some? ==> shifts[j].shiftId != exclude.value);
      assert r[j].shiftName == shiftName && r[j].shiftId == shifts[j].shiftId;
    }
  }

  function OnShift(shiftId: int): Employee -> bool
  {
    (e: Employee) => e.defaultShiftId == Some(shiftId) && e.isActive
  }

  /** `GetEmployeeCountAsync(id)`: active employees whose default shift it is (dated assignments are not counted). */
  function GetEmployeeCount(employees: seq<Employee>, shiftId: int): (n: int)
    ensures 0 <= n <= |employees|
  {
    |Filter(employees, OnShift(shiftId))|
  }

  /** The count is zero exactly when no active employee has the shift as default. */
  lemma EmployeeCountZero(employees: seq<Employee>, shiftId: int)
    ensures GetEmployeeCount(employees, shiftId) == 0 <==>
            forall j :: 0 <= j < |employees| && employees[j].isActive ==> employees[j].defaultShiftId != Some(shiftId)
  {
    FilterEmpty(employees, OnShift(shiftId));
  }

  function Running(t: int): WorkShift -> bool
  {
    (s: WorkShift) => s.isActive && s.startTime <= t <= s.endTime
  }

  /**
   * `GetActiveShiftsForTimeAsync(t)`: the active shifts with start <= t <= end,
   * both ends included, in table order; a shift ending before it starts
   * (over midnight) never matches.
   */
  function GetActiveShiftsForTime(shifts: seq<WorkShift>, t: int): (r: seq<WorkShift>)
    ensures forall i :: 0 <= i < |r| ==> r[i] in shifts && r[i].isActive && r[i].startTime <= t <= r[i].endTime
    ensures forall i :: 0 <= i < |shifts| && shifts[i].isActive && shifts[i].startTime <= t <= shifts[i].endTime ==> shifts[i] in r
    ensures forall s :: multiset(r)[s] == if s.isActive && s.startTime <= t <= s.endTime then multiset(shifts)[s] else 0
  {
    forall s
      ensures multiset(Filter(shifts, Running(t)))[s] == if s.isActive && s.startTime <= t <= s.endTime then multiset(shifts)[s] else 0
    {
      FilterMultiplicity(shifts, Running(t), s);
    }
    Filter(shifts, Running(t))
  }

  /** A shift that crosses midnight (end before start) is never reported as running. */
  lemma OvernightNeverRuns(shifts: seq<WorkShift>, t: int, s: WorkShift)
    requires s.endTime < s.startTime
    ensures s !in GetActiveShiftsForTime(shifts, t)
  {
  }
}
