/**
 * `ShiftAssignmentService`: the shift an employee works on a given date,
 * taken from the dated assignments that cover that date, the most recent
 * one winning.
 */
module ShiftAssignmentService {
  import opened Wrappers
  import opened Seqs
  import opened Calendar
  import opened Entities
  import opened Tables
  import opened Database

  /**
   * The assignment is for `employeeId`, active, and its validity covers
   * `date`: it starts on or before it and ends on or after it, an open end
   * covering every later date.
   */
  predicate Covers(a: ShiftAssignment, employeeId: int, date: Instant)
  {
    && a.employeeId == employeeId
    && a.isActive
    && a.effectiveFrom <= date
    && (a.effectiveTo.None? || a.effectiveTo.value >= date)
  }

  function CoversFor(employeeId: int, date: Instant): ShiftAssignment -> bool
  {
    (a: ShiftAssignment) => Covers(a, employeeId, date)
  }

  function EffectiveFrom(a: ShiftAssignment): int { a.effectiveFrom }

  /** `OrderByDescending(EffectiveFrom)`: the latest start first. */
  function LatestFirst(s: seq<ShiftAssignment>): seq<ShiftAssignment>
  {
    SortBy(s, ByIntDescending(EffectiveFrom))
  }

  /**
   * The `Where`, `OrderByDescending(EffectiveFrom)` and `FirstOrDefault` of
   * the query: a covering assignment with the latest start, or none when no
   * assignment covers the date.
   */
  function AssignmentForDate(assignments: seq<ShiftAssignment>, employeeId: int, date: Instant): (r: Option<ShiftAssignment>)
    ensures r.Some? ==> r.value in assignments && Covers(r.value, employeeId, date)
    ensures r.Some? ==> forall i :: 0 <= i < |assignments| && Covers(assignments[i], employeeId, date) ==>
                          assignments[i].effectiveFrom <= r.value.effectiveFrom
    ensures r.None? <==> forall i :: 0 <= i < |assignments| ==> !Covers(assignments[i], employeeId, date)
  {
    var p := CoversFor(employeeId, date);
    var sorted := LatestFirst(Filter(assignments, p));
    FilterEmpty(assignments, p);
    if sorted == [] then None
    else
      var f := Filter(assignments, p);
      DescendingHeadIsMax(f, EffectiveFrom);
      FilterBound(assignments, p, EffectiveFrom, sorted[0]);
      var k :| 0 <= k < |f| && f[k] == sorted[0];
      Some(sorted[0])
  }

  /**
   * `GetEmployeeShiftForDate`: the shift of the chosen assignment (loaded
   * through the assignment's `Shift` navigation), or none.
   */
  function GetEmployeeShiftForDate(assignments: seq<ShiftAssignment>, shifts: seq<WorkShift>, employeeId: int, date: Instant): (r: Option<WorkShift>)
    ensures r.Some? ==> r.value in shifts &&
                         exists i :: 0 <= i < |assignments| && Covers(assignments[i], employeeId, date) && assignments[i].shiftId == r.value.shiftId
  {
    var a := AssignmentForDate(assignments, employeeId, date);
    if a.None? then None
    else
      var s := Find(shifts, ShiftKey, a.value.shiftId);
      if s.None? then None
      else
        var i :| 0 <= i < |assignments| && assignments[i] == a.value;
        s
  }

  /**
   * With the assignment-to-shift foreign key in place, a shift is found
   * exactly when some assignment covers the date, and it is the shift of
   * the covering assignment with the latest start.
   */
  lemma ShiftFoundIffCovered(assignments: seq<ShiftAssignment>, shifts: seq<WorkShift>, employeeId: int, date: Instant)
    requires References(assignments, AssignmentShiftRef, shifts, ShiftKey)
    ensures GetEmployeeShiftForDate(assignments, shifts, employeeId, date).Some? <==>
              exists i :: 0 <= i < |assignments| && Covers(assignments[i], employeeId, date)
    ensures var a := AssignmentForDate(assignments, employeeId, date);
            a.Some? ==> GetEmployeeShiftForDate(assignments, shifts, employeeId, date).value.shiftId == a.value.shiftId
  {
    var a := AssignmentForDate(assignments, employeeId, date);
    if a.Some? {
      var i :| 0 <= i < |assignments| && assignments[i] == a.value;
      assert AssignmentShiftRef(assignments[i]).Some?;
    }
  }

  /**
   * Both ends of an assignment are inclusive, and an open-ended one keeps
   * covering every date from its start on.
   */
  lemma BoundsInclusive(a: ShiftAssignment, date: Instant)
    requires a.isActive
    ensures a.effectiveTo.None? || a.effectiveFrom <= a.effectiveTo.value ==> Covers(a, a.employeeId, a.effectiveFrom)
    ensures a.effectiveTo.Some? && a.effectiveFrom <= a.effectiveTo.value ==> Covers(a, a.employeeId, a.effectiveTo.value)
    ensures a.effectiveTo.None? && a.effectiveFrom <= date ==> Covers(a, a.employeeId, date)
  {
  }

  /** On any date an assignment covers, some assignment is chosen, starting no earlier than it. */
  lemma CoveredDateIsAssigned(assignments: seq<ShiftAssignment>, i: int, date: Instant)
    requires 0 <= i < |assignments|
    requires Covers(assignments[i], assignments[i].employeeId, date)
    ensures var r := AssignmentForDate(assignments, assignments[i].employeeId, date);
            r.Some? && r.value.effectiveFrom >= assignments[i].effectiveFrom
  {
  }

  /** An inactive assignment, or another employee's, is never the one chosen. */
  lemma NeverChoosesOthers(assignments: seq<ShiftAssignment>, employeeId: int, date: Instant, a: ShiftAssignment)
    requires !a.isActive || a.employeeId != employeeId
    ensures AssignmentForDate(assignments, employeeId, date) != Some(a)
  {
  }
}
