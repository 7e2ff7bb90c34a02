/**
 * `AttendanceCalculationService`: the per-day reconciler behind the
 * attendance list. Punches are grouped by biometric id and calendar day;
 * each group of a known employee becomes one row with its check-in (the
 * earliest punch), its check-out (the latest, only when the group has two
 * or more punches), the worked time, a day status and the shift of the day.
 */
module AttendanceCalculationService {
  import opened Wrappers
  import opened Seqs
  import opened Calendar
  import opened Entities
  import opened Tables
  import opened Database
  import opened Punches
  import ShiftAssignmentService

  /** Worked time under half an hour counts as none. */
  const MinimumSpan: int := 30 * SecondsPerMinute
  /** A day under four hours of work is a half day. */
  const FullDaySpan: int := 4 * SecondsPerHour
  /** The name shown when a branch, device or shift is unknown. */
  const Unknown: string := "-"

  // ----- grouping -----

  /** `GroupBy(l => new { l.BiometricUserId, l.AttendanceTime.Date })`: one group per key. */
  datatype PunchGroup = PunchGroup(biometricUserId: string, date: Day, logs: seq<AttendanceLog>)

  function DayKey(l: AttendanceLog): (string, Day)
  {
    (l.biometricUserId, DayOf(l.attendanceTime))
  }

  function InGroup(k: (string, Day)): AttendanceLog -> bool
  {
    (l: AttendanceLog) => DayKey(l) == k
  }

  /** The keys of the groups, in order of first occurrence. */
  function GroupKeys(logs: seq<AttendanceLog>): (keys: seq<(string, Day)>)
    ensures NoDup(keys)
    ensures forall i :: 0 <= i < |keys| ==> exists j :: 0 <= j < |logs| && DayKey(logs[j]) == keys[i]
    ensures forall j :: 0 <= j < |logs| ==> DayKey(logs[j]) in keys
  {
    var all := seq(|logs|, j requires 0 <= j < |logs| => DayKey(logs[j]));
    var keys := Distinct(all);
    assert forall j :: 0 <= j < |logs| ==> all[j] == DayKey(logs[j]);
    assert forall i :: 0 <= i < |keys| ==> exists j :: 0 <= j < |logs| && DayKey(logs[j]) == keys[i] by {
      forall i | 0 <= i < |keys|
        ensures exists j :: 0 <= j < |logs| && DayKey(logs[j]) == keys[i]
      {
        var j :| 0 <= j < |all| && all[j] == keys[i];
      }
    }
    keys
  }

  /** The groups of `logs`, in order of first occurrence, each in the order of `logs`. */
  function GroupLogs(logs: seq<AttendanceLog>): (groups: seq<PunchGroup>)
    ensures |groups| == |GroupKeys(logs)|
    ensures forall i :: 0 <= i < |groups| ==>
              var k := GroupKeys(logs)[i];
              groups[i] == PunchGroup(k.0, k.1, Filter(logs, InGroup(k)))
  {
    var keys := GroupKeys(logs);
    seq(|keys|, i requires 0 <= i < |keys| => PunchGroup(keys[i].0, keys[i].1, Filter(logs, InGroup(keys[i]))))
  }

  /** Every group holds at least the punch that introduced its key. */
  lemma GroupsNonEmpty(logs: seq<AttendanceLog>)
    ensures var groups := GroupLogs(logs);
            forall i :: 0 <= i < |groups| ==> groups[i].logs != []
  {
    var groups := GroupLogs(logs);
    var keys := GroupKeys(logs);
    forall i | 0 <= i < |groups|
      ensures groups[i].logs != []
    {
      var j :| 0 <= j < |logs| && DayKey(logs[j]) == keys[i];
      assert InGroup(keys[i])(logs[j]);
      FilterMember(logs, InGroup(keys[i]), logs[j]);
    }
  }

  /** A group holds only punches of `logs` with its own id and day. */
  lemma GroupsHomogeneous(logs: seq<AttendanceLog>)
    ensures var groups := GroupLogs(logs);
            forall i, l :: 0 <= i < |groups| && l in groups[i].logs ==>
              l in logs && l.biometricUserId == groups[i].biometricUserId && DayOf(l.attendanceTime) == groups[i].date
  {
    var groups := GroupLogs(logs);
    var keys := GroupKeys(logs);
    forall i, l | 0 <= i < |groups| && l in groups[i].logs
      ensures l in logs && l.biometricUserId == groups[i].biometricUserId && DayOf(l.attendanceTime) == groups[i].date
    {
      FilterMember(logs, InGroup(keys[i]), l);
    }
  }

  /** Every punch is in some group. */
  lemma GroupsCover(logs: seq<AttendanceLog>)
    ensures var groups := GroupLogs(logs);
            forall j :: 0 <= j < |logs| ==> exists i :: 0 <= i < |groups| && logs[j] in groups[i].logs
  {
    var groups := GroupLogs(logs);
    var keys := GroupKeys(logs);
    forall j | 0 <= j < |logs|
      ensures exists i :: 0 <= i < |groups| && logs[j] in groups[i].logs
    {
      var i :| 0 <= i < |keys| && keys[i] == DayKey(logs[j]);
      assert InGroup(keys[i])(logs[j]);
      FilterMember(logs, InGroup(keys[i]), logs[j]);
      assert logs[j] in groups[i].logs;
    }
  }

  /** No two groups share an id and a day. */
  lemma GroupsKeysDistinct(logs: seq<AttendanceLog>)
    ensures var groups := GroupLogs(logs);
            forall i, i' :: 0 <= i < i' < |groups| ==>
              (groups[i].biometricUserId, groups[i].date) != (groups[i'].biometricUserId, groups[i'].date)
  {
    var groups := GroupLogs(logs);
    var keys := GroupKeys(logs);
    forall i, i' | 0 <= i < i' < |groups|
      ensures (groups[i].biometricUserId, groups[i].date) != (groups[i'].biometricUserId, groups[i'].date)
    {
      assert (groups[i].biometricUserId, groups[i].date) == keys[i];
      assert (groups[i'].biometricUserId, groups[i'].date) == keys[i'];
    }
  }

  /**
   * The groups partition the punches: every group is non-empty and holds
   * only punches of its own id and day, every punch is in the group of its
   * id and day, and no two groups share a key.
   */
  lemma GroupsPartition(logs: seq<AttendanceLog>)
    ensures var groups := GroupLogs(logs);
            && (forall i :: 0 <= i < |groups| ==> groups[i].logs != [])
            && (forall i, l :: 0 <= i < |groups| && l in groups[i].logs ==>
                  l in logs && l.biometricUserId == groups[i].biometricUserId && DayOf(l.attendanceTime) == groups[i].date)
            && (forall j :: 0 <= j < |logs| ==> exists i :: 0 <= i < |groups| && logs[j] in groups[i].logs)
            && (forall i, i' :: 0 <= i < i' < |groups| ==>
                  (groups[i].biometricUserId, groups[i].date) != (groups[i'].biometricUserId, groups[i'].date))
  {
    GroupsNonEmpty(logs);
    GroupsHomogeneous(logs);
    GroupsCover(logs);
    GroupsKeysDistinct(logs);
  }

  // ----- one group -----

  /** `group.Logs.OrderBy(x => x.AttendanceTime).FirstOrDefault()`: an earliest punch. */
  function CheckIn(g: seq<AttendanceLog>): (r: Option<AttendanceLog>)
    ensures r.Some? <==> g != []
    ensures r.Some? ==> r.value in g && forall i :: 0 <= i < |g| ==> r.value.attendanceTime <= g[i].attendanceTime
  {
    if g == [] then None
    else
      var sorted := OrderByTime(g);
      OrderByTimeMembers(g, sorted[0]);
      assert forall i :: 0 <= i < |g| ==> g[i] in sorted by {
        forall i | 0 <= i < |g| { OrderByTimeMembers(g, g[i]); }
      }
      Some(sorted[0])
  }

  /** The latest punch when the group has more than one, otherwise none. */
  function CheckOut(g: seq<AttendanceLog>): (r: Option<AttendanceLog>)
    ensures r.Some? <==> |g| > 1
    ensures r.Some? ==> r.value in g && forall i :: 0 <= i < |g| ==> g[i].attendanceTime <= r.value.attendanceTime
  {
    if |g| > 1 then
      var sorted := OrderByTimeDescending(g);
      OrderByTimeMembers(g, sorted[0]);
      assert forall i :: 0 <= i < |g| ==> g[i] in sorted by {
        forall i | 0 <= i < |g| { OrderByTimeMembers(g, g[i]); }
      }
      Some(sorted[0])
    else None
  }

  /**
   * `CalculateWorkingHours`, in seconds: nothing without both ends, nothing
   * for a span under half an hour, otherwise the whole span.
   */
  function CalculateWorkingHours(checkIn: Option<AttendanceLog>, checkOut: Option<AttendanceLog>): (r: int)
    ensures r >= 0
    ensures r > 0 <==> checkIn.Some? && checkOut.Some? && checkOut.value.attendanceTime - checkIn.value.attendanceTime >= MinimumSpan
    ensures r > 0 ==> r == checkOut.value.attendanceTime - checkIn.value.attendanceTime
  {
    if checkIn.None? || checkOut.None? then 0
    else
      var span := checkOut.value.attendanceTime - checkIn.value.attendanceTime;
      if span < MinimumSpan then 0 else span
  }

  /**
   * `GetAttendanceStatus`: the precedence ladder over the two ends and the
   * worked time; each status holds on exactly one part of the inputs.
   */
  function GetAttendanceStatus(checkIn: Option<AttendanceLog>, checkOut: Option<AttendanceLog>, workingSeconds: int): (r: DayStatus)
    ensures r == CheckOutOnly <==> checkIn.None? && checkOut.Some?
    ensures r == DayAbsent <==> checkIn.None? && checkOut.None?
    ensures r == CheckInOnly <==> checkIn.Some? && (checkOut.None? || workingSeconds == 0)
    ensures r == HalfDay <==> checkIn.Some? && checkOut.Some? && workingSeconds != 0 && workingSeconds < FullDaySpan
    ensures r == FullAttendance <==> checkIn.Some? && checkOut.Some? && workingSeconds != 0 && workingSeconds >= FullDaySpan
  {
    if checkIn.None? && checkOut.Some? then CheckOutOnly
    else if checkIn.None? then DayAbsent
    else if checkOut.None? || workingSeconds == 0 then CheckInOnly
    else if workingSeconds < FullDaySpan then HalfDay
    else FullAttendance
  }

  /**
   * The status of a day from its punches alone: one punch, or a span under
   * half an hour, is entry only; under four hours a half day; otherwise a
   * full day.
   */
  function DayStatusOf(g: seq<AttendanceLog>): DayStatus
    requires g != []
  {
    var span := LatestTime(g) - EarliestTime(g);
    if |g| == 1 || span < MinimumSpan then CheckInOnly
    else if span < FullDaySpan then HalfDay
    else FullAttendance
  }

  /** The ladder applied to a group's two ends agrees with the status read off its punches. */
  lemma GroupStatus(g: seq<AttendanceLog>)
    requires g != []
    ensures var checkIn := CheckIn(g);
            var checkOut := CheckOut(g);
            GetAttendanceStatus(checkIn, checkOut, CalculateWorkingHours(checkIn, checkOut)) == DayStatusOf(g)
  {
    EndsTimes(g);
    LadderOfEnds(CheckIn(g), CheckOut(g), EarliestTime(g), LatestTime(g), |g| == 1);
  }

  /** The check-in is at the earliest time of the group, the check-out (when there is one) at the latest. */
  lemma EndsTimes(g: seq<AttendanceLog>)
    requires g != []
    ensures CheckIn(g).value.attendanceTime == EarliestTime(g)
    ensures |g| > 1 ==> CheckOut(g).value.attendanceTime == LatestTime(g)
  {
    CheckInTime(g);
    if |g| > 1 {
      CheckOutTime(g);
    }
  }

  lemma CheckInTime(g: seq<AttendanceLog>)
    requires g != []
    ensures CheckIn(g).value.attendanceTime == EarliestTime(g)
  {
    var checkIn := CheckIn(g).value;
    var a :| 0 <= a < |g| && g[a].attendanceTime == EarliestTime(g);
    var c :| 0 <= c < |g| && g[c] == checkIn;
    assert checkIn.attendanceTime <= g[a].attendanceTime;
    assert EarliestTime(g) <= g[c].attendanceTime;
  }

  lemma CheckOutTime(g: seq<AttendanceLog>)
    requires |g| > 1
    ensures CheckOut(g).value.attendanceTime == LatestTime(g)
  {
    var checkOut := CheckOut(g).value;
    var b :| 0 <= b < |g| && g[b].attendanceTime == LatestTime(g);
    var d :| 0 <= d < |g| && g[d] == checkOut;
    assert g[b].attendanceTime <= checkOut.attendanceTime;
    assert g[d].attendanceTime <= LatestTime(g);
  }

  /**
   * `OrderBy` is stable, so among punches at the earliest time the
   * check-in is the first one in the group's order; it carries the device
   * and branch the row shows.
   */
  lemma CheckInIsFirstEarliest(g: seq<AttendanceLog>)
    requires g != []
    ensures exists k :: 0 <= k < |g| && CheckIn(g).value == g[k] && g[k].attendanceTime == EarliestTime(g)
              && forall j :: 0 <= j < k ==> g[j].attendanceTime != EarliestTime(g)
  {
    var c := CheckIn(g).value;
    assert c == OrderByTime(g)[0];
    CheckInTime(g);
    OrderByTimeStable(g, c);
    StableHeadIsFirst(g, OrderByTime(g), LogTime, c);
  }

  /**
   * Likewise the check-out is the first punch in the group's order among
   * those at the latest time (`OrderByDescending` is stable too).
   */
  lemma CheckOutIsFirstLatest(g: seq<AttendanceLog>)
    requires |g| > 1
    ensures exists k :: 0 <= k < |g| && CheckOut(g).value == g[k] && g[k].attendanceTime == LatestTime(g)
              && forall j :: 0 <= j < k ==> g[j].attendanceTime != LatestTime(g)
  {
    var c := CheckOut(g).value;
    assert c == OrderByTimeDescending(g)[0];
    CheckOutTime(g);
    OrderByTimeStable(g, c);
    StableHeadIsFirst(g, OrderByTimeDescending(g), LogTime, c);
  }

  /** The ladder over two ends whose times are `earliest` and, when there is a check-out, `latest`. */
  lemma LadderOfEnds(checkIn: Option<AttendanceLog>, checkOut: Option<AttendanceLog>, earliest: int, latest: int, single: bool)
    requires checkIn.Some? && checkIn.value.attendanceTime == earliest
    requires checkOut.Some? <==> !single
    requires checkOut.Some? ==> checkOut.value.attendanceTime == latest
    ensures GetAttendanceStatus(checkIn, checkOut, CalculateWorkingHours(checkIn, checkOut))
         == if single || latest - earliest < MinimumSpan then CheckInOnly
            else if latest - earliest < FullDaySpan then HalfDay
            else FullAttendance
  {
  }

  /** Two punches between one second and half an hour apart give entry only, never a half day. */
  lemma ShortSpanIsEntryOnly(a: AttendanceLog, b: AttendanceLog)
    requires a.attendanceTime < b.attendanceTime < a.attendanceTime + MinimumSpan
    ensures DayStatusOf([a, b]) == CheckInOnly
  {
    var g := [a, b];
    var earliest := EarliestTime(g);
    var latest := LatestTime(g);
    assert earliest == a.attendanceTime by {
      assert earliest <= g[0].attendanceTime;
    }
    assert latest == b.attendanceTime by {
      assert g[1].attendanceTime <= latest;
    }
  }

  // ----- rows -----

  /** `AttendanceViewModel`; the worked time is in seconds and the status a `DayStatus`. */
  datatype AttendanceRow = AttendanceRow(
    biometricUserId: string,
    employeeName: string,
    date: Day,
    checkInTime: Option<Instant>,
    checkOutTime: Option<Instant>,
    branchName: string,
    deviceName: string,
    workingSeconds: int,
    status: DayStatus,
    shiftName: string)

  /** The lookups the reconciler is given. */
  datatype Lookups = Lookups(
    employees: map<string, Employee>,
    branches: map<int, string>,
    devices: map<int, string>,
    assignments: seq<ShiftAssignment>,
    shifts: seq<WorkShift>)

  /** `dict.ContainsKey(k) ? dict[k] : "-"`. */
  function NameOr(names: map<int, string>, k: int): string
  {
    if k in names then names[k] else Unknown
  }

  /** The dated assignment's shift for the day, else the employee's default shift. */
  function ShiftOfDay(emp: Employee, assignments: seq<ShiftAssignment>, shifts: seq<WorkShift>, date: Day): Option<WorkShift>
  {
    var dated := ShiftAssignmentService.GetEmployeeShiftForDate(assignments, shifts, emp.employeeId, Midnight(date));
    if dated.Some? then dated
    else if emp.defaultShiftId.Some? then Find(shifts, ShiftKey, emp.defaultShiftId.value)
    else None
  }

  /** The row of one group whose employee is `emp`. */
  function RowOf(g: PunchGroup, emp: Employee, lookups: Lookups): AttendanceRow
  {
    var checkIn := CheckIn(g.logs);
    var checkOut := CheckOut(g.logs);
    var seconds := CalculateWorkingHours(checkIn, checkOut);
    var shift := ShiftOfDay(emp, lookups.assignments, lookups.shifts, g.date);
    AttendanceRow(
      g.biometricUserId,
      emp.employeeName,
      g.date,
      if checkIn.Some? then Some(checkIn.value.attendanceTime) else None,
      if checkOut.Some? then Some(checkOut.value.attendanceTime) else None,
      if checkIn.Some? then NameOr(lookups.branches, checkIn.value.branchId) else Unknown,
      if checkIn.Some? then NameOr(lookups.devices, checkIn.value.deviceId) else Unknown,
      seconds,
      GetAttendanceStatus(checkIn, checkOut, seconds),
      if shift.Some? then shift.value.shiftName else Unknown)
  }

  /** The row of a group whose id is in the dictionary; none for the others. */
  function RowIfKnown(lookups: Lookups): PunchGroup -> Option<AttendanceRow>
  {
    (g: PunchGroup) =>
      if g.biometricUserId in lookups.employees then Some(RowOf(g, lookups.employees[g.biometricUserId], lookups))
      else None
  }

  /** The rows of `groups`, in order, skipping groups whose id is not in the dictionary. */
  function Rows(groups: seq<PunchGroup>, lookups: Lookups): seq<AttendanceRow>
  {
    Choose(groups, RowIfKnown(lookups))
  }

  /** The body of the loop in `BuildAttendanceViewModels`: one view model for one group. */
  method BuildRow(group: PunchGroup, emp: Employee, lookups: Lookups) returns (row: AttendanceRow)
    ensures row == RowOf(group, emp, lookups)
  {
    var checkIn := CheckIn(group.logs);
    var checkOut := CheckOut(group.logs);
    var shift := ShiftOfDay(emp, lookups.assignments, lookups.shifts, group.date);
    var workingHours := CalculateWorkingHours(checkIn, checkOut);
    var status := GetAttendanceStatus(checkIn, checkOut, workingHours);
    row := AttendanceRow(
      group.biometricUserId,
      emp.employeeName,
      group.date,
      if checkIn.Some? then Some(checkIn.value.attendanceTime) else None,
      if checkOut.Some? then Some(checkOut.value.attendanceTime) else None,
      if checkIn.Some? then NameOr(lookups.branches, checkIn.value.branchId) else Unknown,
      if checkIn.Some? then NameOr(lookups.devices, checkIn.value.deviceId) else Unknown,
      workingHours,
      status,
      if shift.Some? then shift.value.shiftName else Unknown);
  }

  /** The loop of `BuildAttendanceViewModels`: one row per group whose employee is known, in order. */
  method RowsOfGroups(groups: seq<PunchGroup>, lookups: Lookups) returns (viewModels: seq<AttendanceRow>)
    ensures viewModels == Rows(groups, lookups)
  {
    viewModels := [];
    var i := 0;
    while i < |groups|
      invariant 0 <= i <= |groups|
      invariant viewModels == Choose(groups[..i], RowIfKnown(lookups))
    {
      var group := groups[i];
      ChooseStep(groups, RowIfKnown(lookups), i);
      if group.biometricUserId in lookups.employees {
        var row := BuildRow(group, lookups.employees[group.biometricUserId], lookups);
        assert RowIfKnown(lookups)(group) == Some(row);
        viewModels := viewModels + [row];
      }
      i := i + 1;
    }
    assert groups[..|groups|] == groups;
  }

  /** `BuildAttendanceViewModels`: groups the punches, then builds the rows in a loop. */
  method BuildAttendanceViewModels(logs: seq<AttendanceLog>, lookups: Lookups) returns (viewModels: seq<AttendanceRow>)
    ensures viewModels == Rows(GroupLogs(logs), lookups)
  {
    var groups := GroupLogs(logs);
    viewModels := RowsOfGroups(groups, lookups);
  }

  /** A group's id is in the employee dictionary. */
  predicate Known(g: PunchGroup, lookups: Lookups)
  {
    g.biometricUserId in lookups.employees
  }

  /** The key of a row: its employee and day. */
  function RowKey(r: AttendanceRow): (string, Day)
  {
    (r.biometricUserId, r.date)
  }

  function GroupKey(g: PunchGroup): (string, Day)
  {
    (g.biometricUserId, g.date)
  }

  /** `r` is the row of one of `groups` whose employee is known. */
  predicate RowOfKnownGroup(r: AttendanceRow, groups: seq<PunchGroup>, lookups: Lookups)
  {
    exists i :: 0 <= i < |groups| && Known(groups[i], lookups) &&
      r == RowOf(groups[i], lookups.employees[groups[i].biometricUserId], lookups)
  }

  /**
   * Exactly the groups of known employees give rows: every row is the row
   * of such a group, and every such group has its row.
   */
  lemma RowsAreKnownGroups(groups: seq<PunchGroup>, lookups: Lookups)
    ensures forall k :: 0 <= k < |Rows(groups, lookups)| ==> RowOfKnownGroup(Rows(groups, lookups)[k], groups, lookups)
    ensures forall i :: 0 <= i < |groups| && Known(groups[i], lookups) ==>
              RowOf(groups[i], lookups.employees[groups[i].biometricUserId], lookups) in Rows(groups, lookups)
  {
    var f := RowIfKnown(lookups);
    ChooseMembers(groups, f);
    forall k | 0 <= k < |Rows(groups, lookups)|
      ensures RowOfKnownGroup(Rows(groups, lookups)[k], groups, lookups)
    {
      var i :| 0 <= i < |groups| && f(groups[i]) == Some(Rows(groups, lookups)[k]);
      assert Known(groups[i], lookups);
    }
  }

  /** One row per employee and day: no two rows of the list share both. */
  lemma RowsOnePerDay(logs: seq<AttendanceLog>, lookups: Lookups)
    ensures var rows := Rows(GroupLogs(logs), lookups);
            forall k, k' :: 0 <= k < k' < |rows| ==> RowKey(rows[k]) != RowKey(rows[k'])
  {
    var groups := GroupLogs(logs);
    var f := RowIfKnown(lookups);
    GroupKeysDistinct(logs);
    forall i | 0 <= i < |groups| && f(groups[i]).Some?
      ensures RowKey(f(groups[i]).value) == GroupKey(groups[i])
    {
      RowOfKey(groups[i], lookups.employees[groups[i].biometricUserId], lookups);
    }
    ChooseDistinct(groups, f, GroupKey, RowKey);
  }

  lemma GroupKeysDistinct(logs: seq<AttendanceLog>)
    ensures var groups := GroupLogs(logs);
            forall i, i' :: 0 <= i < i' < |groups| ==> GroupKey(groups[i]) != GroupKey(groups[i'])
  {
    GroupsPartition(logs);
  }

  lemma RowOfKey(g: PunchGroup, emp: Employee, lookups: Lookups)
    ensures RowKey(RowOf(g, emp, lookups)) == GroupKey(g)
  {
  }

  /**
   * A row of a day with punches: it has a check-in, a check-out never before
   * it, a worked time that is never negative, and a status that is entry
   * only, half day or full day.
   */
  predicate PresentRow(r: AttendanceRow)
  {
    && r.checkInTime.Some?
    && (r.checkOutTime.Some? ==> r.checkInTime.value <= r.checkOutTime.value)
    && r.workingSeconds >= 0
    && r.status in {CheckInOnly, HalfDay, FullAttendance}
  }

  /** Every row of the list is a row of a day with punches. */
  lemma RowsNeverAbsent(logs: seq<AttendanceLog>, lookups: Lookups)
    ensures var rows := Rows(GroupLogs(logs), lookups);
            forall k :: 0 <= k < |rows| ==> PresentRow(rows[k])
  {
    var groups := GroupLogs(logs);
    var rows := Rows(groups, lookups);
    RowsAreKnownGroups(groups, lookups);
    GroupsNonEmpty(logs);
    forall k | 0 <= k < |rows|
      ensures PresentRow(rows[k])
    {
      KnownGroupRowPresent(rows[k], groups, lookups);
    }
  }

  /** The row of a known group with punches is a row of a day with punches. */
  lemma KnownGroupRowPresent(r: AttendanceRow, groups: seq<PunchGroup>, lookups: Lookups)
    requires RowOfKnownGroup(r, groups, lookups)
    requires forall i :: 0 <= i < |groups| ==> groups[i].logs != []
    ensures PresentRow(r)
  {
    var i :| 0 <= i < |groups| && Known(groups[i], lookups) &&
             r == RowOf(groups[i], lookups.employees[groups[i].biometricUserId], lookups);
    GroupRow(groups[i], lookups.employees[groups[i].biometricUserId], lookups);
  }

  /**
   * Every row built from a group: it has a check-in (the earliest punch), a
   * check-out only when the group has two or more punches (then the latest,
   * never before the check-in), a worked time that is never negative, and
   * its status is entry only, half day or full day, as read off the punches.
   */
  lemma GroupRow(g: PunchGroup, emp: Employee, lookups: Lookups)
    requires g.logs != []
    ensures var r := RowOf(g, emp, lookups);
            && r.checkInTime == Some(EarliestTime(g.logs))
            && r.checkOutTime == (if |g.logs| > 1 then Some(LatestTime(g.logs)) else None)
            && (r.checkOutTime.Some? ==> r.checkInTime.value <= r.checkOutTime.value)
            && r.workingSeconds >= 0
            && r.workingSeconds == (if |g.logs| > 1 && LatestTime(g.logs) - EarliestTime(g.logs) >= MinimumSpan
                                    then LatestTime(g.logs) - EarliestTime(g.logs) else 0)
            && r.status == DayStatusOf(g.logs)
            && r.status in {CheckInOnly, HalfDay, FullAttendance}
  {
    RowOfEnds(g, emp, lookups);
    GroupStatus(g.logs);
    EndsTimes(g.logs);
    assert EarliestTime(g.logs) <= g.logs[0].attendanceTime <= LatestTime(g.logs);
  }

  /** The time fields of a row are those of the group's check-in and check-out and the worked time between them. */
  lemma RowOfEnds(g: PunchGroup, emp: Employee, lookups: Lookups)
    ensures var r := RowOf(g, emp, lookups);
            var checkIn := CheckIn(g.logs);
            var checkOut := CheckOut(g.logs);
            && r.checkInTime == (if checkIn.Some? then Some(checkIn.value.attendanceTime) else None)
            && r.checkOutTime == (if checkOut.Some? then Some(checkOut.value.attendanceTime) else None)
            && r.workingSeconds == CalculateWorkingHours(checkIn, checkOut)
            && r.status == GetAttendanceStatus(checkIn, checkOut, r.workingSeconds)
  {
  }

  /**
   * The names on a row: branch and device come from the check-in punch, "-"
   * when its id is not in the lookup; the shift is the dated assignment's,
   * else the default shift, "-" when there is neither.
   */
  lemma RowNames(g: PunchGroup, emp: Employee, lookups: Lookups)
    requires g.logs != []
    ensures var r := RowOf(g, emp, lookups);
            var checkIn := CheckIn(g.logs).value;
            && (checkIn.branchId !in lookups.branches ==> r.branchName == Unknown)
            && (checkIn.branchId in lookups.branches ==> r.branchName == lookups.branches[checkIn.branchId])
            && (checkIn.deviceId in lookups.devices ==> r.deviceName == lookups.devices[checkIn.deviceId])
            && (checkIn.deviceId !in lookups.devices ==> r.deviceName == Unknown)
    ensures var r := RowOf(g, emp, lookups);
            var dated := ShiftAssignmentService.GetEmployeeShiftForDate(lookups.assignments, lookups.shifts, emp.employeeId, Midnight(g.date));
            && (dated.Some? ==> r.shiftName == dated.value.shiftName)
            && (dated.None? && emp.defaultShiftId.Some? && HasKey(lookups.shifts, ShiftKey, emp.defaultShiftId.value) ==>
                  r.shiftName == Find(lookups.shifts, ShiftKey, emp.defaultShiftId.value).value.shiftName)
            && (dated.None? && emp.defaultShiftId.None? ==> r.shiftName == Unknown)
  {
  }
}
