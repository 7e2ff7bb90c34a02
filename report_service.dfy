/**
 * `ReportService`: the daily and the date-range attendance report. Every
 * listed employee gets one row: check-in is the earliest punch typed
 * "CheckIn" or untyped (else the earliest punch of any type), check-out the
 * latest punch typed "CheckOut" (else the latest punch, when it is not also
 * the earliest), and the status is "حاضر", "لم يسجل خروج" or "غائب".
 */
module ReportService {
  import opened Wrappers
  import opened Seqs
  import opened Calendar
  import opened Entities
  import opened Tables
  import opened Database
  import opened Punches
  import opened ReportDtos

  /** Shown for an employee without a department. */
  const Unspecified: string := "غير محدد"

  const CheckInType: string := "CheckIn"
  const CheckOutType: string := "CheckOut"

  /** `AttendanceType == "CheckIn" || AttendanceType == null`. */
  predicate IsCheckInPunch(l: AttendanceLog)
  {
    l.attendanceType.None? || l.attendanceType == Some(CheckInType)
  }

  /** `AttendanceType == "CheckOut"`. */
  predicate IsCheckOutPunch(l: AttendanceLog)
  {
    l.attendanceType == Some(CheckOutType)
  }

  predicate AnyPunch(l: AttendanceLog) { true }

  // ----- the group of one id -----

  /** `t` is the time of the earliest punch of `g` satisfying `p`. */
  predicate EarliestOf(g: seq<AttendanceLog>, p: AttendanceLog -> bool, t: Instant)
  {
    && (exists i :: 0 <= i < |g| && p(g[i]) && g[i].attendanceTime == t)
    && (forall i :: 0 <= i < |g| && p(g[i]) ==> t <= g[i].attendanceTime)
  }

  /** `t` is the time of the latest punch of `g` satisfying `p`. */
  predicate LatestOf(g: seq<AttendanceLog>, p: AttendanceLog -> bool, t: Instant)
  {
    && (exists i :: 0 <= i < |g| && p(g[i]) && g[i].attendanceTime == t)
    && (forall i :: 0 <= i < |g| && p(g[i]) ==> g[i].attendanceTime <= t)
  }

  /** `OrderBy(x => x.AttendanceTime).FirstOrDefault()?.AttendanceTime`. */
  function FirstTime(s: seq<AttendanceLog>): (r: Option<Instant>)
    ensures r.None? <==> s == []
    ensures r.Some? ==> EarliestOf(s, AnyPunch, r.value)
  {
    if s == [] then None else Some(EarliestTime(s))
  }

  /** `OrderByDescending(x => x.AttendanceTime).FirstOrDefault()?.AttendanceTime`. */
  function LastTime(s: seq<AttendanceLog>): (r: Option<Instant>)
    ensures r.None? <==> s == []
    ensures r.Some? ==> LatestOf(s, AnyPunch, r.value)
  {
    if s == [] then None else Some(LatestTime(s))
  }

  /** The anonymous record the grouping makes per id. */
  datatype GroupTimes = GroupTimes(
    firstCheckIn: Option<Instant>,
    lastCheckOut: Option<Instant>,
    firstRecord: Option<Instant>,
    lastRecord: Option<Instant>)

  function TimesOf(g: seq<AttendanceLog>): GroupTimes
  {
    GroupTimes(FirstTime(Filter(g, IsCheckInPunch)), LastTime(Filter(g, IsCheckOutPunch)), FirstTime(g), LastTime(g))
  }

  /** `GroupBy(a => a.BiometricUserId).Select(...).ToDictionary(x => x.BiometricUserId)`. */
  function GroupedAttendance(dayLogs: seq<AttendanceLog>): (r: map<string, GroupTimes>)
    ensures forall id :: id in r <==> id in PunchIds(dayLogs)
    ensures forall id :: id in r ==> r[id] == TimesOf(PunchesOf(dayLogs, id))
  {
    var ids := PunchIds(dayLogs);
    map id | id in ids :: TimesOf(PunchesOf(dayLogs, id))
  }

  // ----- one row -----

  /** `Department?.DepartmentName ?? "غير محدد"`. */
  function DepartmentLabel(e: Employee, departments: seq<Department>): string
  {
    if e.departmentId.None? then Unspecified
    else
      match Find(departments, DepartmentKey, e.departmentId.value)
      case None => Unspecified
      case Some(d) => d.departmentName
  }

  /** Check-in: the earliest typed or untyped check-in, else the earliest punch. */
  function CheckInFrom(a: GroupTimes): Option<Instant>
  {
    if a.firstCheckIn.Some? then a.firstCheckIn else a.firstRecord
  }

  /** Check-out: the latest typed check-out, else the latest punch when it differs from the earliest. */
  function CheckOutFrom(a: GroupTimes): Option<Instant>
  {
    if a.lastCheckOut.Some? then a.lastCheckOut
    else if a.lastRecord != a.firstRecord then a.lastRecord
    else None
  }

  /** The row the loop builds for employee `e`. */
  function ItemFor(e: Employee, departments: seq<Department>, grouped: map<string, GroupTimes>): DailyAttendanceItem
  {
    var item := NewItem(e.employeeId, e.employeeName, e.biometricUserId, DepartmentLabel(e, departments));
    if e.biometricUserId !in grouped then item
    else
      var first := CheckInFrom(grouped[e.biometricUserId]);
      var last := CheckOutFrom(grouped[e.biometricUserId]);
      var item := item.(firstCheckIn := first, lastCheckOut := last);
      if first.Some? && last.Some? then item.(totalWorkHours := Some(last.value - first.value), status := Present)
      else if first.Some? then item.(status := NoCheckOut)
      else item.(status := Absent)
  }

  /** The body of the loop: the row is built and its fields are assigned step by step. */
  method BuildItem(employee: Employee, departments: seq<Department>, grouped: map<string, GroupTimes>) returns (item: DailyAttendanceItem)
    ensures item == ItemFor(employee, departments, grouped)
  {
    item := NewItem(employee.employeeId, employee.employeeName, employee.biometricUserId, DepartmentLabel(employee, departments));
    if employee.biometricUserId in grouped {
      var attendance := grouped[employee.biometricUserId];
      item := item.(firstCheckIn := CheckInFrom(attendance));
      item := item.(lastCheckOut := CheckOutFrom(attendance));
      if item.firstCheckIn.Some? && item.lastCheckOut.Some? {
        item := item.(totalWorkHours := Some(item.lastCheckOut.value - item.firstCheckIn.value));
        item := item.(status := Present);
      } else if item.firstCheckIn.Some? && item.lastCheckOut.None? {
        item := item.(status := NoCheckOut);
      } else {
        item := item.(status := Absent);
      }
    } else {
      item := item.(status := Absent);
    }
  }

  function ItemsOf(s: seq<Employee>, departments: seq<Department>, grouped: map<string, GroupTimes>): (r: seq<DailyAttendanceItem>)
    ensures |r| == |s|
  {
    seq(|s|, i requires 0 <= i < |s| => ItemFor(s[i], departments, grouped))
  }

  lemma ItemsOfAppend(s: seq<Employee>, e: Employee, departments: seq<Department>, grouped: map<string, GroupTimes>)
    ensures ItemsOf(s + [e], departments, grouped) == ItemsOf(s, departments, grouped) + [ItemFor(e, departments, grouped)]
  {
    assert forall i :: 0 <= i < |s| ==> (s + [e])[i] == s[i];
  }

  /** One more employee adds its item exactly when it passes the filter. */
  lemma KeptItemsStep(all: seq<Employee>, i: int, keep: Employee -> bool, departments: seq<Department>, grouped: map<string, GroupTimes>)
    requires 0 <= i < |all|
    ensures ItemsOf(Filter(all[..i + 1], keep), departments, grouped)
         == ItemsOf(Filter(all[..i], keep), departments, grouped) + (if keep(all[i]) then [ItemFor(all[i], departments, grouped)] else [])
  {
    assert all[..i + 1] == all[..i] + [all[i]];
    FilterAppend(all[..i], [all[i]], keep);
    FilterSingle(all[i], keep);
    if keep(all[i]) {
      ItemsOfAppend(Filter(all[..i], keep), all[i], departments, grouped);
    } else {
      assert Filter(all[..i + 1], keep) == Filter(all[..i], keep);
    }
  }

  // ----- the report -----

  /** "حاضر" or "لم يسجل خروج": counted present. */
  predicate CountsPresent(x: DailyAttendanceItem)
  {
    x.status == Present || x.status == NoCheckOut
  }

  predicate CountsAbsent(x: DailyAttendanceItem)
  {
    x.status == Absent
  }

  /** `new DailyAttendanceReportDto { ... }`: the rows by name and the counts. */
  function ReportFrom(day: Day, all: seq<Employee>, items: seq<DailyAttendanceItem>): DailyAttendanceReport
  {
    DailyAttendanceReport(day, OrderItemsByName(items), |all|, |Filter(items, CountsPresent)|, |Filter(items, CountsAbsent)|)
  }

  /** The department-name filter of the daily report; an empty name filters nothing. */
  predicate InDailyScope(e: Employee, departments: seq<Department>, department: Option<string>)
  {
    && e.isActive
    && (department.Some? && department.value != [] ==>
          && e.departmentId.Some?
          && HasKey(departments, DepartmentKey, e.departmentId.value)
          && Find(departments, DepartmentKey, e.departmentId.value).value.departmentName == department.value)
  }

  function DailyScope(departments: seq<Department>, department: Option<string>): Employee -> bool
  {
    (e: Employee) => InDailyScope(e, departments, department)
  }

  /** The filters on the punches of both reports: the window, then the branch and device when given. */
  predicate InReportWindow(l: AttendanceLog, from: Instant, to: Instant, branchId: Option<int>, deviceId: Option<int>)
  {
    && InWindow(l, from, to)
    && (branchId.Some? ==> l.branchId == branchId.value)
    && (deviceId.Some? ==> l.deviceId == deviceId.value)
  }

  function ReportWindow(from: Instant, to: Instant, branchId: Option<int>, deviceId: Option<int>): AttendanceLog -> bool
  {
    (l: AttendanceLog) => InReportWindow(l, from, to, branchId, deviceId)
  }

  /**
   * `GetDailyAttendanceReportAsync`: the active employees (of the named
   * department), the punches of the day of `date` (of the branch); none on
   * the last representable day, where `AddDays(1)` throws.
   */
  function DailyReport(employees: seq<Employee>, departments: seq<Department>, logs: seq<AttendanceLog>,
                       date: Instant, branchId: Option<int>, department: Option<string>): (r: Option<DailyAttendanceReport>)
    ensures r.None? <==> DayOf(date) == MaxDay
    ensures r.Some? ==> r.value.date == DayOf(date) && ItemsNameOrdered(r.value.items)
  {
    match AddDays(DayOf(date), 1)
    case None => None
    case Some(next) =>
      var all := Filter(employees, DailyScope(departments, department));
      var dayLogs := Filter(logs, ReportWindow(Midnight(DayOf(date)), Midnight(next), branchId, None));
      Some(ReportFrom(DayOf(date), all, ItemsOf(all, departments, GroupedAttendance(dayLogs))))
  }

  /** The employee filter of the range report, applied in the query and again in the loop. */
  predicate InRangeScope(e: Employee, employeeId: Option<int>)
  {
    e.isActive && (employeeId.Some? ==> e.employeeId == employeeId.value)
  }

  function RangeScope(employeeId: Option<int>): Employee -> bool
  {
    (e: Employee) => InRangeScope(e, employeeId)
  }

  /** The loop's own check, `employeeId.HasValue && employee.EmployeeId != employeeId.Value` skips. */
  function SameEmployee(employeeId: Option<int>): Employee -> bool
  {
    (e: Employee) => employeeId.Some? ==> e.employeeId == employeeId.value
  }

  /**
   * `GetDailyAttendanceRangeReportAsync`: the punches from `fromDate`'s
   * midnight up to the midnight after `toDate` (of the branch and device),
   * dated `fromDate`; none when the day after `toDate` is not representable.
   */
  function RangeReport(employees: seq<Employee>, departments: seq<Department>, logs: seq<AttendanceLog>,
                       fromDate: Instant, toDate: Instant, branchId: Option<int>, deviceId: Option<int>,
                       employeeId: Option<int>): (r: Option<DailyAttendanceReport>)
    ensures r.None? <==> DayOf(toDate) == MaxDay
    ensures r.Some? ==> r.value.date == DayOf(fromDate) && ItemsNameOrdered(r.value.items)
  {
    match AddDays(DayOf(toDate), 1)
    case None => None
    case Some(next) =>
      var all := Filter(employees, RangeScope(employeeId));
      var rangeLogs := Filter(logs, ReportWindow(Midnight(DayOf(fromDate)), Midnight(next), branchId, deviceId));
      Some(ReportFrom(DayOf(fromDate), all, ItemsOf(Filter(all, SameEmployee(employeeId)), departments, GroupedAttendance(rangeLogs))))
  }

  /** The `foreach` over the employees of the daily report. */
  method GetDailyAttendanceReport(employees: seq<Employee>, departments: seq<Department>, logs: seq<AttendanceLog>,
                                  date: Instant, branchId: Option<int>, department: Option<string>)
    returns (report: Option<DailyAttendanceReport>)
    ensures report == DailyReport(employees, departments, logs, date, branchId, department)
  {
    var next := AddDays(DayOf(date), 1);
    if next.None? {
      return None;
    }
    var allEmployees := Filter(employees, DailyScope(departments, department));
    var attendanceLogs := Filter(logs, ReportWindow(Midnight(DayOf(date)), Midnight(next.value), branchId, None));
    var groupedAttendance := GroupedAttendance(attendanceLogs);
    var items: seq<DailyAttendanceItem> := [];
    var i := 0;
    while i < |allEmployees|
      invariant 0 <= i <= |allEmployees|
      invariant items == ItemsOf(allEmployees[..i], departments, groupedAttendance)
    {
      var item := BuildItem(allEmployees[i], departments, groupedAttendance);
      ItemsOfAppend(allEmployees[..i], allEmployees[i], departments, groupedAttendance);
      assert allEmployees[..i + 1] == allEmployees[..i] + [allEmployees[i]];
      items := items + [item];
      i := i + 1;
    }
    assert allEmployees[..i] == allEmployees;
    report := Some(ReportFrom(DayOf(date), allEmployees, items));
  }

  /**
   * `GetDailyAttendanceRangeReportAsync`: the employee and punch queries,
   * then the loop over the employees.
   */
  method GetDailyAttendanceRangeReport(employees: seq<Employee>, departments: seq<Department>, logs: seq<AttendanceLog>,
                                       fromDate: Instant, toDate: Instant, branchId: Option<int>, deviceId: Option<int>,
                                       employeeId: Option<int>)
    returns (report: Option<DailyAttendanceReport>)
    ensures report == RangeReport(employees, departments, logs, fromDate, toDate, branchId, deviceId, employeeId)
  {
    var next := AddDays(DayOf(toDate), 1);
    if next.None? {
      return None;
    }
    var allEmployees := Filter(employees, RangeScope(employeeId));
    var attendanceLogs := Filter(logs, ReportWindow(Midnight(DayOf(fromDate)), Midnight(next.value), branchId, deviceId));
    var groupedAttendance := GroupedAttendance(attendanceLogs);
    var items := RangeItems(allEmployees, departments, groupedAttendance, employeeId);
    report := Some(ReportFrom(DayOf(fromDate), allEmployees, items));
  }

  /** The `foreach` over the employees of the range report, with its `continue`. */
  method RangeItems(allEmployees: seq<Employee>, departments: seq<Department>, groupedAttendance: map<string, GroupTimes>,
                    employeeId: Option<int>)
    returns (items: seq<DailyAttendanceItem>)
    ensures items == ItemsOf(Filter(allEmployees, SameEmployee(employeeId)), departments, groupedAttendance)
  {
    var keep := SameEmployee(employeeId);
    items := [];
    var i := 0;
    while i < |allEmployees|
      invariant 0 <= i <= |allEmployees|
      invariant items == ItemsOf(Filter(allEmployees[..i], keep), departments, groupedAttendance)
    {
      var employee := allEmployees[i];
      KeptItemsStep(allEmployees, i, keep, departments, groupedAttendance);
      if employeeId.Some? && employee.employeeId != employeeId.value {
        i := i + 1;
        continue;
      }
      var item := BuildItem(employee, departments, groupedAttendance);
      items := items + [item];
      i := i + 1;
    }
    assert allEmployees[..i] == allEmployees;
  }

  // ----- what a row says -----

  predicate SomePunch(g: seq<AttendanceLog>, p: AttendanceLog -> bool)
  {
    exists i :: 0 <= i < |g| && p(g[i])
  }

  /** All of `g`'s punches fall on one instant. */
  predicate SingleInstant(g: seq<AttendanceLog>)
  {
    forall i, j :: 0 <= i < |g| && 0 <= j < |g| ==> g[i].attendanceTime == g[j].attendanceTime
  }

  /** `t` is the check-in of the punches `g`: the earliest typed or untyped check-in, else the earliest punch. */
  predicate CheckInOf(g: seq<AttendanceLog>, t: Instant)
  {
    if SomePunch(g, IsCheckInPunch) then EarliestOf(g, IsCheckInPunch, t) else EarliestOf(g, AnyPunch, t)
  }

  /**
   * `out` is the check-out of the punches `g`: the latest typed check-out;
   * else none when all punches share one instant, and the latest punch
   * otherwise.
   */
  predicate CheckOutOf(g: seq<AttendanceLog>, out: Option<Instant>)
  {
    if SomePunch(g, IsCheckOutPunch) then out.Some? && LatestOf(g, IsCheckOutPunch, out.value)
    else if SingleInstant(g) then out.None?
    else out.Some? && LatestOf(g, AnyPunch, out.value)
  }

  /**
   * `x` is employee `e`'s row given `e`'s punches `g`: "غائب" without
   * punches; otherwise a check-in, and "حاضر" with the hours between both
   * ends when there is a check-out, "لم يسجل خروج" when there is none.
   */
  predicate RowFacts(x: DailyAttendanceItem, e: Employee, departments: seq<Department>, g: seq<AttendanceLog>)
  {
    && x.employeeId == e.employeeId && x.employeeName == e.employeeName && x.biometricUserId == e.biometricUserId
    && x.department == DepartmentLabel(e, departments)
    && (g == [] ==> x.status == Absent && x.firstCheckIn.None? && x.lastCheckOut.None? && x.totalWorkHours.None?)
    && (g != [] ==>
          && x.firstCheckIn.Some? && CheckInOf(g, x.firstCheckIn.value) && CheckOutOf(g, x.lastCheckOut)
          && (x.lastCheckOut.Some? ==> x.status == Present && x.totalWorkHours == Some(x.lastCheckOut.value - x.firstCheckIn.value))
          && (x.lastCheckOut.None? ==> x.status == NoCheckOut && x.totalWorkHours.None?))
  }

  lemma EarliestFiltered(g: seq<AttendanceLog>, p: AttendanceLog -> bool)
    ensures FirstTime(Filter(g, p)).Some? <==> SomePunch(g, p)
    ensures FirstTime(Filter(g, p)).Some? ==> EarliestOf(g, p, FirstTime(Filter(g, p)).value)
  {
    var f := Filter(g, p);
    FilterEmpty(g, p);
    if f != [] {
      var t := FirstTime(f).value;
      var k :| 0 <= k < |f| && f[k].attendanceTime == t;
      var i :| 0 <= i < |g| && g[i] == f[k];
      forall j | 0 <= j < |g| && p(g[j])
        ensures t <= g[j].attendanceTime
      {
        var m :| 0 <= m < |f| && f[m] == g[j];
      }
    }
  }

  lemma LatestFiltered(g: seq<AttendanceLog>, p: AttendanceLog -> bool)
    ensures LastTime(Filter(g, p)).Some? <==> SomePunch(g, p)
    ensures LastTime(Filter(g, p)).Some? ==> LatestOf(g, p, LastTime(Filter(g, p)).value)
  {
    var f := Filter(g, p);
    FilterEmpty(g, p);
    if f != [] {
      var t := LastTime(f).value;
      var k :| 0 <= k < |f| && f[k].attendanceTime == t;
      var i :| 0 <= i < |g| && g[i] == f[k];
      forall j | 0 <= j < |g| && p(g[j])
        ensures g[j].attendanceTime <= t
      {
        var m :| 0 <= m < |f| && f[m] == g[j];
      }
    }
  }

  /** The earliest and the latest punch differ exactly when the punches are not all at one instant. */
  lemma RecordsDiffer(g: seq<AttendanceLog>)
    requires g != []
    ensures FirstTime(g) != LastTime(g) <==> !SingleInstant(g)
  {
    var lo := FirstTime(g).value;
    var hi := LastTime(g).value;
    if !SingleInstant(g) {
      var i, j :| 0 <= i < |g| && 0 <= j < |g| && g[i].attendanceTime != g[j].attendanceTime;
      assert lo <= g[i].attendanceTime <= hi && lo <= g[j].attendanceTime <= hi;
    } else {
      var a :| 0 <= a < |g| && g[a].attendanceTime == lo;
      var b :| 0 <= b < |g| && g[b].attendanceTime == hi;
      assert g[a].attendanceTime == g[b].attendanceTime;
    }
  }

  /** The ends the grouping records for the punches `g`, described without the grouping. */
  lemma TimesOfEnds(g: seq<AttendanceLog>)
    requires g != []
    ensures CheckInFrom(TimesOf(g)).Some? && CheckInOf(g, CheckInFrom(TimesOf(g)).value)
    ensures CheckOutOf(g, CheckOutFrom(TimesOf(g)))
  {
    EarliestFiltered(g, IsCheckInPunch);
    LatestFiltered(g, IsCheckOutPunch);
    RecordsDiffer(g);
  }

  /** The row of an employee whose recorded ends `t` hold a check-in: the ends, and the status they give. */
  lemma ItemForRecorded(e: Employee, departments: seq<Department>, grouped: map<string, GroupTimes>, t: GroupTimes)
    requires e.biometricUserId in grouped && grouped[e.biometricUserId] == t
    requires CheckInFrom(t).Some?
    ensures var x := ItemFor(e, departments, grouped);
            && x.employeeId == e.employeeId && x.employeeName == e.employeeName && x.biometricUserId == e.biometricUserId
            && x.department == DepartmentLabel(e, departments)
            && x.firstCheckIn == CheckInFrom(t) && x.lastCheckOut == CheckOutFrom(t)
            && (x.lastCheckOut.Some? ==> x.status == Present && x.totalWorkHours == Some(x.lastCheckOut.value - x.firstCheckIn.value))
            && (x.lastCheckOut.None? ==> x.status == NoCheckOut && x.totalWorkHours.None?)
  {
  }

  lemma ItemForTimes(e: Employee, departments: seq<Department>, grouped: map<string, GroupTimes>, g: seq<AttendanceLog>)
    requires e.biometricUserId in grouped <==> g != []
    requires e.biometricUserId in grouped ==> grouped[e.biometricUserId] == TimesOf(g)
    ensures RowFacts(ItemFor(e, departments, grouped), e, departments, g)
  {
    if g != [] {
      TimesOfEnds(g);
      ItemForRecorded(e, departments, grouped, TimesOf(g));
    }
  }

  /** The row of employee `e` is what `RowFacts` says of `e`'s punches among `dayLogs`. */
  lemma ItemForFacts(e: Employee, departments: seq<Department>, dayLogs: seq<AttendanceLog>)
    ensures RowFacts(ItemFor(e, departments, GroupedAttendance(dayLogs)), e, departments, PunchesOf(dayLogs, e.biometricUserId))
  {
    var id := e.biometricUserId;
    var g := PunchesOf(dayLogs, id);
    FilterEmpty(dayLogs, HeldBy(id));
    if g != [] {
      var i :| 0 <= i < |dayLogs| && HeldBy(id)(dayLogs[i]);
      assert id in PunchIds(dayLogs);
    } else {
      assert id !in PunchIds(dayLogs);
    }
    ItemForTimes(e, departments, GroupedAttendance(dayLogs), g);
  }

  /** With only untyped punches, a present row's hours are positive, and a row lacks a check-out only when all its punches share one instant. */
  lemma UntypedRows(x: DailyAttendanceItem, e: Employee, departments: seq<Department>, g: seq<AttendanceLog>)
    requires RowFacts(x, e, departments, g)
    requires forall i :: 0 <= i < |g| ==> g[i].attendanceType.None?
    ensures x.status == Present ==> x.totalWorkHours.Some? && x.totalWorkHours.value > 0
    ensures x.status == NoCheckOut <==> g != [] && SingleInstant(g)
  {
    if g != [] {
      assert IsCheckInPunch(g[0]);
      assert !SomePunch(g, IsCheckOutPunch);
      if x.status == Present {
        var lo := x.firstCheckIn.value;
        var hi := x.lastCheckOut.value;
        var a :| 0 <= a < |g| && g[a].attendanceTime == lo;
        var b :| 0 <= b < |g| && g[b].attendanceTime == hi;
        var i, j :| 0 <= i < |g| && 0 <= j < |g| && g[i].attendanceTime != g[j].attendanceTime;
        assert IsCheckInPunch(g[i]) && IsCheckInPunch(g[j]);
      }
    }
  }

  // ----- what the report says -----

  lemma StatusSplit(items: seq<DailyAttendanceItem>)
    ensures |Filter(items, CountsPresent)| + |Filter(items, CountsAbsent)| == |items|
  {
    FilterSplit(items, CountsPresent, CountsAbsent);
  }

  /** `x` is the row of one of the listed employees `all`, given the punches `dayLogs`. */
  predicate RowOfListed(x: DailyAttendanceItem, all: seq<Employee>, departments: seq<Department>, dayLogs: seq<AttendanceLog>)
  {
    exists j :: 0 <= j < |all| && RowFacts(x, all[j], departments, PunchesOf(dayLogs, all[j].biometricUserId))
  }

  /** Some row of `items` is employee `e`'s, given `e`'s punches `g`. */
  predicate HasRow(items: seq<DailyAttendanceItem>, e: Employee, departments: seq<Department>, g: seq<AttendanceLog>)
  {
    exists k :: 0 <= k < |items| && RowFacts(items[k], e, departments, g)
  }

  /** The report built from the listed employees `all` and the punches `dayLogs`. */
  lemma ReportFromFacts(day: Day, all: seq<Employee>, departments: seq<Department>, dayLogs: seq<AttendanceLog>)
    ensures |ReportFrom(day, all, ItemsOf(all, departments, GroupedAttendance(dayLogs))).items| == |all|
    ensures ReportFrom(day, all, ItemsOf(all, departments, GroupedAttendance(dayLogs))).totalEmployees == |all|
    ensures ReportFrom(day, all, ItemsOf(all, departments, GroupedAttendance(dayLogs))).presentCount +
            ReportFrom(day, all, ItemsOf(all, departments, GroupedAttendance(dayLogs))).absentCount == |all|
    ensures forall k :: 0 <= k < |ReportFrom(day, all, ItemsOf(all, departments, GroupedAttendance(dayLogs))).items| ==>
              RowOfListed(ReportFrom(day, all, ItemsOf(all, departments, GroupedAttendance(dayLogs))).items[k], all, departments, dayLogs)
    ensures forall j :: 0 <= j < |all| ==>
              HasRow(ReportFrom(day, all, ItemsOf(all, departments, GroupedAttendance(dayLogs))).items, all[j], departments,
                     PunchesOf(dayLogs, all[j].biometricUserId))
  {
    var grouped := GroupedAttendance(dayLogs);
    var items := ItemsOf(all, departments, grouped);
    var r := ReportFrom(day, all, items);
    StatusSplit(items);
    var rowOfSome := (x: DailyAttendanceItem) => RowOfListed(x, all, departments, dayLogs);
    forall k | 0 <= k < |items|
      ensures rowOfSome(items[k])
    {
      ItemForFacts(all[k], departments, dayLogs);
    }
    AllPermutation(items, r.items, rowOfSome);
    forall j | 0 <= j < |all|
      ensures HasRow(r.items, all[j], departments, PunchesOf(dayLogs, all[j].biometricUserId))
    {
      ItemForFacts(all[j], departments, dayLogs);
      InPermutation(items, r.items, items[j]);
    }
  }

  /** `id`'s punches among those the report's filters keep. */
  function OwnWindow(id: string, from: Instant, to: Instant, branchId: Option<int>, deviceId: Option<int>): AttendanceLog -> bool
  {
    (l: AttendanceLog) => InReportWindow(l, from, to, branchId, deviceId) && l.biometricUserId == id
  }

  function OwnPunches(logs: seq<AttendanceLog>, id: string, from: Instant, to: Instant, branchId: Option<int>, deviceId: Option<int>): seq<AttendanceLog>
  {
    Filter(logs, OwnWindow(id, from, to, branchId, deviceId))
  }

  lemma WindowGroup(logs: seq<AttendanceLog>, id: string, from: Instant, to: Instant, branchId: Option<int>, deviceId: Option<int>)
    ensures PunchesOf(Filter(logs, ReportWindow(from, to, branchId, deviceId)), id) == OwnPunches(logs, id, from, to, branchId, deviceId)
  {
    FilterFilter(logs, ReportWindow(from, to, branchId, deviceId), HeldBy(id), OwnWindow(id, from, to, branchId, deviceId));
  }

  /** `x` is the row of one of the employees in scope, given that employee's punches in the window. */
  predicate RowOfScoped(x: DailyAttendanceItem, employees: seq<Employee>, scope: Employee -> bool, departments: seq<Department>,
                        logs: seq<AttendanceLog>, from: Instant, to: Instant, branchId: Option<int>, deviceId: Option<int>)
  {
    exists j :: 0 <= j < |employees| && scope(employees[j]) &&
      RowFacts(x, employees[j], departments, OwnPunches(logs, employees[j].biometricUserId, from, to, branchId, deviceId))
  }

  /**
   * The rows of a report, stated over the whole employee and punch tables:
   * every row is an employee in scope's, every employee in scope has one,
   * and the counts add up.
   */
  predicate RowsCover(r: DailyAttendanceReport, employees: seq<Employee>, scope: Employee -> bool, departments: seq<Department>,
                      logs: seq<AttendanceLog>, from: Instant, to: Instant, branchId: Option<int>, deviceId: Option<int>)
  {
    && |r.items| == r.totalEmployees == r.presentCount + r.absentCount
    && (forall k :: 0 <= k < |r.items| ==> RowOfScoped(r.items[k], employees, scope, departments, logs, from, to, branchId, deviceId))
    && (forall j :: 0 <= j < |employees| && scope(employees[j]) ==>
          HasRow(r.items, employees[j], departments, OwnPunches(logs, employees[j].biometricUserId, from, to, branchId, deviceId)))
  }

  /** Rows stated over the listed employees and the kept punches, restated over the whole tables. */
  lemma CoverFromRows(r: DailyAttendanceReport, all: seq<Employee>, dayLogs: seq<AttendanceLog>,
                      employees: seq<Employee>, scope: Employee -> bool, departments: seq<Department>,
                      logs: seq<AttendanceLog>, from: Instant, to: Instant, branchId: Option<int>, deviceId: Option<int>)
    requires all == Filter(employees, scope) && dayLogs == Filter(logs, ReportWindow(from, to, branchId, deviceId))
    requires |r.items| == r.totalEmployees == r.presentCount + r.absentCount
    requires forall k :: 0 <= k < |r.items| ==> RowOfListed(r.items[k], all, departments, dayLogs)
    requires forall j :: 0 <= j < |all| ==> HasRow(r.items, all[j], departments, PunchesOf(dayLogs, all[j].biometricUserId))
    ensures RowsCover(r, employees, scope, departments, logs, from, to, branchId, deviceId)
  {
    forall k | 0 <= k < |r.items|
      ensures RowOfScoped(r.items[k], employees, scope, departments, logs, from, to, branchId, deviceId)
    {
      assert RowOfListed(r.items[k], all, departments, dayLogs);
      var j :| 0 <= j < |all| && RowFacts(r.items[k], all[j], departments, PunchesOf(dayLogs, all[j].biometricUserId));
      WindowGroup(logs, all[j].biometricUserId, from, to, branchId, deviceId);
      var m :| 0 <= m < |employees| && employees[m] == all[j];
    }
    forall j | 0 <= j < |employees| && scope(employees[j])
      ensures HasRow(r.items, employees[j], departments, OwnPunches(logs, employees[j].biometricUserId, from, to, branchId, deviceId))
    {
      var m :| 0 <= m < |all| && all[m] == employees[j];
      WindowGroup(logs, employees[j].biometricUserId, from, to, branchId, deviceId);
      assert HasRow(r.items, all[m], departments, PunchesOf(dayLogs, all[m].biometricUserId));
    }
  }

  lemma ReportOver(day: Day, employees: seq<Employee>, scope: Employee -> bool, departments: seq<Department>,
                   logs: seq<AttendanceLog>, from: Instant, to: Instant, branchId: Option<int>, deviceId: Option<int>)
    ensures RowsCover(ReportFrom(day, Filter(employees, scope),
                                 ItemsOf(Filter(employees, scope), departments, GroupedAttendance(Filter(logs, ReportWindow(from, to, branchId, deviceId))))),
                      employees, scope, departments, logs, from, to, branchId, deviceId)
  {
    var all := Filter(employees, scope);
    var dayLogs := Filter(logs, ReportWindow(from, to, branchId, deviceId));
    var r := ReportFrom(day, all, ItemsOf(all, departments, GroupedAttendance(dayLogs)));
    ReportFromFacts(day, all, departments, dayLogs);
    CoverFromRows(r, all, dayLogs, employees, scope, departments, logs, from, to, branchId, deviceId);
  }

  /**
   * The daily report has one row per active employee (of the named
   * department), each telling that employee's punches of the day apart as
   * `RowFacts` says; its counts add up to the number of employees.
   */
  lemma DailyReportRows(employees: seq<Employee>, departments: seq<Department>, logs: seq<AttendanceLog>,
                        date: Instant, branchId: Option<int>, department: Option<string>)
    requires DayOf(date) < MaxDay
    ensures RowsCover(DailyReport(employees, departments, logs, date, branchId, department).value, employees,
                      DailyScope(departments, department), departments, logs,
                      Midnight(DayOf(date)), Midnight(DayOf(date)) + SecondsPerDay, branchId, None)
  {
    var from := Midnight(DayOf(date));
    var to := Midnight(DayOf(date)) + SecondsPerDay;
    var all := Filter(employees, DailyScope(departments, department));
    assert Midnight(AddDays(DayOf(date), 1).value) == to;
    assert DailyReport(employees, departments, logs, date, branchId, department).value ==
           ReportFrom(DayOf(date), all, ItemsOf(all, departments, GroupedAttendance(Filter(logs, ReportWindow(from, to, branchId, None)))));
    ReportOver(DayOf(date), employees, DailyScope(departments, department), departments, logs, from, to, branchId, None);
  }

  /**
   * The range report has one row per active employee (the one asked for,
   * when given): the loop's own employee check never skips anyone the query
   * kept.
   */
  lemma RangeReportRows(employees: seq<Employee>, departments: seq<Department>, logs: seq<AttendanceLog>,
                        fromDate: Instant, toDate: Instant, branchId: Option<int>, deviceId: Option<int>, employeeId: Option<int>)
    requires DayOf(toDate) < MaxDay
    ensures RowsCover(RangeReport(employees, departments, logs, fromDate, toDate, branchId, deviceId, employeeId).value, employees,
                      RangeScope(employeeId), departments, logs,
                      Midnight(DayOf(fromDate)), Midnight(DayOf(toDate)) + SecondsPerDay, branchId, deviceId)
  {
    var from := Midnight(DayOf(fromDate));
    var to := Midnight(DayOf(toDate)) + SecondsPerDay;
    var all := Filter(employees, RangeScope(employeeId));
    FilterKeepsAll(all, SameEmployee(employeeId));
    assert Midnight(AddDays(DayOf(toDate), 1).value) == to;
    assert RangeReport(employees, departments, logs, fromDate, toDate, branchId, deviceId, employeeId).value ==
           ReportFrom(DayOf(fromDate), all, ItemsOf(all, departments, GroupedAttendance(Filter(logs, ReportWindow(from, to, branchId, deviceId)))));
    ReportOver(DayOf(fromDate), employees, RangeScope(employeeId), departments, logs, from, to, branchId, deviceId);
  }

  /** A punch falls in the range report's window exactly when its day is between the two dates' days. */
  lemma RangeWindowDays(l: AttendanceLog, fromDate: Instant, toDate: Instant)
    requires DayOf(toDate) < MaxDay
    ensures InWindow(l, Midnight(DayOf(fromDate)), Midnight(DayOf(toDate)) + SecondsPerDay) <==>
            DayOf(fromDate) <= DayOf(l.attendanceTime) <= DayOf(toDate)
  {
    SameDayIffInWindow(l.attendanceTime, DayOf(l.attendanceTime));
  }
}
