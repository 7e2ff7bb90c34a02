/**
 * `AttendanceService`: the two reports built from one calendar day's
 * punches. The plain daily report lists every biometric id that punched,
 * with its first and last punch and the span between them; the summary
 * splits the active employees into present ones (with their punctuality)
 * and absent ones.
 */
module AttendanceService {
  import opened Wrappers
  import opened Seqs
  import opened Text
  import opened Calendar
  import opened Entities
  import opened Tables
  import opened Database
  import opened Punches
  import opened ReportDtos
  import EmployeeRepository
  import AttendanceLogRepository

  /** A check-in whose time of day is after 08:00:00 is late. */
  const LateAfter: int := 8 * SecondsPerHour

  /** Shown for a missing SSN or department. */
  const NoValue: string := "-"

  /** Shown for a punch whose employee is not known. */
  const UnknownEmployee: string := "غير معروف"

  // ----- the day and its punches -----

  /**
   * `date.Date` and `date.Date.AddDays(1)`; none on the last representable
   * day, where `AddDays` throws.
   */
  function DayBounds(date: Instant): (r: Option<(Instant, Instant)>)
    ensures r.None? <==> DayOf(date) == MaxDay
    ensures r.Some? ==> r.value.0 == Midnight(DayOf(date)) && r.value.1 == r.value.0 + SecondsPerDay
  {
    var d := DayOf(date);
    match AddDays(d, 1)
    case None => None
    case Some(next) => Some((Midnight(d), Midnight(next)))
  }

  /** `GetByDateRangeAsync(startDate, endDate, null, branchId)`. */
  function DayPunches(logs: seq<AttendanceLog>, employees: seq<Employee>, bounds: (Instant, Instant), branchId: Option<int>): seq<AttendanceLog>
  {
    AttendanceLogRepository.GetByDateRange(logs, employees, bounds.0, bounds.1, None, branchId, None)
  }

  /** A punch the day's query returns: on that calendar day, and of the branch when one is given. */
  predicate PunchOfDay(l: AttendanceLog, date: Instant, branchId: Option<int>)
  {
    DayOf(l.attendanceTime) == DayOf(date) && (branchId.Some? ==> l.branchId == branchId.value)
  }

  function OfDay(date: Instant, branchId: Option<int>): AttendanceLog -> bool
  {
    (l: AttendanceLog) => PunchOfDay(l, date, branchId)
  }

  /** The day's query returns exactly the stored punches of that calendar day (and branch). */
  lemma DayPunchesOfDay(logs: seq<AttendanceLog>, employees: seq<Employee>, date: Instant, branchId: Option<int>)
    requires DayOf(date) < MaxDay
    ensures var p := DayPunches(logs, employees, DayBounds(date).value, branchId);
            && (forall i :: 0 <= i < |p| ==> p[i] in logs && PunchOfDay(p[i], date, branchId))
            && (forall i :: 0 <= i < |logs| && PunchOfDay(logs[i], date, branchId) ==> logs[i] in p)
            && multiset(p) == multiset(Filter(logs, OfDay(date, branchId)))
  {
    DayPunchesAreOfDay(logs, employees, date, branchId);
    DayPunchesComplete(logs, employees, date, branchId);
    DayWindowIsDay(logs, employees, date, branchId);
  }

  lemma DayPunchesAreOfDay(logs: seq<AttendanceLog>, employees: seq<Employee>, date: Instant, branchId: Option<int>)
    requires DayOf(date) < MaxDay
    ensures var p := DayPunches(logs, employees, DayBounds(date).value, branchId);
            forall i :: 0 <= i < |p| ==> p[i] in logs && PunchOfDay(p[i], date, branchId)
  {
    var p := DayPunches(logs, employees, DayBounds(date).value, branchId);
    forall i | 0 <= i < |p|
      ensures PunchOfDay(p[i], date, branchId)
    {
      SameDayIffInWindow(p[i].attendanceTime, DayOf(date));
    }
  }

  lemma DayPunchesComplete(logs: seq<AttendanceLog>, employees: seq<Employee>, date: Instant, branchId: Option<int>)
    requires DayOf(date) < MaxDay
    ensures var p := DayPunches(logs, employees, DayBounds(date).value, branchId);
            forall i :: 0 <= i < |logs| && PunchOfDay(logs[i], date, branchId) ==> logs[i] in p
  {
    var p := DayPunches(logs, employees, DayBounds(date).value, branchId);
    forall i | 0 <= i < |logs| && PunchOfDay(logs[i], date, branchId)
      ensures logs[i] in p
    {
      SameDayIffInWindow(logs[i].attendanceTime, DayOf(date));
    }
  }

  /** The day's window filters the punches as the calendar day (and branch) does. */
  lemma DayWindowIsDay(logs: seq<AttendanceLog>, employees: seq<Employee>, date: Instant, branchId: Option<int>)
    requires DayOf(date) < MaxDay
    ensures var bounds := DayBounds(date).value;
            Filter(logs, AttendanceLogRepository.RangeFilter(employees, bounds.0, bounds.1, None, branchId, None))
            == Filter(logs, OfDay(date, branchId))
  {
    var bounds := DayBounds(date).value;
    var window := AttendanceLogRepository.RangeFilter(employees, bounds.0, bounds.1, None, branchId, None);
    forall l | l in logs
      ensures window(l) == OfDay(date, branchId)(l)
    {
      SameDayIffInWindow(l.attendanceTime, DayOf(date));
    }
    FilterCongruent(logs, window, OfDay(date, branchId));
  }

  /** `l` is a punch of `id` on the day (and branch) of the report. */
  predicate PunchBy(l: AttendanceLog, id: string, date: Instant, branchId: Option<int>)
  {
    l.biometricUserId == id && PunchOfDay(l, date, branchId)
  }

  predicate PunchedOn(logs: seq<AttendanceLog>, id: string, date: Instant, branchId: Option<int>)
  {
    exists i :: 0 <= i < |logs| && PunchBy(logs[i], id, date, branchId)
  }

  /**
   * `first` and `last` are the times of the earliest and of the latest of
   * `id`'s punches that day.
   */
  predicate FirstAndLast(logs: seq<AttendanceLog>, id: string, date: Instant, branchId: Option<int>, first: int, last: int)
  {
    && (exists i :: 0 <= i < |logs| && PunchBy(logs[i], id, date, branchId) && logs[i].attendanceTime == first)
    && (exists i :: 0 <= i < |logs| && PunchBy(logs[i], id, date, branchId) && logs[i].attendanceTime == last)
    && (forall i :: 0 <= i < |logs| && PunchBy(logs[i], id, date, branchId) ==> first <= logs[i].attendanceTime <= last)
  }

  /**
   * Ordered by time, a non-empty group starts with its earliest punch and
   * ends with its latest; ordered the other way, it starts with the latest.
   */
  lemma OrderedEnds(g: seq<AttendanceLog>)
    requires g != []
    ensures var asc := OrderByTime(g);
            var desc := OrderByTimeDescending(g);
            && asc != [] && desc != []
            && asc[0] in g && asc[|asc| - 1] in g
            && (forall l :: l in g ==> asc[0].attendanceTime <= l.attendanceTime <= asc[|asc| - 1].attendanceTime)
            && desc[0].attendanceTime == asc[|asc| - 1].attendanceTime
  {
    var asc := OrderByTime(g);
    var desc := OrderByTimeDescending(g);
    OrderByTimeMembers(g, g[0]);
    forall l | l in g
      ensures asc[0].attendanceTime <= l.attendanceTime <= asc[|asc| - 1].attendanceTime
    {
      OrderByTimeMembers(g, l);
      var m :| 0 <= m < |asc| && asc[m] == l;
    }
    OrderByTimeMembers(g, asc[0]);
    OrderByTimeMembers(g, asc[|asc| - 1]);
    OrderByTimeMembers(g, desc[0]);
    var m :| 0 <= m < |asc| && asc[m] == desc[0];
    var n :| 0 <= n < |desc| && desc[n] == asc[|asc| - 1];
  }

  /**
   * The group of a punching id holds its punches of the day, so ordered
   * either way it starts with the earliest and with the latest of them.
   */
  lemma GroupEnds(logs: seq<AttendanceLog>, day: seq<AttendanceLog>, date: Instant, branchId: Option<int>, id: string)
    requires forall i :: 0 <= i < |day| ==> day[i] in logs && PunchOfDay(day[i], date, branchId)
    requires forall i :: 0 <= i < |logs| && PunchOfDay(logs[i], date, branchId) ==> logs[i] in day
    requires id in PunchIds(day)
    ensures var g := PunchesOf(day, id);
            var asc := OrderByTime(g);
            var desc := OrderByTimeDescending(g);
            && asc != [] && desc != []
            && FirstAndLast(logs, id, date, branchId, asc[0].attendanceTime, asc[|asc| - 1].attendanceTime)
            && desc[0].attendanceTime == asc[|asc| - 1].attendanceTime
  {
    var g := PunchesOf(day, id);
    var i :| 0 <= i < |day| && day[i].biometricUserId == id;
    FilterMember(day, HeldBy(id), day[i]);
    OrderedEnds(g);
    var asc := OrderByTime(g);
    GroupFirstAndLast(logs, day, date, branchId, id, asc[0], asc[|asc| - 1]);
  }

  /** The earliest and latest punch of an id's group are its first and last punch of the day. */
  lemma GroupFirstAndLast(logs: seq<AttendanceLog>, day: seq<AttendanceLog>, date: Instant, branchId: Option<int>, id: string,
                          lo: AttendanceLog, hi: AttendanceLog)
    requires forall i :: 0 <= i < |day| ==> day[i] in logs && PunchOfDay(day[i], date, branchId)
    requires forall i :: 0 <= i < |logs| && PunchOfDay(logs[i], date, branchId) ==> logs[i] in day
    requires lo in PunchesOf(day, id) && hi in PunchesOf(day, id)
    requires forall l :: l in PunchesOf(day, id) ==> lo.attendanceTime <= l.attendanceTime <= hi.attendanceTime
    ensures FirstAndLast(logs, id, date, branchId, lo.attendanceTime, hi.attendanceTime)
  {
    FilterMember(day, HeldBy(id), lo);
    FilterMember(day, HeldBy(id), hi);
    var a :| 0 <= a < |day| && day[a] == lo;
    var b :| 0 <= b < |day| && day[b] == hi;
    var a' :| 0 <= a' < |logs| && logs[a'] == lo;
    var b' :| 0 <= b' < |logs| && logs[b'] == hi;
    forall j | 0 <= j < |logs| && PunchBy(logs[j], id, date, branchId)
      ensures lo.attendanceTime <= logs[j].attendanceTime <= hi.attendanceTime
    {
      FilterMember(day, HeldBy(id), logs[j]);
    }
  }

  // ----- employee fields -----

  /** `SSN ?? "-"`. */
  function EmployeeNumber(e: Employee): string
  {
    if e.ssn.Some? then e.ssn.value else NoValue
  }

  /** `Department?.DepartmentName ?? "-"`, the department loaded through the employee's foreign key. */
  function DepartmentNameOf(departmentId: Option<int>, departments: seq<Department>): string
  {
    if departmentId.None? then NoValue
    else
      match Find(departments, DepartmentKey, departmentId.value)
      case None => NoValue
      case Some(d) => d.departmentName
  }

  // ----- GetDailyAttendanceReportSummaryAsync -----

  /**
   * The entry the loop adds for employee `e`, from `e`'s punches of the day
   * ordered by time: check-in the first, check-out the last, a duration only
   * when check-out is strictly later, late when check-in is after 08:00:00,
   * and never an early leave.
   */
  function PresentEntryOf(e: Employee, departments: seq<Department>, employeeLogs: seq<AttendanceLog>): PresentEmployee
  {
    var checkIn := if employeeLogs == [] then None else Some(employeeLogs[0].attendanceTime);
    var checkOut := if employeeLogs == [] then None else Some(employeeLogs[|employeeLogs| - 1].attendanceTime);
    var workDuration := if checkIn.Some? && checkOut.Some? && checkOut.value > checkIn.value then Some(checkOut.value - checkIn.value) else None;
    var isLate := checkIn.Some? && TimeOfDay(checkIn.value) > LateAfter;
    PresentEmployee(e.employeeId, EmployeeNumber(e), e.employeeName, e.biometricUserId,
                    DepartmentNameOf(e.departmentId, departments), checkIn, checkOut, workDuration,
                    if isLate then Late else OnTime, isLate, false)
  }

  /** One turn of the loop over the punching ids: skip an id no listed employee holds. */
  function PresentEntry(all: seq<Employee>, departments: seq<Department>, dayLogs: seq<AttendanceLog>): string -> Option<PresentEmployee>
  {
    (id: string) =>
      var e := Find(all, EmployeeBiometricKey, id);
      if e.None? then None
      else Some(PresentEntryOf(e.value, departments, OrderByTime(PunchesOf(dayLogs, id))))
  }

  function AbsentEntryOf(e: Employee, departments: seq<Department>): AbsentEmployee
  {
    AbsentEmployee(e.employeeId, EmployeeNumber(e), e.employeeName, e.biometricUserId,
                   DepartmentNameOf(e.departmentId, departments), e.phoneNumber, UnexcusedAbsence)
  }

  function NotPunched(ids: seq<string>): Employee -> bool
  {
    (e: Employee) => e.biometricUserId !in ids
  }

  function Punched(ids: seq<string>): Employee -> bool
  {
    (e: Employee) => e.biometricUserId in ids
  }

  /** `Select(e => new AbsentEmployeeDto { ... })`. */
  function AbsentEntries(s: seq<Employee>, departments: seq<Department>): seq<AbsentEmployee>
  {
    seq(|s|, i requires 0 <= i < |s| => AbsentEntryOf(s[i], departments))
  }

  function IsLate(p: PresentEmployee): bool { p.isLate }
  function IsEarlyLeave(p: PresentEmployee): bool { p.isEarlyLeave }

  /** The summary built from the listed employees `all` and the day's punches `dayLogs`. */
  function SummaryFrom(all: seq<Employee>, departments: seq<Department>, dayLogs: seq<AttendanceLog>, date: Instant): Summary
  {
    var ids := PunchIds(dayLogs);
    var present := Choose(ids, PresentEntry(all, departments, dayLogs));
    var absent := AbsentEntries(Filter(all, NotPunched(ids)), departments);
    Summary(date, |all|, |present|, |absent|, |Filter(present, IsLate)|, |Filter(present, IsEarlyLeave)|,
            OrderPresentByName(present), OrderAbsentByName(absent))
  }

  /**
   * The summary of the day of `date`: the listed employees are the active
   * ones (of the department, when one is given); the punches are the day's
   * (of the branch, when one is given). Both lists come out ordered by name.
   */
  function SummaryOf(employees: seq<Employee>, departments: seq<Department>, logs: seq<AttendanceLog>,
                     date: Instant, branchId: Option<int>, departmentId: Option<int>): (r: Option<Summary>)
    ensures r.None? <==> DayOf(date) == MaxDay
    ensures r.Some? ==> r.value.reportDate == date
    ensures r.Some? ==> PresentNameOrdered(r.value.presentEmployees) && AbsentNameOrdered(r.value.absentEmployees)
    ensures r.Some? ==> r.value.presentCount == |r.value.presentEmployees| && r.value.absentCount == |r.value.absentEmployees|
  {
    match DayBounds(date)
    case None => None
    case Some(bounds) =>
      Some(SummaryFrom(EmployeeRepository.GetFilteredEmployees(employees, departmentId), departments,
                       DayPunches(logs, employees, bounds, branchId), date))
  }

  /** The body of the loop for a listed employee, with `employeeLogs` its punches of the day by time. */
  method PresentEntryFor(employee: Employee, departments: seq<Department>, employeeLogs: seq<AttendanceLog>) returns (item: PresentEmployee)
    ensures item == PresentEntryOf(employee, departments, employeeLogs)
  {
    var checkIn: Option<Instant> := None;
    var checkOut: Option<Instant> := None;
    if employeeLogs != [] {
      checkIn := Some(employeeLogs[0].attendanceTime);
      checkOut := Some(employeeLogs[|employeeLogs| - 1].attendanceTime);
    }
    var workDuration: Option<int> := None;
    if checkIn.Some? && checkOut.Some? && checkOut.value > checkIn.value {
      workDuration := Some(checkOut.value - checkIn.value);
    }
    var isLate := false;
    var isEarlyLeave := false;
    var status := OnTime;
    if checkIn.Some? && TimeOfDay(checkIn.value) > LateAfter {
      isLate := true;
      status := Late;
    }
    item := PresentEmployee(
      employee.employeeId, EmployeeNumber(employee), employee.employeeName, employee.biometricUserId,
      DepartmentNameOf(employee.departmentId, departments), checkIn, checkOut, workDuration,
      status, isLate, isEarlyLeave);
  }

  /** `GetDailyAttendanceReportSummaryAsync`: the day's queries, the present list, then the absent list. */
  method GetDailyAttendanceReportSummary(employees: seq<Employee>, departments: seq<Department>, logs: seq<AttendanceLog>,
                                         date: Instant, branchId: Option<int>, departmentId: Option<int>)
    returns (summary: Option<Summary>)
    ensures summary == SummaryOf(employees, departments, logs, date, branchId, departmentId)
  {
    var bounds := DayBounds(date);
    if bounds.None? {
      return None;
    }
    var allEmployees := EmployeeRepository.GetFilteredEmployees(employees, departmentId);
    var attendanceLogs := DayPunches(logs, employees, bounds.value, branchId);
    var presentEmployeeIds := PunchIds(attendanceLogs);
    var presentEmployees := PresentEntries(allEmployees, departments, attendanceLogs, presentEmployeeIds);
    var absentEmployees := AbsentEntries(Filter(allEmployees, NotPunched(presentEmployeeIds)), departments);
    summary := Some(Summary(
      date, |allEmployees|, |presentEmployees|, |absentEmployees|,
      |Filter(presentEmployees, IsLate)|, |Filter(presentEmployees, IsEarlyLeave)|,
      OrderPresentByName(presentEmployees), OrderAbsentByName(absentEmployees)));
  }

  /** The loop over the punching ids: an entry for each id that a listed employee holds. */
  method PresentEntries(allEmployees: seq<Employee>, departments: seq<Department>, attendanceLogs: seq<AttendanceLog>,
                        presentEmployeeIds: seq<string>)
    returns (presentEmployees: seq<PresentEmployee>)
    ensures presentEmployees == Choose(presentEmployeeIds, PresentEntry(allEmployees, departments, attendanceLogs))
  {
    ghost var entry := PresentEntry(allEmployees, departments, attendanceLogs);
    presentEmployees := [];
    var i := 0;
    while i < |presentEmployeeIds|
      invariant 0 <= i <= |presentEmployeeIds|
      invariant presentEmployees == Choose(presentEmployeeIds[..i], entry)
    {
      var biometricId := presentEmployeeIds[i];
      ChooseStep(presentEmployeeIds, entry, i);
      var employee := Find(allEmployees, EmployeeBiometricKey, biometricId);
      if employee.Some? {
        var employeeLogs := OrderByTime(PunchesOf(attendanceLogs, biometricId));
        var item := PresentEntryFor(employee.value, departments, employeeLogs);
        assert entry(biometricId) == Some(item);
        presentEmployees := presentEmployees + [item];
      } else {
        assert entry(biometricId).None?;
      }
      i := i + 1;
    }
    assert presentEmployeeIds[..i] == presentEmployeeIds;
  }

  predicate ListedPresent(s: Summary, id: string)
  {
    exists k :: 0 <= k < |s.presentEmployees| && s.presentEmployees[k].biometricUserId == id
  }

  predicate ListedAbsent(s: Summary, id: string)
  {
    exists k :: 0 <= k < |s.absentEmployees| && s.absentEmployees[k].biometricUserId == id
  }

  /** `e` is one of the employees the summary lists: active, and of the department when one is given. */
  predicate InScope(e: Employee, departmentId: Option<int>)
  {
    e.isActive && (departmentId.Some? ==> e.departmentId == Some(departmentId.value))
  }

  /**
   * What a present entry says: it is a listed employee's, its check-in and
   * check-out are that employee's first and last punch of the day, it has a
   * duration exactly when check-out is strictly later, it is late exactly
   * when check-in is after 08:00:00, and it never leaves early.
   */
  predicate PresentEntryFacts(p: PresentEmployee, employees: seq<Employee>, logs: seq<AttendanceLog>,
                              date: Instant, branchId: Option<int>, departmentId: Option<int>)
  {
    && (exists j :: 0 <= j < |employees| && InScope(employees[j], departmentId) &&
          employees[j].biometricUserId == p.biometricUserId && employees[j].employeeId == p.employeeId &&
          employees[j].employeeName == p.employeeName && EmployeeNumber(employees[j]) == p.employeeNumber)
    && p.checkInTime.Some? && p.checkOutTime.Some?
    && FirstAndLast(logs, p.biometricUserId, date, branchId, p.checkInTime.value, p.checkOutTime.value)
    && (p.workDuration.Some? <==> p.checkOutTime.value > p.checkInTime.value)
    && (p.workDuration.Some? ==> p.workDuration.value == p.checkOutTime.value - p.checkInTime.value)
    && (p.isLate <==> TimeOfDay(p.checkInTime.value) > LateAfter)
    && (p.status == Late <==> p.isLate)
    && !p.isEarlyLeave
  }

  /** What an absent entry says: it is a listed employee's who did not punch that day, with the fixed reason. */
  predicate AbsentEntryFacts(a: AbsentEmployee, employees: seq<Employee>, logs: seq<AttendanceLog>,
                             date: Instant, branchId: Option<int>, departmentId: Option<int>)
  {
    && (exists j :: 0 <= j < |employees| && InScope(employees[j], departmentId) &&
          employees[j].biometricUserId == a.biometricUserId && employees[j].employeeId == a.employeeId &&
          employees[j].employeeName == a.employeeName && employees[j].phoneNumber == a.phoneNumber)
    && !PunchedOn(logs, a.biometricUserId, date, branchId)
    && a.absentReason == UnexcusedAbsence
  }

  /** `all` lists exactly the employees in scope. */
  predicate ListsInScope(all: seq<Employee>, employees: seq<Employee>, departmentId: Option<int>)
  {
    && (forall x :: x in all ==> x in employees && InScope(x, departmentId))
    && (forall j :: 0 <= j < |employees| && InScope(employees[j], departmentId) ==> employees[j] in all)
  }

  /** `dayLogs` holds exactly the stored punches of the day (and branch). */
  predicate HoldsDay(dayLogs: seq<AttendanceLog>, logs: seq<AttendanceLog>, date: Instant, branchId: Option<int>)
  {
    && (forall i :: 0 <= i < |dayLogs| ==> dayLogs[i] in logs && PunchOfDay(dayLogs[i], date, branchId))
    && (forall i :: 0 <= i < |logs| && PunchOfDay(logs[i], date, branchId) ==> logs[i] in dayLogs)
  }

  lemma SummaryInputs(employees: seq<Employee>, logs: seq<AttendanceLog>, date: Instant, branchId: Option<int>, departmentId: Option<int>)
    requires DayOf(date) < MaxDay
    ensures ListsInScope(EmployeeRepository.GetFilteredEmployees(employees, departmentId), employees, departmentId)
    ensures HoldsDay(DayPunches(logs, employees, DayBounds(date).value, branchId), logs, date, branchId)
  {
    DayPunchesOfDay(logs, employees, date, branchId);
  }

  /** The entry made for one punching id, when a listed employee holds it. */
  lemma PresentEntryHolds(all: seq<Employee>, departments: seq<Department>, dayLogs: seq<AttendanceLog>,
                          employees: seq<Employee>, logs: seq<AttendanceLog>,
                          date: Instant, branchId: Option<int>, departmentId: Option<int>, id: string)
    requires ListsInScope(all, employees, departmentId) && HoldsDay(dayLogs, logs, date, branchId)
    requires id in PunchIds(dayLogs) && PresentEntry(all, departments, dayLogs)(id).Some?
    ensures var p := PresentEntry(all, departments, dayLogs)(id).value;
            p.biometricUserId == id && PresentEntryFacts(p, employees, logs, date, branchId, departmentId)
  {
    GroupEnds(logs, dayLogs, date, branchId, id);
    var e := Find(all, EmployeeBiometricKey, id).value;
    var j :| 0 <= j < |employees| && employees[j] == e;
  }

  lemma PresentFromEntries(all: seq<Employee>, departments: seq<Department>, dayLogs: seq<AttendanceLog>,
                           employees: seq<Employee>, logs: seq<AttendanceLog>,
                           date: Instant, branchId: Option<int>, departmentId: Option<int>)
    requires ListsInScope(all, employees, departmentId) && HoldsDay(dayLogs, logs, date, branchId)
    ensures forall k :: 0 <= k < |Choose(PunchIds(dayLogs), PresentEntry(all, departments, dayLogs))| ==>
              PresentEntryFacts(Choose(PunchIds(dayLogs), PresentEntry(all, departments, dayLogs))[k], employees, logs, date, branchId, departmentId)
  {
    var ids := PunchIds(dayLogs);
    var entry := PresentEntry(all, departments, dayLogs);
    var present := Choose(ids, entry);
    ChooseMembers(ids, entry);
    forall k | 0 <= k < |present|
      ensures PresentEntryFacts(present[k], employees, logs, date, branchId, departmentId)
    {
      var i :| 0 <= i < |ids| && entry(ids[i]) == Some(present[k]);
      PresentEntryHolds(all, departments, dayLogs, employees, logs, date, branchId, departmentId, ids[i]);
    }
  }

  lemma AbsentFromEntries(all: seq<Employee>, departments: seq<Department>, dayLogs: seq<AttendanceLog>,
                          employees: seq<Employee>, logs: seq<AttendanceLog>,
                          date: Instant, branchId: Option<int>, departmentId: Option<int>)
    requires ListsInScope(all, employees, departmentId) && HoldsDay(dayLogs, logs, date, branchId)
    ensures forall k :: 0 <= k < |AbsentEntries(Filter(all, NotPunched(PunchIds(dayLogs))), departments)| ==>
              AbsentEntryFacts(AbsentEntries(Filter(all, NotPunched(PunchIds(dayLogs))), departments)[k], employees, logs, date, branchId, departmentId)
  {
    var ids := PunchIds(dayLogs);
    var source := Filter(all, NotPunched(ids));
    var absent := AbsentEntries(source, departments);
    forall k | 0 <= k < |absent|
      ensures AbsentEntryFacts(absent[k], employees, logs, date, branchId, departmentId)
    {
      var a := absent[k];
      var e := source[k];
      assert e in all;
      var j :| 0 <= j < |employees| && employees[j] == e;
    }
  }

  lemma SummaryFromEntries(all: seq<Employee>, departments: seq<Department>, dayLogs: seq<AttendanceLog>,
                           employees: seq<Employee>, logs: seq<AttendanceLog>,
                           date: Instant, branchId: Option<int>, departmentId: Option<int>)
    requires ListsInScope(all, employees, departmentId) && HoldsDay(dayLogs, logs, date, branchId)
    ensures var r := SummaryFrom(all, departments, dayLogs, date);
            && (forall k :: 0 <= k < |r.presentEmployees| ==>
                  PresentEntryFacts(r.presentEmployees[k], employees, logs, date, branchId, departmentId))
            && (forall k :: 0 <= k < |r.absentEmployees| ==>
                  AbsentEntryFacts(r.absentEmployees[k], employees, logs, date, branchId, departmentId))
  {
    var r := SummaryFrom(all, departments, dayLogs, date);
    var ids := PunchIds(dayLogs);
    var present := Choose(ids, PresentEntry(all, departments, dayLogs));
    var absent := AbsentEntries(Filter(all, NotPunched(ids)), departments);
    PresentFromEntries(all, departments, dayLogs, employees, logs, date, branchId, departmentId);
    AbsentFromEntries(all, departments, dayLogs, employees, logs, date, branchId, departmentId);
    var presentFacts := (x: PresentEmployee) => PresentEntryFacts(x, employees, logs, date, branchId, departmentId);
    var absentFacts := (x: AbsentEmployee) => AbsentEntryFacts(x, employees, logs, date, branchId, departmentId);
    forall i | 0 <= i < |present|
      ensures presentFacts(present[i])
    {
      assert PresentEntryFacts(present[i], employees, logs, date, branchId, departmentId);
    }
    forall i | 0 <= i < |absent|
      ensures absentFacts(absent[i])
    {
      assert AbsentEntryFacts(absent[i], employees, logs, date, branchId, departmentId);
    }
    AllPermutation(present, r.presentEmployees, presentFacts);
    AllPermutation(absent, r.absentEmployees, absentFacts);
    forall k | 0 <= k < |r.presentEmployees|
      ensures PresentEntryFacts(r.presentEmployees[k], employees, logs, date, branchId, departmentId)
    {
      assert presentFacts(r.presentEmployees[k]);
    }
    forall k | 0 <= k < |r.absentEmployees|
      ensures AbsentEntryFacts(r.absentEmployees[k], employees, logs, date, branchId, departmentId)
    {
      assert absentFacts(r.absentEmployees[k]);
    }
  }

  /** Every entry of the summary says what its list promises. */
  lemma SummaryEntries(employees: seq<Employee>, departments: seq<Department>, logs: seq<AttendanceLog>,
                       date: Instant, branchId: Option<int>, departmentId: Option<int>)
    ensures var r := SummaryOf(employees, departments, logs, date, branchId, departmentId);
            r.Some? ==>
              && (forall k :: 0 <= k < |r.value.presentEmployees| ==>
                    PresentEntryFacts(r.value.presentEmployees[k], employees, logs, date, branchId, departmentId))
              && (forall k :: 0 <= k < |r.value.absentEmployees| ==>
                    AbsentEntryFacts(r.value.absentEmployees[k], employees, logs, date, branchId, departmentId))
  {
    if DayOf(date) < MaxDay {
      SummaryInputs(employees, logs, date, branchId, departmentId);
      SummaryFromEntries(EmployeeRepository.GetFilteredEmployees(employees, departmentId), departments,
                         DayPunches(logs, employees, DayBounds(date).value, branchId),
                         employees, logs, date, branchId, departmentId);
    }
  }

  // ----- counts -----

  function Bid(e: Employee): string { e.biometricUserId }
  function PresentBid(p: PresentEmployee): string { p.biometricUserId }
  function AbsentBid(a: AbsentEmployee): string { a.biometricUserId }

  /** Every listed employee is counted once, as present or as absent. */
  predicate CountsAddUp(s: Summary)
  {
    s.totalEmployees == s.presentCount + s.absentCount
  }

  /** The late count is the number of late entries, and nobody is counted as leaving early. */
  predicate LateCounted(s: Summary)
  {
    && s.lateCount == |Filter(s.presentEmployees, IsLate)|
    && s.earlyLeaveCount == 0
    && (forall k :: 0 <= k < |s.presentEmployees| ==> !s.presentEmployees[k].isEarlyLeave)
  }

  /** No biometric id has two entries in either list. */
  predicate OneEntryPerId(s: Summary)
  {
    && (forall k, k' :: 0 <= k < k' < |s.presentEmployees| ==>
          s.presentEmployees[k].biometricUserId != s.presentEmployees[k'].biometricUserId)
    && (forall k, k' :: 0 <= k < k' < |s.absentEmployees| ==>
          s.absentEmployees[k].biometricUserId != s.absentEmployees[k'].biometricUserId)
  }

  /** An entry is made exactly for the ids a listed employee holds, and carries that id. */
  lemma EntryForHeldIds(all: seq<Employee>, departments: seq<Department>, dayLogs: seq<AttendanceLog>)
    ensures forall k :: PresentEntry(all, departments, dayLogs)(k).Some? <==>
              exists i :: 0 <= i < |all| && Bid(all[i]) == k
    ensures forall k :: PresentEntry(all, departments, dayLogs)(k).Some? ==>
              PresentBid(PresentEntry(all, departments, dayLogs)(k).value) == k &&
              !PresentEntry(all, departments, dayLogs)(k).value.isEarlyLeave
  {
  }

  lemma SummaryFromCounts(all: seq<Employee>, departments: seq<Department>, dayLogs: seq<AttendanceLog>, date: Instant)
    requires forall i, j :: 0 <= i < j < |all| ==> all[i].biometricUserId != all[j].biometricUserId
    ensures CountsAddUp(SummaryFrom(all, departments, dayLogs, date))
    ensures SummaryFrom(all, departments, dayLogs, date).totalEmployees == |all|
  {
    var ids := PunchIds(dayLogs);
    EntryForHeldIds(all, departments, dayLogs);
    ChooseFilterPartition(all, Bid, ids, PresentEntry(all, departments, dayLogs), Punched(ids), NotPunched(ids));
  }

  lemma SummaryFromLate(all: seq<Employee>, departments: seq<Department>, dayLogs: seq<AttendanceLog>, date: Instant)
    ensures LateCounted(SummaryFrom(all, departments, dayLogs, date))
  {
    var r := SummaryFrom(all, departments, dayLogs, date);
    var ids := PunchIds(dayLogs);
    var entry := PresentEntry(all, departments, dayLogs);
    var present := Choose(ids, entry);
    FilterPermutation(present, r.presentEmployees, IsLate);
    EntryForHeldIds(all, departments, dayLogs);
    ChooseAll(ids, entry, (x: PresentEmployee) => !x.isEarlyLeave);
    AllPermutation(present, r.presentEmployees, (x: PresentEmployee) => !x.isEarlyLeave);
    FilterEmpty(present, IsEarlyLeave);
  }

  lemma PresentDistinct(all: seq<Employee>, departments: seq<Department>, dayLogs: seq<AttendanceLog>)
    ensures forall k, k' :: 0 <= k < k' < |Choose(PunchIds(dayLogs), PresentEntry(all, departments, dayLogs))| ==>
              PresentBid(Choose(PunchIds(dayLogs), PresentEntry(all, departments, dayLogs))[k]) !=
              PresentBid(Choose(PunchIds(dayLogs), PresentEntry(all, departments, dayLogs))[k'])
  {
    EntryForHeldIds(all, departments, dayLogs);
    ChooseDistinct(PunchIds(dayLogs), PresentEntry(all, departments, dayLogs), (x: string) => x, PresentBid);
  }

  lemma AbsentDistinct(all: seq<Employee>, departments: seq<Department>, ids: seq<string>)
    requires forall i, j :: 0 <= i < j < |all| ==> all[i].biometricUserId != all[j].biometricUserId
    ensures forall k, k' :: 0 <= k < k' < |AbsentEntries(Filter(all, NotPunched(ids)), departments)| ==>
              AbsentBid(AbsentEntries(Filter(all, NotPunched(ids)), departments)[k]) !=
              AbsentBid(AbsentEntries(Filter(all, NotPunched(ids)), departments)[k'])
  {
    var source := Filter(all, NotPunched(ids));
    KeysDistinctFilter(all, NotPunched(ids), Bid);
    var absent := AbsentEntries(source, departments);
    assert forall k :: 0 <= k < |absent| ==> AbsentBid(absent[k]) == Bid(source[k]);
  }

  lemma SummaryFromDistinct(all: seq<Employee>, departments: seq<Department>, dayLogs: seq<AttendanceLog>, date: Instant)
    requires forall i, j :: 0 <= i < j < |all| ==> all[i].biometricUserId != all[j].biometricUserId
    ensures OneEntryPerId(SummaryFrom(all, departments, dayLogs, date))
  {
    var r := SummaryFrom(all, departments, dayLogs, date);
    var ids := PunchIds(dayLogs);
    PresentDistinct(all, departments, dayLogs);
    KeysDistinctPermutation(Choose(ids, PresentEntry(all, departments, dayLogs)), r.presentEmployees, PresentBid);
    AbsentDistinct(all, departments, ids);
    KeysDistinctPermutation(AbsentEntries(Filter(all, NotPunched(ids)), departments), r.absentEmployees, AbsentBid);
  }

  /**
   * With biometric ids unique among employees (the unique index), every
   * listed employee is counted exactly once, as present or as absent; the
   * total is the number of active employees (of the department, when one is
   * given); the late count counts the late entries and the early-leave count
   * is zero; and no id has two entries in a list.
   */
  lemma SummaryCounts(employees: seq<Employee>, departments: seq<Department>, logs: seq<AttendanceLog>,
                      date: Instant, branchId: Option<int>, departmentId: Option<int>)
    requires UniqueKeys(employees, EmployeeBiometricKey)
    ensures SummaryOf(employees, departments, logs, date, branchId, departmentId).Some? ==>
              && CountsAddUp(SummaryOf(employees, departments, logs, date, branchId, departmentId).value)
              && SummaryOf(employees, departments, logs, date, branchId, departmentId).value.totalEmployees ==
                   |Filter(employees, EmployeeRepository.InDepartment(departmentId))|
              && LateCounted(SummaryOf(employees, departments, logs, date, branchId, departmentId).value)
              && OneEntryPerId(SummaryOf(employees, departments, logs, date, branchId, departmentId).value)
  {
    if DayOf(date) < MaxDay {
      var all := EmployeeRepository.GetFilteredEmployees(employees, departmentId);
      var dayLogs := DayPunches(logs, employees, DayBounds(date).value, branchId);
      var inScope := Filter(employees, EmployeeRepository.InDepartment(departmentId));
      KeysDistinctFilter(employees, EmployeeRepository.InDepartment(departmentId), EmployeeBiometricKey);
      KeysDistinctPermutation(inScope, all, EmployeeBiometricKey);
      assert |all| == |multiset(all)| == |multiset(inScope)| == |inScope|;
      SummaryFromCounts(all, departments, dayLogs, date);
      SummaryFromLate(all, departments, dayLogs, date);
      SummaryFromDistinct(all, departments, dayLogs, date);
    }
  }

  // ----- present or absent -----

  /** A listed employee's id is among the punching ids exactly when the employee punched that day. */
  lemma PunchIdsArePunches(dayLogs: seq<AttendanceLog>, logs: seq<AttendanceLog>, date: Instant, branchId: Option<int>, id: string)
    requires HoldsDay(dayLogs, logs, date, branchId)
    ensures id in PunchIds(dayLogs) <==> PunchedOn(logs, id, date, branchId)
  {
    if id in PunchIds(dayLogs) {
      var y :| 0 <= y < |dayLogs| && dayLogs[y].biometricUserId == id;
      var x :| 0 <= x < |logs| && logs[x] == dayLogs[y];
      assert PunchBy(logs[x], id, date, branchId);
    }
    if PunchedOn(logs, id, date, branchId) {
      var x :| 0 <= x < |logs| && PunchBy(logs[x], id, date, branchId);
      var y :| 0 <= y < |dayLogs| && dayLogs[y] == logs[x];
    }
  }

  lemma PunchedIsListedPresent(all: seq<Employee>, departments: seq<Department>, dayLogs: seq<AttendanceLog>, date: Instant, e: Employee)
    requires e in all && e.biometricUserId in PunchIds(dayLogs)
    ensures ListedPresent(SummaryFrom(all, departments, dayLogs, date), e.biometricUserId)
  {
    var r := SummaryFrom(all, departments, dayLogs, date);
    var ids := PunchIds(dayLogs);
    var entry := PresentEntry(all, departments, dayLogs);
    var present := Choose(ids, entry);
    EntryForHeldIds(all, departments, dayLogs);
    var t :| 0 <= t < |all| && all[t] == e;
    assert Bid(all[t]) == e.biometricUserId;
    var i :| 0 <= i < |ids| && ids[i] == e.biometricUserId;
    ChooseMembers(ids, entry);
    var p := entry(ids[i]).value;
    InPermutation(present, r.presentEmployees, p);
  }

  lemma UnpunchedIsListedAbsent(all: seq<Employee>, departments: seq<Department>, dayLogs: seq<AttendanceLog>, date: Instant, e: Employee)
    requires e in all && e.biometricUserId !in PunchIds(dayLogs)
    ensures ListedAbsent(SummaryFrom(all, departments, dayLogs, date), e.biometricUserId)
  {
    var r := SummaryFrom(all, departments, dayLogs, date);
    var ids := PunchIds(dayLogs);
    var source := Filter(all, NotPunched(ids));
    var absent := AbsentEntries(source, departments);
    var t :| 0 <= t < |all| && all[t] == e;
    assert NotPunched(ids)(all[t]);
    var m :| 0 <= m < |source| && source[m] == e;
    assert absent[m].biometricUserId == e.biometricUserId;
    InPermutation(absent, r.absentEmployees, absent[m]);
  }

  lemma PresentIdsPunched(all: seq<Employee>, departments: seq<Department>, dayLogs: seq<AttendanceLog>)
    ensures forall k :: 0 <= k < |Choose(PunchIds(dayLogs), PresentEntry(all, departments, dayLogs))| ==>
              Choose(PunchIds(dayLogs), PresentEntry(all, departments, dayLogs))[k].biometricUserId in PunchIds(dayLogs)
  {
    var ids := PunchIds(dayLogs);
    var entry := PresentEntry(all, departments, dayLogs);
    EntryForHeldIds(all, departments, dayLogs);
    ChooseMembers(ids, entry);
    forall k | 0 <= k < |Choose(ids, entry)|
      ensures Choose(ids, entry)[k].biometricUserId in ids
    {
      var i :| 0 <= i < |ids| && entry(ids[i]) == Some(Choose(ids, entry)[k]);
    }
  }

  lemma AbsentIdsUnpunched(all: seq<Employee>, departments: seq<Department>, ids: seq<string>)
    ensures forall k :: 0 <= k < |AbsentEntries(Filter(all, NotPunched(ids)), departments)| ==>
              AbsentEntries(Filter(all, NotPunched(ids)), departments)[k].biometricUserId !in ids
  {
    var source := Filter(all, NotPunched(ids));
    forall k | 0 <= k < |AbsentEntries(source, departments)|
      ensures AbsentEntries(source, departments)[k].biometricUserId !in ids
    {
      assert NotPunched(ids)(source[k]);
    }
  }

  /** The present entries are for punching ids. */
  lemma SummaryFromPresentIds(all: seq<Employee>, departments: seq<Department>, dayLogs: seq<AttendanceLog>, date: Instant)
    ensures forall k :: 0 <= k < |SummaryFrom(all, departments, dayLogs, date).presentEmployees| ==>
              SummaryFrom(all, departments, dayLogs, date).presentEmployees[k].biometricUserId in PunchIds(dayLogs)
  {
    var ids := PunchIds(dayLogs);
    var present := Choose(ids, PresentEntry(all, departments, dayLogs));
    var isPunching := (x: PresentEmployee) => x.biometricUserId in ids;
    PresentIdsPunched(all, departments, dayLogs);
    assert forall k :: 0 <= k < |present| ==> isPunching(present[k]);
    AllPermutation(present, OrderPresentByName(present), isPunching);
  }

  /** The absent entries are for the other ids. */
  lemma SummaryFromAbsentIds(all: seq<Employee>, departments: seq<Department>, dayLogs: seq<AttendanceLog>, date: Instant)
    ensures forall k :: 0 <= k < |SummaryFrom(all, departments, dayLogs, date).absentEmployees| ==>
              SummaryFrom(all, departments, dayLogs, date).absentEmployees[k].biometricUserId !in PunchIds(dayLogs)
  {
    var ids := PunchIds(dayLogs);
    var absent := AbsentEntries(Filter(all, NotPunched(ids)), departments);
    var notPunching := (x: AbsentEmployee) => x.biometricUserId !in ids;
    AbsentIdsUnpunched(all, departments, ids);
    assert forall k :: 0 <= k < |absent| ==> notPunching(absent[k]);
    AllPermutation(absent, OrderAbsentByName(absent), notPunching);
  }

  lemma SummaryFromPlaces(all: seq<Employee>, departments: seq<Department>, dayLogs: seq<AttendanceLog>,
                          employees: seq<Employee>, logs: seq<AttendanceLog>,
                          date: Instant, branchId: Option<int>, departmentId: Option<int>, e: Employee)
    requires ListsInScope(all, employees, departmentId) && HoldsDay(dayLogs, logs, date, branchId)
    requires e in all
    ensures ListedPresent(SummaryFrom(all, departments, dayLogs, date), e.biometricUserId) <==>
            PunchedOn(logs, e.biometricUserId, date, branchId)
    ensures ListedAbsent(SummaryFrom(all, departments, dayLogs, date), e.biometricUserId) <==>
            !PunchedOn(logs, e.biometricUserId, date, branchId)
  {
    var id := e.biometricUserId;
    SummaryFromPresentIds(all, departments, dayLogs, date);
    SummaryFromAbsentIds(all, departments, dayLogs, date);
    PunchIdsArePunches(dayLogs, logs, date, branchId, id);
    if id in PunchIds(dayLogs) {
      PunchedIsListedPresent(all, departments, dayLogs, date, e);
    } else {
      UnpunchedIsListedAbsent(all, departments, dayLogs, date, e);
    }
  }

  /**
   * Every employee the summary lists (active, of the department when one is
   * given) is in the present list exactly when they punched that day (of
   * the branch, when one is given), and in the absent list exactly when
   * they did not: each is in exactly one of the two lists.
   */
  lemma SummaryPlacesEveryone(employees: seq<Employee>, departments: seq<Department>, logs: seq<AttendanceLog>,
                              date: Instant, branchId: Option<int>, departmentId: Option<int>, j: int)
    requires 0 <= j < |employees| && InScope(employees[j], departmentId)
    ensures SummaryOf(employees, departments, logs, date, branchId, departmentId).Some? ==>
              && (ListedPresent(SummaryOf(employees, departments, logs, date, branchId, departmentId).value, employees[j].biometricUserId) <==>
                  PunchedOn(logs, employees[j].biometricUserId, date, branchId))
              && (ListedAbsent(SummaryOf(employees, departments, logs, date, branchId, departmentId).value, employees[j].biometricUserId) <==>
                  !PunchedOn(logs, employees[j].biometricUserId, date, branchId))
  {
    if DayOf(date) < MaxDay {
      SummaryInputs(employees, logs, date, branchId, departmentId);
      SummaryFromPlaces(EmployeeRepository.GetFilteredEmployees(employees, departmentId), departments,
                        DayPunches(logs, employees, DayBounds(date).value, branchId),
                        employees, logs, date, branchId, departmentId, employees[j]);
    }
  }

  /**
   * A punching id that no listed employee holds is skipped: it is counted
   * neither present nor absent.
   */
  lemma SummarySkipsUnheldIds(employees: seq<Employee>, departments: seq<Department>, logs: seq<AttendanceLog>,
                              date: Instant, branchId: Option<int>, departmentId: Option<int>, id: string)
    requires forall j :: 0 <= j < |employees| && InScope(employees[j], departmentId) ==> employees[j].biometricUserId != id
    ensures SummaryOf(employees, departments, logs, date, branchId, departmentId).Some? ==>
              && !ListedPresent(SummaryOf(employees, departments, logs, date, branchId, departmentId).value, id)
              && !ListedAbsent(SummaryOf(employees, departments, logs, date, branchId, departmentId).value, id)
  {
    SummaryEntries(employees, departments, logs, date, branchId, departmentId);
  }

  // ----- GetDailyAttendanceReportAsync -----

  /** The punch's `Employee` navigation, resolved through its `EmployeeId`. */
  function LogEmployee(l: AttendanceLog, employees: seq<Employee>): Option<Employee>
  {
    if l.employeeId.None? then None else Find(employees, EmployeeKey, l.employeeId.value)
  }

  /**
   * The row the `Select` makes for the group of `id` among the day's
   * punches: the employee of the group's first punch (0, "غير معروف" and "-"
   * when it has none), the earliest and the latest punch, no hours yet and
   * the status "حاضر".
   */
  function GroupItem(employees: seq<Employee>, departments: seq<Department>, dayLogs: seq<AttendanceLog>, id: string): DailyAttendanceItem
  {
    var g := PunchesOf(dayLogs, id);
    ItemOf(GroupEmployee(g, employees), departments, id, GroupFirst(g), GroupLast(g))
  }

  /** `g.First().Employee`. */
  function GroupEmployee(g: seq<AttendanceLog>, employees: seq<Employee>): Option<Employee>
  {
    if g == [] then None else LogEmployee(g[0], employees)
  }

  /** `g.OrderBy(l => l.AttendanceTime).FirstOrDefault()?.AttendanceTime`. */
  function GroupFirst(g: seq<AttendanceLog>): Option<Instant>
  {
    var asc := OrderByTime(g);
    if asc == [] then None else Some(asc[0].attendanceTime)
  }

  /** `g.OrderByDescending(l => l.AttendanceTime).FirstOrDefault()?.AttendanceTime`. */
  function GroupLast(g: seq<AttendanceLog>): Option<Instant>
  {
    var desc := OrderByTimeDescending(g);
    if desc == [] then None else Some(desc[0].attendanceTime)
  }

  function ItemOf(e: Option<Employee>, departments: seq<Department>, id: string, first: Option<Instant>, last: Option<Instant>): DailyAttendanceItem
  {
    DailyAttendanceItem(
      if e.Some? then e.value.employeeId else 0,
      if e.Some? then e.value.employeeName else UnknownEmployee,
      id,
      if e.Some? then DepartmentNameOf(e.value.departmentId, departments) else NoValue,
      first,
      last,
      None,
      Present)
  }

  /** `GroupBy(l => l.BiometricUserId).Select(...).OrderBy(r => r.EmployeeName)`. */
  function GroupedItems(employees: seq<Employee>, departments: seq<Department>, dayLogs: seq<AttendanceLog>): seq<DailyAttendanceItem>
  {
    var ids := PunchIds(dayLogs);
    OrderItemsByName(seq(|ids|, i requires 0 <= i < |ids| => GroupItem(employees, departments, dayLogs, ids[i])))
  }

  /** One turn of the `TotalWorkHours` loop: the span between both ends, when both are present. */
  function WithTotal(item: DailyAttendanceItem): DailyAttendanceItem
  {
    if item.firstCheckIn.Some? && item.lastCheckOut.Some? then
      item.(totalWorkHours := Some(item.lastCheckOut.value - item.firstCheckIn.value))
    else item
  }

  function WithTotals(s: seq<DailyAttendanceItem>): seq<DailyAttendanceItem>
  {
    seq(|s|, i requires 0 <= i < |s| => WithTotal(s[i]))
  }

  /**
   * The plain daily report of the day of `date` (and branch, when one is
   * given); none on the last representable day.
   */
  function DailyItemsOf(employees: seq<Employee>, departments: seq<Department>, logs: seq<AttendanceLog>,
                        date: Instant, branchId: Option<int>): (r: Option<seq<DailyAttendanceItem>>)
    ensures r.None? <==> DayOf(date) == MaxDay
  {
    match DayBounds(date)
    case None => None
    case Some(bounds) => Some(WithTotals(GroupedItems(employees, departments, DayPunches(logs, employees, bounds, branchId))))
  }

  /**
   * `GetDailyAttendanceReportAsync`: the rows are grouped and sorted, then a
   * loop fills in each row's hours. The department filter is accepted and
   * not applied.
   */
  method GetDailyAttendanceReport(employees: seq<Employee>, departments: seq<Department>, logs: seq<AttendanceLog>,
                                  date: Instant, branchId: Option<int>, departmentId: Option<int>)
    returns (report: Option<seq<DailyAttendanceItem>>)
    ensures report == DailyItemsOf(employees, departments, logs, date, branchId)
  {
    var bounds := DayBounds(date);
    if bounds.None? {
      return None;
    }
    var logsOfDay := DayPunches(logs, employees, bounds.value, branchId);
    var grouped := GroupedItems(employees, departments, logsOfDay);
    grouped := FillTotals(grouped);
    report := Some(grouped);
  }

  /** The `foreach` that sets each row's `TotalWorkHours` in place. */
  method FillTotals(items: seq<DailyAttendanceItem>) returns (grouped: seq<DailyAttendanceItem>)
    ensures grouped == WithTotals(items)
  {
    grouped := items;
    var i := 0;
    while i < |grouped|
      invariant 0 <= i <= |grouped| == |items|
      invariant forall k :: 0 <= k < i ==> grouped[k] == WithTotal(items[k])
      invariant forall k :: i <= k < |grouped| ==> grouped[k] == items[k]
    {
      var item := grouped[i];
      if item.firstCheckIn.Some? && item.lastCheckOut.Some? {
        item := item.(totalWorkHours := Some(item.lastCheckOut.value - item.firstCheckIn.value));
      }
      grouped := grouped[i := item];
      i := i + 1;
    }
  }

  // ----- what the plain daily report says -----

  /**
   * A row of the plain daily report: status "حاضر", the first and last of
   * the id's punches that day, and the hours between them.
   */
  predicate ItemFacts(x: DailyAttendanceItem, logs: seq<AttendanceLog>, date: Instant, branchId: Option<int>)
  {
    && x.status == Present
    && x.firstCheckIn.Some? && x.lastCheckOut.Some?
    && FirstAndLast(logs, x.biometricUserId, date, branchId, x.firstCheckIn.value, x.lastCheckOut.value)
    && x.totalWorkHours == Some(x.lastCheckOut.value - x.firstCheckIn.value)
  }

  /**
   * The row names the employee one of the id's punches that day refers to,
   * or no employee at all.
   */
  predicate ItemEmployee(x: DailyAttendanceItem, employees: seq<Employee>, logs: seq<AttendanceLog>, date: Instant, branchId: Option<int>)
  {
    || (x.employeeId == 0 && x.employeeName == UnknownEmployee && x.department == NoValue)
    || (exists i, j :: 0 <= i < |logs| && 0 <= j < |employees| &&
          PunchBy(logs[i], x.biometricUserId, date, branchId) && logs[i].employeeId == Some(employees[j].employeeId) &&
          x.employeeId == employees[j].employeeId && x.employeeName == employees[j].employeeName)
  }

  lemma ItemOfFacts(e: Option<Employee>, departments: seq<Department>, id: string, first: Instant, last: Instant,
                    logs: seq<AttendanceLog>, date: Instant, branchId: Option<int>)
    requires FirstAndLast(logs, id, date, branchId, first, last)
    ensures WithTotal(ItemOf(e, departments, id, Some(first), Some(last))).biometricUserId == id
    ensures ItemFacts(WithTotal(ItemOf(e, departments, id, Some(first), Some(last))), logs, date, branchId)
  {
  }

  lemma GroupItemEnds(employees: seq<Employee>, departments: seq<Department>, dayLogs: seq<AttendanceLog>,
                      logs: seq<AttendanceLog>, date: Instant, branchId: Option<int>, id: string)
    requires HoldsDay(dayLogs, logs, date, branchId) && id in PunchIds(dayLogs)
    ensures WithTotal(GroupItem(employees, departments, dayLogs, id)).biometricUserId == id
    ensures ItemFacts(WithTotal(GroupItem(employees, departments, dayLogs, id)), logs, date, branchId)
  {
    GroupEnds(logs, dayLogs, date, branchId, id);
    var g := PunchesOf(dayLogs, id);
    var asc := OrderByTime(g);
    var first := asc[0].attendanceTime;
    var last := asc[|asc| - 1].attendanceTime;
    assert GroupFirst(g) == Some(first);
    assert GroupLast(g) == Some(last);
    ItemOfFacts(GroupEmployee(g, employees), departments, id, first, last, logs, date, branchId);
  }

  lemma GroupItemEmployee(employees: seq<Employee>, departments: seq<Department>, dayLogs: seq<AttendanceLog>,
                          logs: seq<AttendanceLog>, date: Instant, branchId: Option<int>, id: string)
    requires HoldsDay(dayLogs, logs, date, branchId) && id in PunchIds(dayLogs)
    ensures ItemEmployee(WithTotal(GroupItem(employees, departments, dayLogs, id)), employees, logs, date, branchId)
  {
    var g := PunchesOf(dayLogs, id);
    var d :| 0 <= d < |dayLogs| && dayLogs[d].biometricUserId == id;
    assert HeldBy(id)(dayLogs[d]);
    assert g != [];
    var e := GroupEmployee(g, employees);
    if e.Some? {
      assert g[0] in dayLogs && HeldBy(id)(g[0]);
      var i :| 0 <= i < |logs| && logs[i] == g[0];
      var j :| 0 <= j < |employees| && employees[j] == e.value;
      assert PunchBy(logs[i], id, date, branchId);
    }
  }

  predicate RowHolds(x: DailyAttendanceItem, employees: seq<Employee>, logs: seq<AttendanceLog>, date: Instant, branchId: Option<int>)
  {
    ItemFacts(WithTotal(x), logs, date, branchId) && ItemEmployee(WithTotal(x), employees, logs, date, branchId)
  }

  lemma GroupedItemsHold(employees: seq<Employee>, departments: seq<Department>, dayLogs: seq<AttendanceLog>,
                         logs: seq<AttendanceLog>, date: Instant, branchId: Option<int>)
    requires HoldsDay(dayLogs, logs, date, branchId)
    ensures forall k :: 0 <= k < |GroupedItems(employees, departments, dayLogs)| ==>
              RowHolds(GroupedItems(employees, departments, dayLogs)[k], employees, logs, date, branchId)
  {
    var ids := PunchIds(dayLogs);
    var items := seq(|ids|, i requires 0 <= i < |ids| => GroupItem(employees, departments, dayLogs, ids[i]));
    var holds := (x: DailyAttendanceItem) => RowHolds(x, employees, logs, date, branchId);
    forall k | 0 <= k < |items|
      ensures holds(items[k])
    {
      GroupItemEnds(employees, departments, dayLogs, logs, date, branchId, ids[k]);
      GroupItemEmployee(employees, departments, dayLogs, logs, date, branchId, ids[k]);
    }
    AllPermutation(items, OrderItemsByName(items), holds);
  }

  function ItemBid(x: DailyAttendanceItem): string { x.biometricUserId }

  /** The rows before sorting: one per punching id, in order of first punch. */
  function GroupRows(employees: seq<Employee>, departments: seq<Department>, dayLogs: seq<AttendanceLog>): (r: seq<DailyAttendanceItem>)
    ensures |r| == |PunchIds(dayLogs)|
    ensures forall k :: 0 <= k < |r| ==> r[k].biometricUserId == PunchIds(dayLogs)[k]
    ensures OrderItemsByName(r) == GroupedItems(employees, departments, dayLogs)
  {
    var ids := PunchIds(dayLogs);
    seq(|ids|, i requires 0 <= i < |ids| => GroupItem(employees, departments, dayLogs, ids[i]))
  }

  lemma GroupedItemsListed(employees: seq<Employee>, departments: seq<Department>, dayLogs: seq<AttendanceLog>)
    ensures forall k :: 0 <= k < |GroupedItems(employees, departments, dayLogs)| ==>
              GroupedItems(employees, departments, dayLogs)[k].biometricUserId in PunchIds(dayLogs)
  {
    var ids := PunchIds(dayLogs);
    var items := GroupRows(employees, departments, dayLogs);
    var listed := (x: DailyAttendanceItem) => x.biometricUserId in ids;
    assert forall k :: 0 <= k < |items| ==> listed(items[k]);
    AllPermutation(items, OrderItemsByName(items), listed);
  }

  lemma GroupedItemsCover(employees: seq<Employee>, departments: seq<Department>, dayLogs: seq<AttendanceLog>, id: string)
    requires id in PunchIds(dayLogs)
    ensures exists k :: 0 <= k < |GroupedItems(employees, departments, dayLogs)| &&
                        GroupedItems(employees, departments, dayLogs)[k].biometricUserId == id
  {
    var ids := PunchIds(dayLogs);
    var items := GroupRows(employees, departments, dayLogs);
    var m :| 0 <= m < |ids| && ids[m] == id;
    InPermutation(items, OrderItemsByName(items), items[m]);
  }

  lemma GroupedItemsDistinct(employees: seq<Employee>, departments: seq<Department>, dayLogs: seq<AttendanceLog>)
    ensures forall k, m :: 0 <= k < m < |GroupedItems(employees, departments, dayLogs)| ==>
              GroupedItems(employees, departments, dayLogs)[k].biometricUserId != GroupedItems(employees, departments, dayLogs)[m].biometricUserId
  {
    var items := GroupRows(employees, departments, dayLogs);
    assert forall k, m :: 0 <= k < m < |items| ==> ItemBid(items[k]) != ItemBid(items[m]);
    KeysDistinctPermutation(items, OrderItemsByName(items), ItemBid);
  }

  /** Filling in the hours keeps each row's id and name. */
  lemma WithTotalsKeeps(s: seq<DailyAttendanceItem>)
    ensures |WithTotals(s)| == |s|
    ensures forall k :: 0 <= k < |s| ==> WithTotals(s)[k] == WithTotal(s[k])
    ensures forall k :: 0 <= k < |s| ==>
              WithTotals(s)[k].biometricUserId == s[k].biometricUserId && WithTotals(s)[k].employeeName == s[k].employeeName
  {
  }

  /** The rows a day's punches `dayLogs` give. */
  lemma RowsFrom(employees: seq<Employee>, departments: seq<Department>, dayLogs: seq<AttendanceLog>,
                 logs: seq<AttendanceLog>, date: Instant, branchId: Option<int>)
    requires HoldsDay(dayLogs, logs, date, branchId)
    ensures forall k :: 0 <= k < |WithTotals(GroupedItems(employees, departments, dayLogs))| ==>
              ItemFacts(WithTotals(GroupedItems(employees, departments, dayLogs))[k], logs, date, branchId) &&
              ItemEmployee(WithTotals(GroupedItems(employees, departments, dayLogs))[k], employees, logs, date, branchId)
    ensures forall id :: id in PunchIds(dayLogs) <==>
              exists k :: 0 <= k < |WithTotals(GroupedItems(employees, departments, dayLogs))| &&
                          WithTotals(GroupedItems(employees, departments, dayLogs))[k].biometricUserId == id
    ensures forall k, m :: 0 <= k < m < |WithTotals(GroupedItems(employees, departments, dayLogs))| ==>
              WithTotals(GroupedItems(employees, departments, dayLogs))[k].biometricUserId !=
              WithTotals(GroupedItems(employees, departments, dayLogs))[m].biometricUserId
    ensures ItemsNameOrdered(WithTotals(GroupedItems(employees, departments, dayLogs)))
  {
    var grouped := GroupedItems(employees, departments, dayLogs);
    GroupedItemsHold(employees, departments, dayLogs, logs, date, branchId);
    WithTotalsHold(grouped, employees, logs, date, branchId);
    GroupedItemsListed(employees, departments, dayLogs);
    GroupedItemsDistinct(employees, departments, dayLogs);
    forall id | id in PunchIds(dayLogs)
      ensures exists k :: 0 <= k < |grouped| && grouped[k].biometricUserId == id
    {
      GroupedItemsCover(employees, departments, dayLogs, id);
    }
    WithTotalsIds(grouped, PunchIds(dayLogs));
  }

  /** Filling in the hours keeps which ids are listed, that they are distinct, and the order by name. */
  lemma WithTotalsIds(s: seq<DailyAttendanceItem>, ids: seq<string>)
    requires forall id :: id in ids <==> exists k :: 0 <= k < |s| && s[k].biometricUserId == id
    requires forall k, m :: 0 <= k < m < |s| ==> s[k].biometricUserId != s[m].biometricUserId
    requires ItemsNameOrdered(s)
    ensures forall id :: id in ids <==> exists k :: 0 <= k < |WithTotals(s)| && WithTotals(s)[k].biometricUserId == id
    ensures forall k, m :: 0 <= k < m < |WithTotals(s)| ==> WithTotals(s)[k].biometricUserId != WithTotals(s)[m].biometricUserId
    ensures ItemsNameOrdered(WithTotals(s))
  {
    WithTotalsKeeps(s);
    var t := WithTotals(s);
    forall id | id in ids
      ensures exists k :: 0 <= k < |t| && t[k].biometricUserId == id
    {
      var k :| 0 <= k < |s| && s[k].biometricUserId == id;
      assert t[k].biometricUserId == id;
    }
  }

  /** Rows that hold before the hours are filled in hold after. */
  lemma WithTotalsHold(s: seq<DailyAttendanceItem>, employees: seq<Employee>, logs: seq<AttendanceLog>, date: Instant, branchId: Option<int>)
    requires forall k :: 0 <= k < |s| ==> RowHolds(s[k], employees, logs, date, branchId)
    ensures forall k :: 0 <= k < |WithTotals(s)| ==>
              ItemFacts(WithTotals(s)[k], logs, date, branchId) && ItemEmployee(WithTotals(s)[k], employees, logs, date, branchId)
  {
    WithTotalsKeeps(s);
  }

  /**
   * The plain daily report has one row per id that punched that day (and
   * in the branch, when one is given), each marked "حاضر" with its first
   * and last punch and the hours between them, naming the employee a punch
   * refers to or none; the rows are ordered by name.
   */
  lemma DailyReportRows(employees: seq<Employee>, departments: seq<Department>, logs: seq<AttendanceLog>,
                        date: Instant, branchId: Option<int>)
    requires DayOf(date) < MaxDay
    ensures forall k :: 0 <= k < |DailyItemsOf(employees, departments, logs, date, branchId).value| ==>
              ItemFacts(DailyItemsOf(employees, departments, logs, date, branchId).value[k], logs, date, branchId) &&
              ItemEmployee(DailyItemsOf(employees, departments, logs, date, branchId).value[k], employees, logs, date, branchId)
    ensures forall id :: PunchedOn(logs, id, date, branchId) <==>
              exists k :: 0 <= k < |DailyItemsOf(employees, departments, logs, date, branchId).value| &&
                          DailyItemsOf(employees, departments, logs, date, branchId).value[k].biometricUserId == id
    ensures forall k, m :: 0 <= k < m < |DailyItemsOf(employees, departments, logs, date, branchId).value| ==>
              DailyItemsOf(employees, departments, logs, date, branchId).value[k].biometricUserId !=
              DailyItemsOf(employees, departments, logs, date, branchId).value[m].biometricUserId
    ensures ItemsNameOrdered(DailyItemsOf(employees, departments, logs, date, branchId).value)
  {
    var dayLogs := DayPunches(logs, employees, DayBounds(date).value, branchId);
    assert DailyItemsOf(employees, departments, logs, date, branchId).value == WithTotals(GroupedItems(employees, departments, dayLogs));
    SummaryInputs(employees, logs, date, branchId, None);
    RowsFrom(employees, departments, dayLogs, logs, date, branchId);
    forall id
      ensures PunchedOn(logs, id, date, branchId) <==> id in PunchIds(dayLogs)
    {
      PunchIdsArePunches(dayLogs, logs, date, branchId, id);
    }
  }
}
