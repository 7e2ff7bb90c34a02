/**
 * The report shapes of `DailyAttendanceItemDto` and
 * `DailyAttendanceReportSummaryDto`, their defaults, and the "H:MM" duration
 * format both of them display.
 */
module ReportDtos {
  import opened Wrappers
  import opened Seqs
  import opened Text
  import opened Calendar
  import opened Entities

  // ----- TimeSpan components (C# truncates toward zero) -----

  /** `(int)span.TotalHours` for a span of `s` seconds: whole hours, truncated toward zero. */
  function WholeHours(s: int): (h: int)
    ensures s >= 0 ==> h == s / SecondsPerHour
    ensures s < 0 ==> h == -((-s) / SecondsPerHour)
  {
    if s >= 0 then s / SecondsPerHour else -((-s) / SecondsPerHour)
  }

  /** `span.Minutes`: the minutes within the hour, carrying the sign of the span. */
  function MinutesPart(s: int): (m: int)
    ensures s >= 0 ==> m == (s / SecondsPerMinute) % 60
    ensures s < 0 ==> m == -(((-s) / SecondsPerMinute) % 60)
  {
    if s >= 0 then (s / SecondsPerMinute) % 60 else -(((-s) / SecondsPerMinute) % 60)
  }

  /**
   * `TotalWorkHoursFormatted` / `WorkDurationFormatted`:
   * `$"{(int)span.TotalHours}:{span.Minutes:D2}"`, or "--" without a span.
   */
  function FormatDuration(span: Option<int>): string
  {
    match span
    case None => "--"
    case Some(s) => IntToString(WholeHours(s)) + ":" + FormatD2(MinutesPart(s))
  }

  /**
   * A non-negative span is written as its whole hours, a colon and exactly two
   * minute digits; the hours and minutes together are the span's whole
   * minutes (the seconds are dropped), and the hours are not capped at 23.
   */
  lemma FormatDurationReadsBack(s: int)
    requires s >= 0
    ensures var f := FormatDuration(Some(s));
            var h := NatToString(s / SecondsPerHour);
            && f == h + ":" + FormatD2(MinutesPart(s))
            && |f| == |h| + 3
            && AllDigits(f[|h| + 1..])
            && DigitsValue(h) * 60 + DigitsValue(f[|h| + 1..]) == s / SecondsPerMinute
  {
    var f := FormatDuration(Some(s));
    var h := NatToString(s / SecondsPerHour);
    var m := MinutesPart(s);
    FormatD2TwoDigits(m);
    NatToStringRoundTrip(s / SecondsPerHour);
    assert f[|h| + 1..] == FormatD2(m);
  }

  /** A negative span keeps its sign in both fields, so minus half an hour is "0:-30". */
  lemma FormatNegativeHalfHour()
    ensures FormatDuration(Some(-1800)) == "0:-30"
  {
    assert WholeHours(-1800) == 0 && MinutesPart(-1800) == -30;
    assert NatToString(30) == "30" by {
      assert NatToString(3) == "3";
    }
  }

  // ----- DailyAttendanceItemDto -----

  /** One employee's row in a daily or range report; `totalWorkHours` is a span in seconds. */
  datatype DailyAttendanceItem = DailyAttendanceItem(
    employeeId: int,
    employeeName: string,
    biometricUserId: string,
    department: string,
    firstCheckIn: Option<Instant>,
    lastCheckOut: Option<Instant>,
    totalWorkHours: Option<int>,
    status: ReportStatus)
  {
    function TotalWorkHoursFormatted(): string
    {
      FormatDuration(totalWorkHours)
    }
  }

  /** `new DailyAttendanceItemDto { ... }` with only the employee fields set. */
  function NewItem(employeeId: int, employeeName: string, biometricUserId: string, department: string): (item: DailyAttendanceItem)
  {
    DailyAttendanceItem(employeeId, employeeName, biometricUserId, department, None, None, None, Absent)
  }

  /** A fresh item is absent ("غائب"), without punches or hours, and formats its hours as "--". */
  lemma NewItemDefaults(employeeId: int, employeeName: string, biometricUserId: string, department: string)
    ensures var item := NewItem(employeeId, employeeName, biometricUserId, department);
            && item.status.Label() == "غائب"
            && item.TotalWorkHoursFormatted() == "--"
  {
  }

  /** `DailyAttendanceReportDto`: a dated list of items and its counts. */
  datatype DailyAttendanceReport = DailyAttendanceReport(
    date: Day,
    items: seq<DailyAttendanceItem>,
    totalEmployees: int,
    presentCount: int,
    absentCount: int)

  // ----- DailyAttendanceReportSummaryDto -----

  /** The fixed reason given for every absent employee. */
  const UnexcusedAbsence: string := "غياب بدون سبب"

  /** `PresentEmployeeDto`; `workDuration` is a span in seconds. */
  datatype PresentEmployee = PresentEmployee(
    employeeId: int,
    employeeNumber: string,
    employeeName: string,
    biometricUserId: string,
    departmentName: string,
    checkInTime: Option<Instant>,
    checkOutTime: Option<Instant>,
    workDuration: Option<int>,
    status: Punctuality,
    isLate: bool,
    isEarlyLeave: bool)
  {
    function WorkDurationFormatted(): string
    {
      FormatDuration(workDuration)
    }
  }

  /** `AbsentEmployeeDto`. */
  datatype AbsentEmployee = AbsentEmployee(
    employeeId: int,
    employeeNumber: string,
    employeeName: string,
    biometricUserId: string,
    departmentName: string,
    phoneNumber: Option<string>,
    absentReason: string)

  /** `DailyAttendanceReportSummaryDto`. */
  datatype Summary = Summary(
    reportDate: Instant,
    totalEmployees: int,
    presentCount: int,
    absentCount: int,
    lateCount: int,
    earlyLeaveCount: int,
    presentEmployees: seq<PresentEmployee>,
    absentEmployees: seq<AbsentEmployee>)

  /** `new DailyAttendanceReportSummaryDto { ReportDate = date }`: zero counts and empty lists. */
  function NewSummary(reportDate: Instant): Summary
  {
    Summary(reportDate, 0, 0, 0, 0, 0, [], [])
  }

  // ----- orderings by employee name (ordinal, stable) -----

  function ItemName(x: DailyAttendanceItem): string { x.employeeName }
  function PresentName(x: PresentEmployee): string { x.employeeName }
  function AbsentName(x: AbsentEmployee): string { x.employeeName }

  predicate ItemsNameOrdered(s: seq<DailyAttendanceItem>)
  {
    forall i, j :: 0 <= i < j < |s| ==> LexLe(s[i].employeeName, s[j].employeeName)
  }

  predicate PresentNameOrdered(s: seq<PresentEmployee>)
  {
    forall i, j :: 0 <= i < j < |s| ==> LexLe(s[i].employeeName, s[j].employeeName)
  }

  predicate AbsentNameOrdered(s: seq<AbsentEmployee>)
  {
    forall i, j :: 0 <= i < j < |s| ==> LexLe(s[i].employeeName, s[j].employeeName)
  }

  /** `OrderBy(r => r.EmployeeName)` on report items. */
  function OrderItemsByName(s: seq<DailyAttendanceItem>): (r: seq<DailyAttendanceItem>)
    ensures |r| == |s| && multiset(r) == multiset(s)
    ensures ItemsNameOrdered(r)
  {
    ByTextIsPreorder(ItemName);
    SortBySorted(s, ByText(ItemName));
    var r := SortBy(s, ByText(ItemName));
    assert forall i, j :: 0 <= i < j < |r| ==> ByText(ItemName)(r[i], r[j]) == LexLe(ItemName(r[i]), ItemName(r[j]));
    r
  }

  /** `OrderBy(p => p.EmployeeName)` on present entries. */
  function OrderPresentByName(s: seq<PresentEmployee>): (r: seq<PresentEmployee>)
    ensures |r| == |s| && multiset(r) == multiset(s)
    ensures PresentNameOrdered(r)
  {
    ByTextIsPreorder(PresentName);
    SortBySorted(s, ByText(PresentName));
    var r := SortBy(s, ByText(PresentName));
    assert forall i, j :: 0 <= i < j < |r| ==> ByText(PresentName)(r[i], r[j]) == LexLe(PresentName(r[i]), PresentName(r[j]));
    r
  }

  /** `OrderBy(a => a.EmployeeName)` on absent entries. */
  function OrderAbsentByName(s: seq<AbsentEmployee>): (r: seq<AbsentEmployee>)
    ensures |r| == |s| && multiset(r) == multiset(s)
    ensures AbsentNameOrdered(r)
  {
    ByTextIsPreorder(AbsentName);
    SortBySorted(s, ByText(AbsentName));
    var r := SortBy(s, ByText(AbsentName));
    assert forall i, j :: 0 <= i < j < |r| ==> ByText(AbsentName)(r[i], r[j]) == LexLe(AbsentName(r[i]), AbsentName(r[j]));
    r
  }

  /** `OrderBy` is stable: rows with the same name keep the order they came in. */
  lemma OrderByNameStable(items: seq<DailyAttendanceItem>, present: seq<PresentEmployee>, absent: seq<AbsentEmployee>,
                          x: DailyAttendanceItem, p: PresentEmployee, a: AbsentEmployee)
    ensures Filter(OrderItemsByName(items), SameText(ItemName, x)) == Filter(items, SameText(ItemName, x))
    ensures Filter(OrderPresentByName(present), SameText(PresentName, p)) == Filter(present, SameText(PresentName, p))
    ensures Filter(OrderAbsentByName(absent), SameText(AbsentName, a)) == Filter(absent, SameText(AbsentName, a))
  {
    SortByTextStable(items, ItemName, x);
    SortByTextStable(present, PresentName, p);
    SortByTextStable(absent, AbsentName, a);
  }
}
