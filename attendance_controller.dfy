/**
 * `AttendanceController.Index`: the filtered, ordered and paged attendance
 * list. A quick-filter key ("today", "thisweek", "lastmonth", ...) replaces
 * the date range; with no filter at all the page is empty. Otherwise the
 * punches matching the query are reconciled into one row per employee and
 * day, the rows are filtered by status and worked hours, ordered by date
 * (newest first) then biometric id, and cut into pages of fifty. The totals
 * are counted on the filtered list before paging.
 */
module AttendanceController {
  import opened Wrappers
  import opened Seqs
  import opened Text
  import opened Calendar
  import opened Entities
  import opened AttendanceCalculationService

  const PageSize: int := 50

  /** An `int` action parameter: model binding only yields values in the 32-bit range. */
  type Int32 = x: int | MinInt <= x <= MaxInt

  /** The first day number that is a Sunday (0001-01-07). */
  const FirstSunday: int := 6

  const FullAttendanceLabel: string := "حضور كامل"
  const CheckInOnlyLabel: string := "دخول فقط"

  // ----- quick filters -----

  /** The `fromDate`/`toDate` pair the action works with. */
  datatype DateRange = DateRange(fromDate: Option<Day>, toDate: Option<Day>)

  /**
   * What a lower-cased quick-filter key does: nothing (an unknown key), set
   * both ends, or throw because `AddDays`/`AddMonths` would leave the
   * calendar's range.
   */
  datatype QuickRange = Unchanged | Range(fromDay: Day, toDay: Day) | Unrepresentable

  /** `today.AddDays(n)` as the range `[today + n, today]`. */
  function BackTo(today: Day, n: int): QuickRange
  {
    var start := AddDays(today, -n);
    if start.Some? then Range(start.value, today) else Unrepresentable
  }

  /** The year and month of `today.AddMonths(-1)`; the year is 0 before 0001-02. */
  function PreviousMonth(d: Date): (int, int)
  {
    if d.month == 1 then (d.year - 1, 12) else (d.year, d.month - 1)
  }

  /** The "lastweek" range: seven days ending the day before this week's Sunday. */
  function LastWeek(today: Day): QuickRange
  {
    var start := AddDays(today, -DayOfWeek(today) - 7);
    if start.None? then Unrepresentable
    else
      var end := AddDays(start.value, 6);
      if end.Some? then Range(start.value, end.value) else Unrepresentable
  }

  /** The "thismonth" range: the first of today's month to today. */
  function ThisMonth(today: Day): QuickRange
  {
    var d := DateOf(today);
    Range(DayNumber(Date(d.year, d.month, 1)), today)
  }

  /** The "lastmonth" range: the whole previous month; it throws before 0001-01-01. */
  function LastMonth(today: Day): QuickRange
  {
    var (y, m) := PreviousMonth(DateOf(today));
    if y < 1 then Unrepresentable
    else Range(DayNumber(Date(y, m, 1)), DayNumber(Date(y, m, DaysInMonth(y, m))))
  }

  /** The range a lower-cased key selects, as the `switch` of `ApplyQuickFilter` computes it. */
  function QuickRangeOf(key: string, today: Day): QuickRange
  {
    if key == "today" then Range(today, today)
    else if key == "yesterday" then
      var y := AddDays(today, -1);
      if y.Some? then Range(y.value, y.value) else Unrepresentable
    else if key == "thisweek" then BackTo(today, DayOfWeek(today))
    else if key == "lastweek" then LastWeek(today)
    else if key == "thismonth" then ThisMonth(today)
    else if key == "lastmonth" then LastMonth(today)
    else if key == "last7days" then BackTo(today, 7)
    else if key == "last30days" then BackTo(today, 30)
    else Unchanged
  }

  /** The keys the `switch` recognises. */
  predicate IsQuickKey(key: string)
  {
    key in {"today", "yesterday", "thisweek", "lastweek", "thismonth", "lastmonth", "last7days", "last30days"}
  }

  /** The dates after `ApplyQuickFilter`; nothing when it throws. */
  function QuickFilterOf(quickFilter: Option<string>, today: Day, fromDate: Option<Day>, toDate: Option<Day>): (r: Option<DateRange>)
    ensures quickFilter.None? || quickFilter.value == "" || !IsQuickKey(ToLower(quickFilter.value)) ==>
              r == Some(DateRange(fromDate, toDate))
    ensures quickFilter.Some? && IsQuickKey(ToLower(quickFilter.value)) && r.Some? ==>
              r.value.fromDate.Some? && r.value.toDate.Some? && r.value.fromDate.value <= r.value.toDate.value
  {
    if quickFilter.None? || quickFilter.value == "" then Some(DateRange(fromDate, toDate))
    else
      match QuickRangeOf(ToLower(quickFilter.value), today)
      case Unchanged => Some(DateRange(fromDate, toDate))
      case Range(a, b) =>
        QuickRangeOrdered(ToLower(quickFilter.value), today);
        Some(DateRange(Some(a), Some(b)))
      case Unrepresentable => None
  }

  /** Every range a key selects starts no later than it ends; only the keys of the `switch` select one. */
  lemma QuickRangeOrdered(key: string, today: Day)
    ensures QuickRangeOf(key, today).Range? ==> QuickRangeOf(key, today).fromDay <= QuickRangeOf(key, today).toDay
    ensures QuickRangeOf(key, today).Unchanged? <==> !IsQuickKey(key)
  {
    if key == "thismonth" {
      ThisMonthRange(today);
    } else if key == "lastmonth" {
      LastMonthRange(today);
    }
  }

  /**
   * The `switch` of `ApplyQuickFilter` on the lower-cased key: each case
   * steps back from today, and a step before 0001-01-01 throws.
   */
  method SelectQuickRange(key: string, today: Day) returns (r: QuickRange)
    ensures r == QuickRangeOf(key, today)
    ensures r.Range? ==> r.fromDay <= r.toDay
    ensures r.Unchanged? <==> !IsQuickKey(key)
  {
    QuickRangeOrdered(key, today);
    if key == "today" {
      r := Range(today, today);
    } else if key == "yesterday" {
      var y := AddDays(today, -1);
      if y.None? {
        return Unrepresentable;
      }
      r := Range(y.value, y.value);
    } else if key == "thisweek" {
      var startOfWeek := AddDays(today, -DayOfWeek(today));
      if startOfWeek.None? {
        return Unrepresentable;
      }
      r := Range(startOfWeek.value, today);
    } else if key == "lastweek" {
      var lastWeekStart := AddDays(today, -DayOfWeek(today) - 7);
      if lastWeekStart.None? {
        return Unrepresentable;
      }
      var lastWeekEnd := AddDays(lastWeekStart.value, 6);
      if lastWeekEnd.None? {
        return Unrepresentable;
      }
      r := Range(lastWeekStart.value, lastWeekEnd.value);
    } else if key == "thismonth" {
      var d := DateOf(today);
      r := Range(DayNumber(Date(d.year, d.month, 1)), today);
    } else if key == "lastmonth" {
      var (y, m) := PreviousMonth(DateOf(today));
      if y < 1 {
        return Unrepresentable;
      }
      r := Range(DayNumber(Date(y, m, 1)), DayNumber(Date(y, m, DaysInMonth(y, m))));
    } else if key == "last7days" {
      var start := AddDays(today, -7);
      if start.None? {
        return Unrepresentable;
      }
      r := Range(start.value, today);
    } else if key == "last30days" {
      var start := AddDays(today, -30);
      if start.None? {
        return Unrepresentable;
      }
      r := Range(start.value, today);
    } else {
      r := Unchanged;
    }
  }

  /**
   * `ApplyQuickFilter`: an empty key leaves the dates alone; otherwise the
   * lower-cased key picks the new pair, and an unknown key changes nothing.
   */
  method ApplyQuickFilter(quickFilter: Option<string>, today: Day, fromDate: Option<Day>, toDate: Option<Day>)
    returns (r: Option<DateRange>)
    ensures r == QuickFilterOf(quickFilter, today, fromDate, toDate)
  {
    if quickFilter.None? || quickFilter.value == "" {
      return Some(DateRange(fromDate, toDate));
    }
    var range := SelectQuickRange(ToLower(quickFilter.value), today);
    match range {
      case Unchanged => r := Some(DateRange(fromDate, toDate));
      case Range(a, b) => r := Some(DateRange(Some(a), Some(b)));
      case Unrepresentable => r := None;
    }
  }

  /** Keys are case-insensitive: two keys that lower-case alike give the same dates. */
  lemma QuickFilterCaseInsensitive(a: string, b: string, today: Day, fromDate: Option<Day>, toDate: Option<Day>)
    requires ToLower(a) == ToLower(b)
    ensures QuickFilterOf(Some(a), today, fromDate, toDate) == QuickFilterOf(Some(b), today, fromDate, toDate)
  {
    assert |a| == |ToLower(a)| == |ToLower(b)| == |b|;
  }

  /** A recognised key overrides whatever dates were given. */
  lemma QuickKeyOverrides(key: string, today: Day, f1: Option<Day>, t1: Option<Day>, f2: Option<Day>, t2: Option<Day>)
    requires IsQuickKey(ToLower(key))
    ensures QuickFilterOf(Some(key), today, f1, t1) == QuickFilterOf(Some(key), today, f2, t2)
  {
    QuickRangeOrdered(ToLower(key), today);
  }

  /** Weekday arithmetic: `n - DayOfWeek(n)` is a Sunday, and no day after it up to `n` is one. */
  lemma WeekStart(n: Day, d: Day)
    requires n - DayOfWeek(n) <= d <= n
    ensures (n - DayOfWeek(n) + 1) % 7 == 0
    ensures DayOfWeek(d) == d - (n - DayOfWeek(n))
  {
    var q := (n + 1) / 7;
    assert n + 1 == 7 * q + DayOfWeek(n);
    assert d + 1 == 7 * q + (d - (n - DayOfWeek(n)));
  }

  /**
   * "thisweek" runs from the latest Sunday on or before today to today; it
   * throws exactly when there is no such Sunday in the calendar.
   */
  lemma ThisWeekRange(today: Day)
    ensures QuickRangeOf("thisweek", today).Unrepresentable? <==> today < FirstSunday
    ensures QuickRangeOf("thisweek", today).Range? ==>
              var a := QuickRangeOf("thisweek", today).fromDay;
              && QuickRangeOf("thisweek", today).toDay == today
              && DayOfWeek(a) == 0 && a <= today < a + 7
              && (forall d: Day :: a < d <= today ==> DayOfWeek(d) != 0)
  {
    var w := DayOfWeek(today);
    assert today < FirstSunday <==> today - w < 0 by {
      if today >= FirstSunday {
        assert w <= today;
      }
    }
    if today - w >= 0 {
      var a: Day := today - w;
      WeekStart(today, a);
      forall d: Day | a < d <= today
        ensures DayOfWeek(d) != 0
      {
        WeekStart(today, d);
      }
    }
  }

  /**
   * "lastweek" runs from the Sunday before this week's to the Saturday after
   * it, seven days ending the day before this week starts.
   */
  lemma LastWeekRange(today: Day)
    ensures QuickRangeOf("lastweek", today).Unrepresentable? <==> today < FirstSunday + 7
    ensures QuickRangeOf("lastweek", today).Range? ==>
              var a := QuickRangeOf("lastweek", today).fromDay;
              var b := QuickRangeOf("lastweek", today).toDay;
              && DayOfWeek(a) == 0 && DayOfWeek(b) == 6
              && b - a + 1 == 7
              && b + 1 == today - DayOfWeek(today)
  {
    assert QuickRangeOf("lastweek", today) == LastWeek(today);
    var w := DayOfWeek(today);
    assert today < FirstSunday + 7 <==> today - w - 7 < 0 by {
      if today >= FirstSunday + 7 {
        assert w <= today - 7;
      }
    }
    if today - w - 7 >= 0 {
      WeekStart(today, today - w);
      var a: Day := today - w - 7;
      assert DayOfWeek(a) == 0;
      assert DayOfWeek(a + 6) == 6;
    }
  }

  /** "thismonth" runs from the first of today's month to today. */
  lemma ThisMonthRange(today: Day)
    ensures QuickRangeOf("thismonth", today).Range?
    ensures var a := QuickRangeOf("thismonth", today).fromDay;
            && QuickRangeOf("thismonth", today).toDay == today
            && DateOf(a) == Date(DateOf(today).year, DateOf(today).month, 1)
            && today - a == DateOf(today).day - 1
  {
    assert QuickRangeOf("thismonth", today) == ThisMonth(today);
    var d := DateOf(today);
    DateRoundTrip(Date(d.year, d.month, 1));
  }

  /**
   * "lastmonth" runs from the first to the last day of the previous month,
   * which is December of the year before in January; it ends the day before
   * today's month starts, and throws only in January of year 1.
   */
  lemma LastMonthRange(today: Day)
    ensures QuickRangeOf("lastmonth", today).Unrepresentable? <==> DateOf(today).year == 1 && DateOf(today).month == 1
    ensures QuickRangeOf("lastmonth", today).Range? ==>
              var t := DateOf(today);
              var a := QuickRangeOf("lastmonth", today).fromDay;
              var b := QuickRangeOf("lastmonth", today).toDay;
              && DateOf(a).day == 1
              && (t.month == 1 ==> DateOf(a).year == t.year - 1 && DateOf(a).month == 12)
              && (t.month > 1 ==> DateOf(a).year == t.year && DateOf(a).month == t.month - 1)
              && DateOf(b) == Date(DateOf(a).year, DateOf(a).month, DaysInMonth(DateOf(a).year, DateOf(a).month))
              && b + 1 == DayNumber(Date(t.year, t.month, 1)) <= today
  {
    assert QuickRangeOf("lastmonth", today) == LastMonth(today);
    var t := DateOf(today);
    var (y, m) := PreviousMonth(t);
    if y >= 1 {
      var first := Date(y, m, 1);
      var last := Date(y, m, DaysInMonth(y, m));
      DateRoundTrip(first);
      DateRoundTrip(last);
      MonthBefore(t);
    }
  }

  /** The last day of the previous month is the day before the first of this one. */
  lemma MonthBefore(t: Date)
    requires ValidDate(t) && PreviousMonth(t).0 >= 1
    ensures var y := PreviousMonth(t).0;
            var m := PreviousMonth(t).1;
            && ValidDate(Date(y, m, DaysInMonth(y, m)))
            && DayNumber(Date(y, m, DaysInMonth(y, m))) + 1 == DayNumber(Date(t.year, t.month, 1))
  {
    var y := PreviousMonth(t).0;
    var m := PreviousMonth(t).1;
    if t.month == 1 {
      DaysBeforeNextYear(y);
      DaysBeforeNextMonth(y, 12);
      DaysBeforeMonthBounds(y, 12);
    } else {
      DaysBeforeNextMonth(y, m);
    }
  }

  /** "yesterday", "last7days" and "last30days": a fixed count of days back, throwing before 0001-01-01. */
  lemma DaysBackRanges(today: Day)
    ensures QuickRangeOf("yesterday", today) == (if today >= 1 then Range(today - 1, today - 1) else Unrepresentable)
    ensures QuickRangeOf("last7days", today) == (if today >= 7 then Range(today - 7, today) else Unrepresentable)
    ensures QuickRangeOf("last30days", today) == (if today >= 30 then Range(today - 30, today) else Unrepresentable)
    ensures QuickRangeOf("today", today) == Range(today, today)
  {
  }

  // ----- the query -----

  /**
   * The punch passes `GetFilteredLogs`: its id contains the search text, its
   * day lies within the given ends, and its branch and device match the
   * given positive ids.
   */
  predicate InQuery(l: AttendanceLog, searchString: Option<string>, range: DateRange, branchId: Option<int>, deviceId: Option<int>)
  {
    && (searchString.None? || searchString.value == "" || Contains(l.biometricUserId, searchString.value))
    && (range.fromDate.None? || DayOf(l.attendanceTime) >= range.fromDate.value)
    && (range.toDate.None? || DayOf(l.attendanceTime) <= range.toDate.value)
    && (branchId.None? || branchId.value <= 0 || l.branchId == branchId.value)
    && (deviceId.None? || deviceId.value <= 0 || l.deviceId == deviceId.value)
  }

  function Queried(searchString: Option<string>, range: DateRange, branchId: Option<int>, deviceId: Option<int>): AttendanceLog -> bool
  {
    (l: AttendanceLog) => InQuery(l, searchString, range, branchId, deviceId)
  }

  // ----- additional filters -----

  /** An empty or missing status filter lets every row through; otherwise the label must be equal. */
  predicate StatusOk(attendanceStatus: Option<string>, v: AttendanceRow)
  {
    attendanceStatus.None? || attendanceStatus.value == "" || v.status.Label() == attendanceStatus.value
  }

  /** `WorkingHours >= minWorkHours`, in seconds. */
  predicate MinOk(minWorkHours: Option<int>, v: AttendanceRow)
  {
    minWorkHours.None? || v.workingSeconds >= minWorkHours.value * SecondsPerHour
  }

  /** `WorkingHours <= maxWorkHours`, in seconds. */
  predicate MaxOk(maxWorkHours: Option<int>, v: AttendanceRow)
  {
    maxWorkHours.None? || v.workingSeconds <= maxWorkHours.value * SecondsPerHour
  }

  /** A row passes all three additional filters. */
  predicate Matches(attendanceStatus: Option<string>, minWorkHours: Option<int>, maxWorkHours: Option<int>, v: AttendanceRow)
  {
    StatusOk(attendanceStatus, v) && MinOk(minWorkHours, v) && MaxOk(maxWorkHours, v)
  }

  function Matching(attendanceStatus: Option<string>, minWorkHours: Option<int>, maxWorkHours: Option<int>): AttendanceRow -> bool
  {
    (v: AttendanceRow) => Matches(attendanceStatus, minWorkHours, maxWorkHours, v)
  }

  /**
   * `ApplyAdditionalFilters`: the list is narrowed step by step by each
   * filter that is given, which keeps, in their order, exactly the rows that
   * pass all three.
   */
  method ApplyAdditionalFilters(list0: seq<AttendanceRow>, attendanceStatus: Option<string>, minWorkHours: Option<int>, maxWorkHours: Option<int>)
    returns (list: seq<AttendanceRow>)
    ensures list == Filter(list0, Matching(attendanceStatus, minWorkHours, maxWorkHours))
    ensures forall v :: v in list <==> v in list0 && Matches(attendanceStatus, minWorkHours, maxWorkHours, v)
  {
    var p1 := (v: AttendanceRow) => StatusOk(attendanceStatus, v);
    var p2 := (v: AttendanceRow) => StatusOk(attendanceStatus, v) && MinOk(minWorkHours, v);
    var p3 := Matching(attendanceStatus, minWorkHours, maxWorkHours);
    list := list0;
    if attendanceStatus.Some? && attendanceStatus.value != "" {
      var status := attendanceStatus.value;
      list := Filter(list, (v: AttendanceRow) => v.status.Label() == status);
      FilterCongruent(list0, (v: AttendanceRow) => v.status.Label() == status, p1);
    } else {
      FilterKeepsAll(list0, p1);
    }
    assert list == Filter(list0, p1);
    if minWorkHours.Some? {
      var min := minWorkHours.value;
      var q := (v: AttendanceRow) => v.workingSeconds >= min * SecondsPerHour;
      list := Filter(list, q);
      FilterFilter(list0, p1, q, p2);
    } else {
      FilterCongruent(list0, p1, p2);
    }
    assert list == Filter(list0, p2);
    if maxWorkHours.Some? {
      var max := maxWorkHours.value;
      var q := (v: AttendanceRow) => v.workingSeconds <= max * SecondsPerHour;
      list := Filter(list, q);
      FilterFilter(list0, p2, q, p3);
    } else {
      FilterCongruent(list0, p2, p3);
    }
    forall v
      ensures v in list <==> v in list0 && Matches(attendanceStatus, minWorkHours, maxWorkHours, v)
    {
      FilterMember(list0, p3, v);
    }
  }

  // ----- ordering and paging -----

  /** `OrderByDescending(x => x.Date).ThenBy(x => x.BiometricUserId)`, ordinal on the id. */
  function ByDateThenId(): (AttendanceRow, AttendanceRow) -> bool
  {
    (a: AttendanceRow, b: AttendanceRow) =>
      a.date > b.date || (a.date == b.date && LexLe(a.biometricUserId, b.biometricUserId))
  }

  lemma ByDateThenIdIsPreorder()
    ensures TotalPreorder(ByDateThenId())
  {
    var le := ByDateThenId();
    forall a: AttendanceRow, b: AttendanceRow
      ensures le(a, b) || le(b, a)
    {
      LexLeTotal(a.biometricUserId, b.biometricUserId);
    }
    forall a: AttendanceRow, b: AttendanceRow, c: AttendanceRow | le(a, b) && le(b, c)
      ensures le(a, c)
    {
      if a.date == b.date == c.date {
        LexLeTransitive(a.biometricUserId, b.biometricUserId, c.biometricUserId);
      }
    }
  }

  function Ordered(list: seq<AttendanceRow>): seq<AttendanceRow>
  {
    SortBy(list, ByDateThenId())
  }

  /**
   * The ordered list holds the same rows, newest day first and, within a
   * day, by ascending id.
   */
  lemma OrderedRows(list: seq<AttendanceRow>)
    ensures multiset(Ordered(list)) == multiset(list)
    ensures forall i, j :: 0 <= i < j < |Ordered(list)| ==>
              var a := Ordered(list)[i];
              var b := Ordered(list)[j];
              a.date > b.date || (a.date == b.date && LexLe(a.biometricUserId, b.biometricUserId))
  {
    ByDateThenIdIsPreorder();
    SortBySorted(list, ByDateThenId());
    var s := Ordered(list);
    forall i, j | 0 <= i < j < |s|
      ensures s[i].date > s[j].date || (s[i].date == s[j].date && LexLe(s[i].biometricUserId, s[j].biometricUserId))
    {
      assert ByDateThenId()(s[i], s[j]);
    }
  }

  /** `unchecked` C# arithmetic: `x` reduced modulo 2^32 into the `int` range. */
  function Wrap32(x: int): (r: int)
    ensures MinInt <= r <= MaxInt
    ensures (x - r) % 0x1_0000_0000 == 0
    ensures MinInt <= x <= MaxInt ==> r == x
  {
    (x - MinInt) % 0x1_0000_0000 + MinInt
  }

  /** `(pageNumber - 1) * pageSize`, each step in unchecked `int` arithmetic. */
  function PageOffset(pageNumber: Int32): int
  {
    Wrap32(Wrap32(pageNumber - 1) * PageSize)
  }

  /** `Skip((pageNumber - 1) * pageSize).Take(pageSize)`. */
  function Page<T>(s: seq<T>, pageNumber: Int32): seq<T>
  {
    Take(Skip(s, PageOffset(pageNumber)), PageSize)
  }

  function Min(a: int, b: int): int
  {
    if a <= b then a else b
  }

  /** The page numbers whose offset fits in an `int`. */
  const LowestPage: int := -42949671
  const HighestPage: int := 42949673

  /**
   * Between `LowestPage` and `HighestPage` the offset is the plain
   * `(pageNumber - 1) * 50`; one page further either way it wraps round
   * to the other sign.
   */
  lemma PageOffsetWrap(pageNumber: Int32)
    ensures LowestPage <= pageNumber <= HighestPage ==> PageOffset(pageNumber) == (pageNumber - 1) * PageSize
    ensures pageNumber == HighestPage + 1 ==> PageOffset(pageNumber) == -2147483646
    ensures pageNumber == LowestPage - 1 ==> PageOffset(pageNumber) == 2147483646
  {
  }

  /**
   * A page is the slice of at most fifty rows from the offset on, cut at
   * the list's end; an offset at or past the end shows nothing, and a
   * negative offset (a page number below one, or one so large that the
   * offset wraps) skips nothing and shows the first fifty rows.
   */
  lemma PageSlice<T>(s: seq<T>, pageNumber: Int32)
    ensures |Page(s, pageNumber)| <= PageSize
    ensures var o := PageOffset(pageNumber);
            0 <= o <= |s| ==> Page(s, pageNumber) == s[o .. Min(o + PageSize, |s|)]
    ensures PageOffset(pageNumber) >= |s| ==> Page(s, pageNumber) == []
    ensures PageOffset(pageNumber) < 0 ==> Page(s, pageNumber) == s[.. Min(PageSize, |s|)]
  {
    var o := PageOffset(pageNumber);
    if 0 <= o <= |s| {
      assert Skip(s, o) == s[o..];
    }
  }

  /** The first page, and every page number below it, shows the first fifty rows. */
  lemma LowPagesShowFirst<T>(s: seq<T>, pageNumber: Int32)
    requires LowestPage <= pageNumber <= 1
    ensures Page(s, pageNumber) == s[.. Min(PageSize, |s|)]
  {
    PageOffsetWrap(pageNumber);
    PageSlice(s, pageNumber);
  }

  /** `Math.Ceiling(count / (double)pageSize)`: the fewest pages of fifty that hold `count` rows. */
  function TotalPages(count: nat): (k: nat)
    ensures (k - 1) * PageSize < count <= k * PageSize
  {
    (count + PageSize - 1) / PageSize
  }

  /** Every row of the list is on exactly one page, which is one of the `TotalPages`. */
  lemma RowOnItsPage<T>(s: seq<T>, i: int)
    requires 0 <= i < |s| <= MaxInt
    ensures var p := i / PageSize + 1;
            && 1 <= p <= TotalPages(|s|)
            && i % PageSize < |Page(s, p)|
            && Page(s, p)[i % PageSize] == s[i]
  {
    var p := i / PageSize + 1;
    PageOffsetWrap(p);
    PageSlice(s, p);
    assert (p - 1) * PageSize <= i < p * PageSize;
  }

  // ----- totals -----

  /** The `ViewBag` figures; `averageWorkHours` is not modelled. */
  datatype ViewTotals = ViewTotals(
    totalRecords: nat,
    totalCheckIns: nat,
    totalCheckOuts: nat,
    totalFullAttendance: nat,
    totalPartialAttendance: nat,
    currentPage: int,
    totalPages: nat,
    pageSize: int)

  predicate HasCheckIn(v: AttendanceRow) { v.checkInTime.Some? }
  predicate HasCheckOut(v: AttendanceRow) { v.checkOutTime.Some? }
  predicate IsFull(v: AttendanceRow) { v.status.Label() == FullAttendanceLabel }
  predicate IsPartial(v: AttendanceRow) { v.status.Label() == CheckInOnlyLabel }

  /** `SetEmptyViewBag`: every figure zero, on page one of none. */
  function EmptyTotals(): ViewTotals
  {
    ViewTotals(0, 0, 0, 0, 0, 1, 0, PageSize)
  }

  /** `SetViewBagData`: the counts over the filtered list before paging. */
  function TotalsOf(fullList: seq<AttendanceRow>, pageNumber: int): ViewTotals
  {
    ViewTotals(
      |fullList|,
      |Filter(fullList, HasCheckIn)|,
      |Filter(fullList, HasCheckOut)|,
      |Filter(fullList, IsFull)|,
      |Filter(fullList, IsPartial)|,
      pageNumber,
      TotalPages(|fullList|),
      PageSize)
  }

  /** Two predicates no element satisfies together: their counts add up to at most the length. */
  lemma {:induction false} DisjointCounts<T>(s: seq<T>, p: T -> bool, q: T -> bool)
    requires forall x :: !(p(x) && q(x))
    ensures |Filter(s, p)| + |Filter(s, q)| <= |s|
    decreases |s|
  {
    if s != [] {
      DisjointCounts(s[..|s| - 1], p, q);
    }
  }

  /**
   * The totals of any list: full and partial days are counted apart, and a
   * full day is `FullAttendance`, a partial one entry only.
   */
  lemma TotalsBounds(fullList: seq<AttendanceRow>, pageNumber: int)
    ensures var t := TotalsOf(fullList, pageNumber);
            && t.totalCheckIns <= t.totalRecords && t.totalCheckOuts <= t.totalRecords
            && t.totalFullAttendance + t.totalPartialAttendance <= t.totalRecords
            && t.totalFullAttendance == |Filter(fullList, (v: AttendanceRow) => v.status == FullAttendance)|
            && t.totalPartialAttendance == |Filter(fullList, (v: AttendanceRow) => v.status == CheckInOnly)|
  {
    forall v: AttendanceRow
      ensures !(IsFull(v) && IsPartial(v))
      ensures IsFull(v) == (v.status == FullAttendance)
      ensures IsPartial(v) == (v.status == CheckInOnly)
    {
      if IsFull(v) {
        DayStatusLabelInjective(v.status, FullAttendance);
      }
      if IsPartial(v) {
        DayStatusLabelInjective(v.status, CheckInOnly);
      }
    }
    DisjointCounts(fullList, IsFull, IsPartial);
    FilterCongruent(fullList, IsFull, (v: AttendanceRow) => v.status == FullAttendance);
    FilterCongruent(fullList, IsPartial, (v: AttendanceRow) => v.status == CheckInOnly);
  }

  /** A check-out count never exceeds the check-in count when every row with a check-out has a check-in. */
  lemma {:induction false} CheckOutsWithinCheckIns(s: seq<AttendanceRow>)
    requires forall i :: 0 <= i < |s| ==> (HasCheckOut(s[i]) ==> HasCheckIn(s[i]))
    ensures |Filter(s, HasCheckOut)| <= |Filter(s, HasCheckIn)|
    decreases |s|
  {
    if s != [] {
      CheckOutsWithinCheckIns(s[..|s| - 1]);
    }
  }

  /**
   * On reconciled rows every row has a check-in, so the check-ins are all
   * the records and the check-outs are at most that many.
   */
  lemma ReconciledTotals(fullList: seq<AttendanceRow>, pageNumber: int)
    requires forall i :: 0 <= i < |fullList| ==> fullList[i].checkInTime.Some?
    ensures TotalsOf(fullList, pageNumber).totalCheckIns == TotalsOf(fullList, pageNumber).totalRecords
    ensures TotalsOf(fullList, pageNumber).totalCheckOuts <= TotalsOf(fullList, pageNumber).totalCheckIns
  {
    FilterKeepsAll(fullList, HasCheckIn);
    CheckOutsWithinCheckIns(fullList);
  }

  // ----- the action -----

  /** The query string of `Index`. */
  datatype IndexQuery = IndexQuery(
    searchString: Option<string>,
    fromDate: Option<Day>,
    toDate: Option<Day>,
    branchId: Option<int>,
    deviceId: Option<int>,
    attendanceStatus: Option<string>,
    minWorkHours: Option<int>,
    maxWorkHours: Option<int>,
    quickFilter: Option<string>,
    pageNumber: Int32)

  /** The page shown and the figures beside it. */
  datatype IndexView = IndexView(page: seq<AttendanceRow>, totals: ViewTotals)

  /** `hasFilters`, over the dates after the quick filter. */
  predicate HasFilters(q: IndexQuery, range: DateRange)
  {
    || (q.searchString.Some? && q.searchString.value != "")
    || range.fromDate.Some?
    || range.toDate.Some?
    || q.branchId.Some?
    || q.deviceId.Some?
    || (q.attendanceStatus.Some? && q.attendanceStatus.value != "")
    || q.minWorkHours.Some?
    || q.maxWorkHours.Some?
    || (q.quickFilter.Some? && q.quickFilter.value != "")
  }

  /** The list before paging: the reconciled rows of the queried punches that pass the additional filters. */
  function FullList(q: IndexQuery, range: DateRange, logs: seq<AttendanceLog>, lookups: Lookups): seq<AttendanceRow>
  {
    var found := Filter(logs, Queried(q.searchString, range, q.branchId, q.deviceId));
    Filter(Rows(GroupLogs(found), lookups), Matching(q.attendanceStatus, q.minWorkHours, q.maxWorkHours))
  }

  /** What `Index` shows; nothing when the quick filter throws. */
  function IndexOf(q: IndexQuery, today: Day, logs: seq<AttendanceLog>, lookups: Lookups): Option<IndexView>
  {
    var range := QuickFilterOf(q.quickFilter, today, q.fromDate, q.toDate);
    if range.None? then None
    else if !HasFilters(q, range.value) then Some(IndexView([], EmptyTotals()))
    else
      var fullList := FullList(q, range.value, logs, lookups);
      Some(IndexView(Page(Ordered(fullList), q.pageNumber), TotalsOf(fullList, q.pageNumber)))
  }

  /**
   * `Index`: `logs` is the punch table, `lookups` the dictionaries of
   * employees, branches and devices, `today` the clock's date.
   */
  method Index(q: IndexQuery, today: Day, logs: seq<AttendanceLog>, lookups: Lookups) returns (r: Option<IndexView>)
    ensures r == IndexOf(q, today, logs, lookups)
  {
    var range := ApplyQuickFilter(q.quickFilter, today, q.fromDate, q.toDate);
    if range.None? {
      return None;
    }
    var hasFilters := HasFilters(q, range.value);
    if !hasFilters {
      return Some(IndexView([], EmptyTotals()));
    }
    var found := Filter(logs, Queried(q.searchString, range.value, q.branchId, q.deviceId));
    var viewModelList := BuildAttendanceViewModels(found, lookups);
    viewModelList := ApplyAdditionalFilters(viewModelList, q.attendanceStatus, q.minWorkHours, q.maxWorkHours);
    var orderedList := Ordered(viewModelList);
    var pagedLogs := Page(orderedList, q.pageNumber);
    return Some(IndexView(pagedLogs, TotalsOf(viewModelList, q.pageNumber)));
  }

  // ----- properties of the action -----

  /** Without a single filter the action shows an empty page and zero totals, whatever the table holds. */
  lemma NoFiltersShowsNothing(q: IndexQuery, today: Day, logs: seq<AttendanceLog>, lookups: Lookups)
    requires q.quickFilter.None? || q.quickFilter.value == ""
    requires q.searchString.None? || q.searchString.value == ""
    requires q.attendanceStatus.None? || q.attendanceStatus.value == ""
    requires q.fromDate.None? && q.toDate.None? && q.branchId.None? && q.deviceId.None?
    requires q.minWorkHours.None? && q.maxWorkHours.None?
    ensures IndexOf(q, today, logs, lookups).Some?
    ensures IndexOf(q, today, logs, lookups).value.page == []
    ensures var t := IndexOf(q, today, logs, lookups).value.totals;
            t.totalRecords == t.totalCheckIns == t.totalCheckOuts == t.totalFullAttendance == t.totalPartialAttendance == t.totalPages == 0
  {
  }

  /** `(id, day)` is the key of some punch of `logs`. */
  predicate HasPunch(logs: seq<AttendanceLog>, id: string, day: Day)
  {
    exists j :: 0 <= j < |logs| && logs[j].biometricUserId == id && DayOf(logs[j].attendanceTime) == day
  }

  /** Every group stands for an id and day that some punch has. */
  lemma GroupPunch(logs: seq<AttendanceLog>, i: int)
    requires 0 <= i < |GroupLogs(logs)|
    ensures HasPunch(logs, GroupLogs(logs)[i].biometricUserId, GroupLogs(logs)[i].date)
  {
    var k := GroupKeys(logs)[i];
    var j :| 0 <= j < |logs| && DayKey(logs[j]) == k;
  }

  /** When every group stands for a punch's id and day, so does every row built from them. */
  lemma RowsFromGroups(groups: seq<PunchGroup>, lookups: Lookups, logs: seq<AttendanceLog>)
    requires forall i :: 0 <= i < |groups| ==> HasPunch(logs, groups[i].biometricUserId, groups[i].date)
    ensures var rows := Rows(groups, lookups);
            forall k :: 0 <= k < |rows| ==> HasPunch(logs, rows[k].biometricUserId, rows[k].date)
  {
    var rows := Rows(groups, lookups);
    RowsAreKnownGroups(groups, lookups);
    forall k | 0 <= k < |rows|
      ensures HasPunch(logs, rows[k].biometricUserId, rows[k].date)
    {
      assert RowOfKnownGroup(rows[k], groups, lookups);
      var i :| 0 <= i < |groups| && Known(groups[i], lookups) &&
               rows[k] == RowOf(groups[i], lookups.employees[groups[i].biometricUserId], lookups);
      RowOfKey(groups[i], lookups.employees[groups[i].biometricUserId], lookups);
    }
  }

  /** Every reconciled row stands for an id and day that some punch has. */
  lemma RowsComeFromPunches(logs: seq<AttendanceLog>, lookups: Lookups)
    ensures var rows := Rows(GroupLogs(logs), lookups);
            forall k :: 0 <= k < |rows| ==> HasPunch(logs, rows[k].biometricUserId, rows[k].date)
  {
    var groups := GroupLogs(logs);
    forall i | 0 <= i < |groups|
      ensures HasPunch(logs, groups[i].biometricUserId, groups[i].date)
    {
      GroupPunch(logs, i);
    }
    RowsFromGroups(groups, lookups, logs);
  }

  /** A row standing for a punch that passed the query has an id and a day the query allows. */
  lemma QueriedRow(logs: seq<AttendanceLog>, searchString: Option<string>, range: DateRange, branchId: Option<int>, deviceId: Option<int>, v: AttendanceRow)
    requires HasPunch(Filter(logs, Queried(searchString, range, branchId, deviceId)), v.biometricUserId, v.date)
    ensures searchString.None? || searchString.value == "" || Contains(v.biometricUserId, searchString.value)
    ensures range.fromDate.None? || range.fromDate.value <= v.date
    ensures range.toDate.None? || v.date <= range.toDate.value
  {
    var found := Filter(logs, Queried(searchString, range, branchId, deviceId));
    var j :| 0 <= j < |found| && found[j].biometricUserId == v.biometricUserId && DayOf(found[j].attendanceTime) == v.date;
    assert InQuery(found[j], searchString, range, branchId, deviceId);
  }

  /**
   * Every row of the list before paging passes the additional filters and
   * has an id and a day the query allows; none is an absence.
   */
  lemma FullListRows(q: IndexQuery, range: DateRange, logs: seq<AttendanceLog>, lookups: Lookups)
    ensures var full := FullList(q, range, logs, lookups);
            forall k :: 0 <= k < |full| ==>
              && Matches(q.attendanceStatus, q.minWorkHours, q.maxWorkHours, full[k])
              && full[k].checkInTime.Some?
              && (q.searchString.None? || q.searchString.value == "" || Contains(full[k].biometricUserId, q.searchString.value))
              && (range.fromDate.None? || range.fromDate.value <= full[k].date)
              && (range.toDate.None? || full[k].date <= range.toDate.value)
  {
    var found := Filter(logs, Queried(q.searchString, range, q.branchId, q.deviceId));
    var rows := Rows(GroupLogs(found), lookups);
    var full := FullList(q, range, logs, lookups);
    RowsComeFromPunches(found, lookups);
    RowsNeverAbsent(found, lookups);
    forall k | 0 <= k < |full|
      ensures && Matches(q.attendanceStatus, q.minWorkHours, q.maxWorkHours, full[k])
              && full[k].checkInTime.Some?
              && (q.searchString.None? || q.searchString.value == "" || Contains(full[k].biometricUserId, q.searchString.value))
              && (range.fromDate.None? || range.fromDate.value <= full[k].date)
              && (range.toDate.None? || full[k].date <= range.toDate.value)
    {
      var i :| 0 <= i < |rows| && rows[i] == full[k];
      QueriedRow(logs, q.searchString, range, q.branchId, q.deviceId, full[k]);
    }
  }

  /** Every row of a page of the ordered list is on the list. */
  lemma PageMembers(full: seq<AttendanceRow>, pageNumber: Int32)
    ensures forall k :: 0 <= k < |Page(Ordered(full), pageNumber)| ==> Page(Ordered(full), pageNumber)[k] in full
  {
    var ordered := Ordered(full);
    var page := Page(ordered, pageNumber);
    PageSlice(ordered, pageNumber);
    forall k | 0 <= k < |page|
      ensures page[k] in full
    {
      assert page[k] in ordered;
      assert page[k] in multiset(ordered);
    }
  }

  /** A page of the ordered list is itself ordered. */
  lemma PageOrdered(full: seq<AttendanceRow>, pageNumber: Int32)
    ensures var page := Page(Ordered(full), pageNumber);
            forall i, j :: 0 <= i < j < |page| ==>
              page[i].date > page[j].date || (page[i].date == page[j].date && LexLe(page[i].biometricUserId, page[j].biometricUserId))
  {
    var ordered := Ordered(full);
    var page := Page(ordered, pageNumber);
    var o := PageOffset(pageNumber);
    var lo := if o < 0 then 0 else o;
    PageSlice(ordered, pageNumber);
    OrderedRows(full);
    if page != [] {
      assert page == ordered[lo .. Min(lo + PageSize, |ordered|)];
      forall i, j | 0 <= i < j < |page|
        ensures page[i].date > page[j].date || (page[i].date == page[j].date && LexLe(page[i].biometricUserId, page[j].biometricUserId))
      {
        assert page[i] == ordered[lo + i] && page[j] == ordered[lo + j];
      }
    }
  }

  /**
   * `view` shows the slice of fifty of the ordered list `full` that starts
   * at the wrapped offset of `pageNumber` (the first fifty rows when that
   * offset is negative, none when it is past the end); each of its rows is on `full`, and the totals count all of
   * `full`: every row has a check-in, there are no more check-outs than
   * check-ins, and the page count is the fewest pages that hold it.
   */
  predicate ShowsPage(full: seq<AttendanceRow>, pageNumber: Int32, view: IndexView)
  {
    && |view.page| <= PageSize
    && (forall k :: 0 <= k < |view.page| ==> view.page[k] in full)
    && (0 <= PageOffset(pageNumber) <= |full| ==>
          view.page == Ordered(full)[PageOffset(pageNumber) .. Min(PageOffset(pageNumber) + PageSize, |full|)])
    && (PageOffset(pageNumber) >= |full| ==> view.page == [])
    && (PageOffset(pageNumber) < 0 ==> view.page == Ordered(full)[.. Min(PageSize, |full|)])
    && view.totals.totalRecords == |full|
    && view.totals.totalCheckIns == |full|
    && view.totals.totalCheckOuts <= view.totals.totalCheckIns
    && (view.totals.totalPages - 1) * PageSize < |full| <= view.totals.totalPages * PageSize
  }

  /** With filters, `Index` shows the page and totals of the filtered list. */
  lemma IndexPage(q: IndexQuery, today: Day, logs: seq<AttendanceLog>, lookups: Lookups)
    requires IndexOf(q, today, logs, lookups).Some?
    requires HasFilters(q, QuickFilterOf(q.quickFilter, today, q.fromDate, q.toDate).value)
    ensures ShowsPage(FullList(q, QuickFilterOf(q.quickFilter, today, q.fromDate, q.toDate).value, logs, lookups),
                      q.pageNumber, IndexOf(q, today, logs, lookups).value)
  {
    var range := QuickFilterOf(q.quickFilter, today, q.fromDate, q.toDate).value;
    var full := FullList(q, range, logs, lookups);
    var view := IndexOf(q, today, logs, lookups).value;
    assert view == IndexView(Page(Ordered(full), q.pageNumber), TotalsOf(full, q.pageNumber));
    FullListRows(q, range, logs, lookups);
    PageView(full, q.pageNumber, view);
  }

  /** The page and totals shown for a whole list `full`. */
  lemma PageView(full: seq<AttendanceRow>, pageNumber: Int32, view: IndexView)
    requires view == IndexView(Page(Ordered(full), pageNumber), TotalsOf(full, pageNumber))
    requires forall i :: 0 <= i < |full| ==> full[i].checkInTime.Some?
    ensures ShowsPage(full, pageNumber, view)
  {
    PageSlice(Ordered(full), pageNumber);
    PageMembers(full, pageNumber);
    ReconciledTotals(full, pageNumber);
  }

  /** A row passes the status and hour filters and has an id and a day the query allows. */
  predicate RowShown(q: IndexQuery, range: DateRange, v: AttendanceRow)
  {
    && Matches(q.attendanceStatus, q.minWorkHours, q.maxWorkHours, v)
    && (q.searchString.None? || q.searchString.value == "" || Contains(v.biometricUserId, q.searchString.value))
    && (range.fromDate.None? || range.fromDate.value <= v.date)
    && (range.toDate.None? || v.date <= range.toDate.value)
  }

  /** Newest day first, then by id. */
  predicate NewestFirst(page: seq<AttendanceRow>)
  {
    forall i, j :: 0 <= i < j < |page| ==>
      page[i].date > page[j].date || (page[i].date == page[j].date && LexLe(page[i].biometricUserId, page[j].biometricUserId))
  }

  /** Each row of the page is one the query allows, and the page is ordered newest day first, then by id. */
  lemma IndexPageRows(q: IndexQuery, today: Day, logs: seq<AttendanceLog>, lookups: Lookups)
    requires IndexOf(q, today, logs, lookups).Some?
    requires HasFilters(q, QuickFilterOf(q.quickFilter, today, q.fromDate, q.toDate).value)
    ensures forall k :: 0 <= k < |IndexOf(q, today, logs, lookups).value.page| ==>
              RowShown(q, QuickFilterOf(q.quickFilter, today, q.fromDate, q.toDate).value, IndexOf(q, today, logs, lookups).value.page[k])
    ensures NewestFirst(IndexOf(q, today, logs, lookups).value.page)
  {
    var range := QuickFilterOf(q.quickFilter, today, q.fromDate, q.toDate).value;
    var full := FullList(q, range, logs, lookups);
    var page := IndexOf(q, today, logs, lookups).value.page;
    assert page == Page(Ordered(full), q.pageNumber);
    FullListRows(q, range, logs, lookups);
    PageRowsShown(q, range, full, page, q.pageNumber);
  }

  lemma PageRowsShown(q: IndexQuery, range: DateRange, full: seq<AttendanceRow>, page: seq<AttendanceRow>, pageNumber: Int32)
    requires page == Page(Ordered(full), pageNumber)
    requires forall i :: 0 <= i < |full| ==> RowShown(q, range, full[i])
    ensures forall k :: 0 <= k < |page| ==> RowShown(q, range, page[k])
    ensures NewestFirst(page)
  {
    PageMembers(full, pageNumber);
    PageOrdered(full, pageNumber);
    forall k | 0 <= k < |page|
      ensures RowShown(q, range, page[k])
    {
      var i :| 0 <= i < |full| && full[i] == page[k];
    }
  }
}
