/**
 * `AttendanceLogRepository`: the queries over the punch table (time
 * windows, per employee, device and branch), duplicate detection against the
 * unique index, in-place sync and processing flags, and the two groupings
 * used by the daily reports.
 */
module AttendanceLogRepository {
  import opened Wrappers
  import opened Seqs
  import opened Text
  import opened Calendar
  import opened Entities
  import opened Tables
  import opened Database
  import opened Punches

  // ----- GetByDateRangeAsync -----

  /** The punch's employee, joined through `EmployeeId`, has a name containing `search`. */
  predicate EmployeeNameContains(l: AttendanceLog, employees: seq<Employee>, search: string)
  {
    l.employeeId.Some? &&
    var e := Find(employees, EmployeeKey, l.employeeId.value);
    e.Some? && Contains(e.value.employeeName, search)
  }

  /** The filters of `GetByDateRangeAsync`; an empty search text filters nothing. */
  predicate MatchesRange(l: AttendanceLog, employees: seq<Employee>, from: Instant, to: Instant,
                         search: Option<string>, branchId: Option<int>, deviceId: Option<int>)
  {
    && InWindow(l, from, to)
    && (search.Some? && search.value != [] ==>
          Contains(l.biometricUserId, search.value) || EmployeeNameContains(l, employees, search.value))
    && (branchId.Some? ==> l.branchId == branchId.value)
    && (deviceId.Some? ==> l.deviceId == deviceId.value)
  }

  function RangeFilter(employees: seq<Employee>, from: Instant, to: Instant,
                       search: Option<string>, branchId: Option<int>, deviceId: Option<int>): AttendanceLog -> bool
  {
    (l: AttendanceLog) => MatchesRange(l, employees, from, to, search, branchId, deviceId)
  }

  /** `GetByDateRangeAsync`: the matching punches of `[from, to)`, latest first. */
  function GetByDateRange(logs: seq<AttendanceLog>, employees: seq<Employee>, from: Instant, to: Instant,
                          search: Option<string>, branchId: Option<int>, deviceId: Option<int>): (r: seq<AttendanceLog>)
    ensures forall i :: 0 <= i < |r| ==> r[i] in logs && MatchesRange(r[i], employees, from, to, search, branchId, deviceId)
    ensures forall i :: 0 <= i < |logs| && MatchesRange(logs[i], employees, from, to, search, branchId, deviceId) ==> logs[i] in r
    ensures multiset(r) == multiset(Filter(logs, RangeFilter(employees, from, to, search, branchId, deviceId)))
    ensures forall i, j :: 0 <= i < j < |r| ==> r[i].attendanceTime >= r[j].attendanceTime
  {
    OrderedFilter(logs, RangeFilter(employees, from, to, search, branchId, deviceId));
    OrderByTimeDescending(Filter(logs, RangeFilter(employees, from, to, search, branchId, deviceId)))
  }

  // ----- per employee, device and branch -----

  function EmployeeWindow(biometricUserId: string, from: int, to: int): AttendanceLog -> bool
  {
    (l: AttendanceLog) => l.biometricUserId == biometricUserId && InWindow(l, from, to)
  }

  /** `GetByEmployeeAndDateRangeAsync`: one employee's punches of `[from, to)`, earliest first. */
  function GetByEmployeeAndDateRange(logs: seq<AttendanceLog>, biometricUserId: string, from: int, to: int): (r: seq<AttendanceLog>)
    ensures forall i :: 0 <= i < |r| ==> r[i] in logs && r[i].biometricUserId == biometricUserId && InWindow(r[i], from, to)
    ensures forall i :: 0 <= i < |logs| && logs[i].biometricUserId == biometricUserId && InWindow(logs[i], from, to) ==> logs[i] in r
    ensures multiset(r) == multiset(Filter(logs, EmployeeWindow(biometricUserId, from, to)))
    ensures forall i, j :: 0 <= i < j < |r| ==> r[i].attendanceTime <= r[j].attendanceTime
  {
    OrderedFilter(logs, EmployeeWindow(biometricUserId, from, to));
    OrderByTime(Filter(logs, EmployeeWindow(biometricUserId, from, to)))
  }

  /**
   * `GetByEmployeeAndDateAsync`: one employee's punches of the calendar day
   * of `date`, earliest first; nothing on 9999-12-31, where `AddDays(1)` throws.
   */
  function GetByEmployeeAndDate(logs: seq<AttendanceLog>, biometricUserId: string, date: Instant): (r: Option<seq<AttendanceLog>>)
    ensures r.None? <==> DayOf(date) == MaxDay
    ensures r.Some? ==> forall i :: 0 <= i < |r.value| ==>
              r.value[i] in logs && r.value[i].biometricUserId == biometricUserId && DayOf(r.value[i].attendanceTime) == DayOf(date)
    ensures r.Some? ==> forall i :: 0 <= i < |logs| && logs[i].biometricUserId == biometricUserId && DayOf(logs[i].attendanceTime) == DayOf(date) ==>
              logs[i] in r.value
    ensures r.Some? ==> forall i, j :: 0 <= i < j < |r.value| ==> r.value[i].attendanceTime <= r.value[j].attendanceTime
    ensures r.Some? ==> multiset(r.value) == multiset(Filter(logs, EmployeeDay(biometricUserId, DayOf(date))))
  {
    var start := DayOf(date);
    match AddDays(start, 1)
    case None => None
    case Some(next) =>
      DayWindowFilter(logs, biometricUserId, start, next);
      Some(GetByEmployeeAndDateRange(logs, biometricUserId, Midnight(start), Midnight(next)))
  }

  /** The punches of one employee on one calendar day. */
  function EmployeeDay(biometricUserId: string, day: Day): AttendanceLog -> bool
  {
    (l: AttendanceLog) => l.biometricUserId == biometricUserId && DayOf(l.attendanceTime) == day
  }

  /** The window from a day's midnight to the next day's selects exactly that day's punches. */
  lemma DayWindowFilter(logs: seq<AttendanceLog>, biometricUserId: string, start: Day, next: Day)
    requires AddDays(start, 1) == Some(next)
    ensures Filter(logs, EmployeeWindow(biometricUserId, Midnight(start), Midnight(next))) == Filter(logs, EmployeeDay(biometricUserId, start))
  {
    forall l | l in logs
      ensures EmployeeWindow(biometricUserId, Midnight(start), Midnight(next))(l) == EmployeeDay(biometricUserId, start)(l)
    {
      SameDayIffInWindow(l.attendanceTime, start);
    }
    FilterCongruent(logs, EmployeeWindow(biometricUserId, Midnight(start), Midnight(next)), EmployeeDay(biometricUserId, start));
  }

  function DeviceWindow(deviceId: int, from: int, to: int): AttendanceLog -> bool
  {
    (l: AttendanceLog) => l.deviceId == deviceId && InWindow(l, from, to)
  }

  /** `GetByDeviceAndDateRangeAsync`: one device's punches of `[from, to)`, latest first. */
  function GetByDeviceAndDateRange(logs: seq<AttendanceLog>, deviceId: int, from: int, to: int): (r: seq<AttendanceLog>)
    ensures forall i :: 0 <= i < |r| ==> r[i] in logs && r[i].deviceId == deviceId && InWindow(r[i], from, to)
    ensures forall i :: 0 <= i < |logs| && logs[i].deviceId == deviceId && InWindow(logs[i], from, to) ==> logs[i] in r
    ensures multiset(r) == multiset(Filter(logs, DeviceWindow(deviceId, from, to)))
    ensures forall i, j :: 0 <= i < j < |r| ==> r[i].attendanceTime >= r[j].attendanceTime
  {
    OrderedFilter(logs, DeviceWindow(deviceId, from, to));
    OrderByTimeDescending(Filter(logs, DeviceWindow(deviceId, from, to)))
  }

  function BranchWindow(branchId: int, from: int, to: int): AttendanceLog -> bool
  {
    (l: AttendanceLog) => l.branchId == branchId && InWindow(l, from, to)
  }

  /** `GetByBranchAndDateRangeAsync`: one branch's punches of `[from, to)`, latest first. */
  function GetByBranchAndDateRange(logs: seq<AttendanceLog>, branchId: int, from: int, to: int): (r: seq<AttendanceLog>)
    ensures forall i :: 0 <= i < |r| ==> r[i] in logs && r[i].branchId == branchId && InWindow(r[i], from, to)
    ensures forall i :: 0 <= i < |logs| && logs[i].branchId == branchId && InWindow(logs[i], from, to) ==> logs[i] in r
    ensures multiset(r) == multiset(Filter(logs, BranchWindow(branchId, from, to)))
    ensures forall i, j :: 0 <= i < j < |r| ==> r[i].attendanceTime >= r[j].attendanceTime
  {
    OrderedFilter(logs, BranchWindow(branchId, from, to));
    OrderByTimeDescending(Filter(logs, BranchWindow(branchId, from, to)))
  }

  // ----- duplicates -----

  /** `ExistsAsync`: a stored punch has this (biometric id, time, device) triple. */
  function Exists(logs: seq<AttendanceLog>, biometricUserId: string, attendanceTime: Instant, deviceId: int): bool
  {
    HasKey(logs, LogTripleKey, (biometricUserId, attendanceTime, deviceId))
  }

  /**
   * `ExistsAsync` answers exactly the unique index's question: a new punch
   * (any fresh id) clashes with the index iff its triple exists already.
   */
  lemma ExistsIffIndexClash(logs: seq<AttendanceLog>, l: AttendanceLog)
    requires !HasKey(logs, LogKey, l.logId)
    ensures Exists(logs, l.biometricUserId, l.attendanceTime, l.deviceId) <==>
            exists j :: 0 <= j < |logs| && logs[j].logId != l.logId && logs[j].Triple() == l.Triple()
  {
    if Exists(logs, l.biometricUserId, l.attendanceTime, l.deviceId) {
      var j :| 0 <= j < |logs| && LogTripleKey(logs[j]) == (l.biometricUserId, l.attendanceTime, l.deviceId);
      assert logs[j].logId != l.logId;
    }
  }

  function Stored(logs: seq<AttendanceLog>): AttendanceLog -> bool
  {
    (l: AttendanceLog) => Exists(logs, l.biometricUserId, l.attendanceTime, l.deviceId)
  }

  /** `GetDuplicatesAsync`: the punches of `batch`, in order, whose triple is already stored. */
  method GetDuplicates(db: Context, batch: seq<AttendanceLog>) returns (duplicates: seq<AttendanceLog>)
    ensures duplicates == Filter(batch, Stored(db.logs))
  {
    duplicates := [];
    var i := 0;
    while i < |batch|
      invariant 0 <= i <= |batch|
      invariant duplicates == Filter(batch[..i], Stored(db.logs))
    {
      var l := batch[i];
      assert batch[..i + 1][..i] == batch[..i];
      if Exists(db.logs, l.biometricUserId, l.attendanceTime, l.deviceId) {
        duplicates := duplicates + [l];
      }
      i := i + 1;
    }
    assert batch[..i] == batch;
  }

  /**
   * Storing a punch of the batch that `GetDuplicatesAsync` did not return can
   * never hit the unique index, whatever identity the database gives it.
   */
  lemma NonDuplicateFitsIndex(logs: seq<AttendanceLog>, batch: seq<AttendanceLog>, l: AttendanceLog, id: int)
    requires l in batch && l !in Filter(batch, Stored(logs))
    requires !HasKey(logs, LogKey, id)
    ensures forall j :: 0 <= j < |logs| && logs[j].logId != id ==> logs[j].Triple() != l.(logId := id).Triple()
  {
    assert !Stored(logs)(l);
    ExistsIffIndexClash(logs, l.(logId := id));
  }

  // ----- sync and processing flags -----

  /** The table after `MarkAsSyncedAsync(ids)` at time `now`. */
  function MarkedSynced(logs: seq<AttendanceLog>, ids: seq<int>, now: Instant): (r: seq<AttendanceLog>)
    ensures |r| == |logs|
    ensures forall i :: 0 <= i < |r| ==>
              && r[i].isSynced == (logs[i].isSynced || logs[i].logId in ids)
              && r[i].syncedDate == (if logs[i].logId in ids then Some(now) else logs[i].syncedDate)
              && r[i].(isSynced := logs[i].isSynced, syncedDate := logs[i].syncedDate) == logs[i]
  {
    seq(|logs|, i requires 0 <= i < |logs| =>
      if logs[i].logId in ids then logs[i].(isSynced := true, syncedDate := Some(now)) else logs[i])
  }

  /** The table after `MarkAsProcessedAsync(ids)` at time `now`. */
  function MarkedProcessed(logs: seq<AttendanceLog>, ids: seq<int>, now: Instant): (r: seq<AttendanceLog>)
    ensures |r| == |logs|
    ensures forall i :: 0 <= i < |r| ==>
              && r[i].isProcessed == (logs[i].isProcessed || logs[i].logId in ids)
              && r[i].processedDate == (if logs[i].logId in ids then Some(now) else logs[i].processedDate)
              && r[i].(isProcessed := logs[i].isProcessed, processedDate := logs[i].processedDate) == logs[i]
  {
    seq(|logs|, i requires 0 <= i < |logs| =>
      if logs[i].logId in ids then logs[i].(isProcessed := true, processedDate := Some(now)) else logs[i])
  }

  /** Marking the same ids again only moves the stamp: the flags stay set. */
  lemma MarkSyncedTwice(logs: seq<AttendanceLog>, ids: seq<int>, t1: Instant, t2: Instant)
    ensures MarkedSynced(MarkedSynced(logs, ids, t1), ids, t2) == MarkedSynced(logs, ids, t2)
  {
  }

  /** A flag change keeps every key, index entry and reference of the row. */
  lemma LogsValidAfterFlag(logs: seq<AttendanceLog>, employees: seq<Employee>, devices: seq<Device>, branches: seq<Branch>, i: int, x: AttendanceLog)
    requires LogsValid(logs, employees, devices, branches) && 0 <= i < |logs|
    requires x.logId == logs[i].logId && x.Triple() == logs[i].Triple()
    requires x.branchId == logs[i].branchId && x.employeeId == logs[i].employeeId
    ensures LogsValid(logs[i := x], employees, devices, branches)
  {
    UniqueKeysReplace(logs, LogKey, i, x);
    UniqueKeysReplace(logs, LogTripleKey, i, x);
    ReferencesReplace(logs, LogDeviceRef, devices, DeviceKey, i, x);
    ReferencesReplace(logs, LogBranchRef, branches, BranchKey, i, x);
    ReferencesReplace(logs, LogEmployeeRef, employees, EmployeeKey, i, x);
  }

  /** `MarkAsSyncedAsync`: sets the flag and the stamp on each listed punch; unknown ids are ignored. */
  method MarkAsSynced(db: Context, ids: seq<int>, now: Instant)
    requires db.Valid()
    modifies db`logs
    ensures db.Valid()
    ensures db.logs == MarkedSynced(old(db.logs), ids, now)
  {
    var logs := db.logs;
    var i := 0;
    while i < |logs|
      invariant 0 <= i <= |logs| == |db.logs|
      invariant db.logs == old(db.logs)
      invariant LogsValid(logs, db.employees, db.devices, db.branches)
      invariant forall j :: 0 <= j < i ==> logs[j] == MarkedSynced(db.logs, ids, now)[j]
      invariant forall j :: i <= j < |logs| ==> logs[j] == db.logs[j]
    {
      var l := logs[i];
      if l.logId in ids {
        LogsValidAfterFlag(logs, db.employees, db.devices, db.branches, i, l.(isSynced := true, syncedDate := Some(now)));
        logs := logs[i := l.(isSynced := true, syncedDate := Some(now))];
      }
      i := i + 1;
    }
    assert logs == MarkedSynced(db.logs, ids, now);
    db.logs := logs;
  }

  /** `MarkAsProcessedAsync`: sets the flag and the stamp on each listed punch; unknown ids are ignored. */
  method MarkAsProcessed(db: Context, ids: seq<int>, now: Instant)
    requires db.Valid()
    modifies db`logs
    ensures db.Valid()
    ensures db.logs == MarkedProcessed(old(db.logs), ids, now)
  {
    var logs := db.logs;
    var i := 0;
    while i < |logs|
      invariant 0 <= i <= |logs| == |db.logs|
      invariant db.logs == old(db.logs)
      invariant LogsValid(logs, db.employees, db.devices, db.branches)
      invariant forall j :: 0 <= j < i ==> logs[j] == MarkedProcessed(db.logs, ids, now)[j]
      invariant forall j :: i <= j < |logs| ==> logs[j] == db.logs[j]
    {
      var l := logs[i];
      if l.logId in ids {
        LogsValidAfterFlag(logs, db.employees, db.devices, db.branches, i, l.(isProcessed := true, processedDate := Some(now)));
        logs := logs[i := l.(isProcessed := true, processedDate := Some(now))];
      }
      i := i + 1;
    }
    assert logs == MarkedProcessed(db.logs, ids, now);
    db.logs := logs;
  }

  function NotSynced(l: AttendanceLog): bool { !l.isSynced }
  function NotProcessed(l: AttendanceLog): bool { !l.isProcessed }

  /** `GetUnsyncedLogsAsync`: the punches not yet synced, earliest first. */
  function GetUnsyncedLogs(logs: seq<AttendanceLog>): (r: seq<AttendanceLog>)
    ensures forall i :: 0 <= i < |r| ==> r[i] in logs && !r[i].isSynced
    ensures forall i :: 0 <= i < |logs| && !logs[i].isSynced ==> logs[i] in r
    ensures multiset(r) == multiset(Filter(logs, NotSynced))
    ensures forall i, j :: 0 <= i < j < |r| ==> r[i].attendanceTime <= r[j].attendanceTime
  {
    OrderedFilter(logs, NotSynced);
    OrderByTime(Filter(logs, NotSynced))
  }

  /** `GetUnprocessedLogsAsync`: the punches not yet processed, earliest first. */
  function GetUnprocessedLogs(logs: seq<AttendanceLog>): (r: seq<AttendanceLog>)
    ensures forall i :: 0 <= i < |r| ==> r[i] in logs && !r[i].isProcessed
    ensures forall i :: 0 <= i < |logs| && !logs[i].isProcessed ==> logs[i] in r
    ensures multiset(r) == multiset(Filter(logs, NotProcessed))
    ensures forall i, j :: 0 <= i < j < |r| ==> r[i].attendanceTime <= r[j].attendanceTime
  {
    OrderedFilter(logs, NotProcessed);
    OrderByTime(Filter(logs, NotProcessed))
  }

  function Unlisted(ids: seq<int>): AttendanceLog -> bool
  {
    (l: AttendanceLog) => !l.isProcessed && l.logId !in ids
  }

  /**
   * Marking punches processed removes exactly them from the unprocessed
   * punches: the rest are the same rows, in the same order.
   */
  lemma {:induction false} UnprocessedAfterMarking(logs: seq<AttendanceLog>, ids: seq<int>, now: Instant)
    ensures Filter(MarkedProcessed(logs, ids, now), NotProcessed) == Filter(logs, Unlisted(ids))
    decreases |logs|
  {
    if logs != [] {
      var front := logs[..|logs| - 1];
      var marked := MarkedProcessed(logs, ids, now);
      assert marked[..|marked| - 1] == MarkedProcessed(front, ids, now);
      UnprocessedAfterMarking(front, ids, now);
    }
  }

  /** After `MarkAsProcessedAsync(ids)`, `GetUnprocessedLogsAsync` returns none of those ids. */
  lemma MarkedNeverUnprocessed(logs: seq<AttendanceLog>, ids: seq<int>, now: Instant)
    ensures forall l :: l in GetUnprocessedLogs(MarkedProcessed(logs, ids, now)) ==> l.logId !in ids
  {
    var r := GetUnprocessedLogs(MarkedProcessed(logs, ids, now));
    forall l | l in r
      ensures l.logId !in ids
    {
      var i :| 0 <= i < |r| && r[i] == l;
      var m := MarkedProcessed(logs, ids, now);
      var k :| 0 <= k < |m| && m[k] == l;
      assert m[k].isProcessed == (logs[k].isProcessed || logs[k].logId in ids);
    }
  }

  // ----- grouping by employee and day -----

  /** `$"{BiometricUserId}_{AttendanceTime.Date:yyyy-MM-dd}"`. */
  function GroupKey(l: AttendanceLog): string
  {
    l.biometricUserId + "_" + DayString(DayOf(l.attendanceTime))
  }

  /**
   * Because the date part has a fixed width, the key can be cut apart again:
   * two punches share a key iff they have the same biometric id and day.
   */
  lemma GroupKeyInjective(a: AttendanceLog, b: AttendanceLog)
    ensures GroupKey(a) == GroupKey(b) <==>
            a.biometricUserId == b.biometricUserId && DayOf(a.attendanceTime) == DayOf(b.attendanceTime)
  {
    if GroupKey(a) == GroupKey(b) {
      var da := DayString(DayOf(a.attendanceTime));
      var db := DayString(DayOf(b.attendanceTime));
      var ka := GroupKey(a);
      assert |a.biometricUserId| == |b.biometricUserId|;
      assert a.biometricUserId == ka[..|a.biometricUserId|];
      assert b.biometricUserId == GroupKey(b)[..|b.biometricUserId|];
      assert da == ka[|a.biometricUserId| + 1..];
      assert db == GroupKey(b)[|b.biometricUserId| + 1..];
      DayStringInjective(DayOf(a.attendanceTime), DayOf(b.attendanceTime));
    }
  }

  function WithGroupKey(k: string): AttendanceLog -> bool
  {
    (l: AttendanceLog) => GroupKey(l) == k
  }

  /** The group keys of `s`, one per punch. */
  function GroupKeys(s: seq<AttendanceLog>): (keys: seq<string>)
    ensures |keys| == |s| && forall i :: 0 <= i < |s| ==> keys[i] == GroupKey(s[i])
  {
    seq(|s|, i requires 0 <= i < |s| => GroupKey(s[i]))
  }

  /** The group of key `k`: the punches of `s` with that key, earliest first. */
  function GroupOf(s: seq<AttendanceLog>, k: string): (g: seq<AttendanceLog>)
    ensures forall i, j :: 0 <= i < j < |g| ==> g[i].attendanceTime <= g[j].attendanceTime
  {
    OrderByTime(Filter(s, WithGroupKey(k)))
  }

  /**
   * `GroupByEmployeeAndDateAsync`: the punches of `[from, to)` grouped by
   * employee and day, each group earliest first.
   */
  function GroupByEmployeeAndDate(logs: seq<AttendanceLog>, employees: seq<Employee>, from: Instant, to: Instant): (groups: map<string, seq<AttendanceLog>>)
  {
    var inRange := GetByDateRange(logs, employees, from, to, None, None, None);
    map k | k in GroupKeys(inRange) :: GroupOf(inRange, k)
  }

  /** Every punch of the window is in the group of its own employee and day. */
  lemma PunchInItsGroup(logs: seq<AttendanceLog>, employees: seq<Employee>, from: Instant, to: Instant, l: AttendanceLog)
    requires l in logs && InWindow(l, from, to)
    ensures var groups := GroupByEmployeeAndDate(logs, employees, from, to);
            GroupKey(l) in groups && l in groups[GroupKey(l)]
  {
    var inRange := GetByDateRange(logs, employees, from, to, None, None, None);
    var i :| 0 <= i < |logs| && logs[i] == l;
    assert MatchesRange(logs[i], employees, from, to, None, None, None);
    var j :| 0 <= j < |inRange| && inRange[j] == l;
    assert GroupKeys(inRange)[j] == GroupKey(l);
    var f := Filter(inRange, WithGroupKey(GroupKey(l)));
    assert WithGroupKey(GroupKey(l))(inRange[j]);
    assert l in f;
    OrderByTimeMembers(f, l);
  }

  /** A group holds only punches of the window with its own employee and day. */
  lemma GroupHoldsItsKey(logs: seq<AttendanceLog>, employees: seq<Employee>, from: Instant, to: Instant, k: string, l: AttendanceLog)
    requires var groups := GroupByEmployeeAndDate(logs, employees, from, to);
             k in groups && l in groups[k]
    ensures l in logs && InWindow(l, from, to) && GroupKey(l) == k
  {
    var inRange := GetByDateRange(logs, employees, from, to, None, None, None);
    var f := Filter(inRange, WithGroupKey(k));
    OrderByTimeMembers(f, l);
    var i :| 0 <= i < |f| && f[i] == l;
    var j :| 0 <= j < |inRange| && inRange[j] == l;
  }

  // ----- daily counts -----

  function DayKeyInWindow(from: Instant, to: Instant, k: string): AttendanceLog -> bool
  {
    (l: AttendanceLog) => InWindow(l, from, to) && DayString(DayOf(l.attendanceTime)) == k
  }

  function DayInWindow(from: Instant, to: Instant, d: Day): AttendanceLog -> bool
  {
    (l: AttendanceLog) => InWindow(l, from, to) && DayOf(l.attendanceTime) == d
  }

  function Within(from: Instant, to: Instant): AttendanceLog -> bool
  {
    (l: AttendanceLog) => InWindow(l, from, to)
  }

  /** The formatted day of each punch of `logs` that lies in `[from, to)`. */
  function DayKeys(logs: seq<AttendanceLog>, from: Instant, to: Instant): (keys: seq<string>)
    ensures var w := Filter(logs, Within(from, to));
            |keys| == |w| && forall i :: 0 <= i < |w| ==> keys[i] == DayString(DayOf(w[i].attendanceTime))
  {
    var w := Filter(logs, Within(from, to));
    seq(|w|, i requires 0 <= i < |w| => DayString(DayOf(w[i].attendanceTime)))
  }

  /** `GetDailyCountsAsync`: for each "yyyy-MM-dd" with punches in `[from, to)`, how many. */
  function GetDailyCounts(logs: seq<AttendanceLog>, from: Instant, to: Instant): (counts: map<string, int>)
  {
    map k | k in DayKeys(logs, from, to) :: |Filter(logs, DayKeyInWindow(from, to, k))|
  }

  /**
   * The dictionary has exactly one entry per calendar day that has punches in
   * the window (formatting days never collides), counting that day's punches.
   */
  lemma DailyCountsPerDay(logs: seq<AttendanceLog>, from: Instant, to: Instant, d: Day)
    ensures var counts := GetDailyCounts(logs, from, to);
            DayString(d) in counts <==> exists l :: l in logs && InWindow(l, from, to) && DayOf(l.attendanceTime) == d
    ensures var counts := GetDailyCounts(logs, from, to);
            DayString(d) in counts ==> counts[DayString(d)] == |Filter(logs, DayInWindow(from, to, d))|
  {
    var counts := GetDailyCounts(logs, from, to);
    var w := Filter(logs, Within(from, to));
    var keys := DayKeys(logs, from, to);
    if DayString(d) in counts {
      var i :| 0 <= i < |keys| && keys[i] == DayString(d);
      DayStringInjective(DayOf(w[i].attendanceTime), d);
      assert w[i] in logs && InWindow(w[i], from, to);
      forall x | x in logs
        ensures DayKeyInWindow(from, to, DayString(d))(x) == DayInWindow(from, to, d)(x)
      {
        if DayString(DayOf(x.attendanceTime)) == DayString(d) {
          DayStringInjective(DayOf(x.attendanceTime), d);
        }
      }
      FilterCongruent(logs, DayKeyInWindow(from, to, DayString(d)), DayInWindow(from, to, d));
    }
    if l :| l in logs && InWindow(l, from, to) && DayOf(l.attendanceTime) == d {
      var j :| 0 <= j < |logs| && logs[j] == l;
      assert Within(from, to)(logs[j]);
      var i :| 0 <= i < |w| && w[i] == l;
      assert keys[i] == DayString(d);
    }
  }
}
