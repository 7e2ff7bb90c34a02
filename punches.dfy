/**
 * Punch sequences as the services handle them: ordered by time (LINQ's
 * stable `OrderBy` / `OrderByDescending` on `AttendanceTime`), restricted
 * to a half-open time window, and their earliest and latest instants.
 */
module Punches {
  import opened Seqs
  import opened Calendar
  import opened Entities

  function LogTime(l: AttendanceLog): int
  {
    l.attendanceTime
  }

  /** `OrderBy(a => a.AttendanceTime)`: ascending, ties kept in their order. */
  function OrderByTime(s: seq<AttendanceLog>): (r: seq<AttendanceLog>)
    ensures |r| == |s| && multiset(r) == multiset(s)
    ensures forall i, j :: 0 <= i < j < |r| ==> r[i].attendanceTime <= r[j].attendanceTime
  {
    ByIntIsPreorder(LogTime);
    SortBySorted(s, ByInt(LogTime));
    var r := SortBy(s, ByInt(LogTime));
    assert forall i, j :: 0 <= i < j < |r| ==> ByInt(LogTime)(r[i], r[j]) == (LogTime(r[i]) <= LogTime(r[j]));
    r
  }

  /** `OrderByDescending(a => a.AttendanceTime)`. */
  function OrderByTimeDescending(s: seq<AttendanceLog>): (r: seq<AttendanceLog>)
    ensures |r| == |s| && multiset(r) == multiset(s)
    ensures forall i, j :: 0 <= i < j < |r| ==> r[i].attendanceTime >= r[j].attendanceTime
  {
    ByIntDescendingIsPreorder(LogTime);
    SortBySorted(s, ByIntDescending(LogTime));
    var r := SortBy(s, ByIntDescending(LogTime));
    assert forall i, j :: 0 <= i < j < |r| ==> ByIntDescending(LogTime)(r[i], r[j]) == (LogTime(r[i]) >= LogTime(r[j]));
    r
  }

  /** Ordering a sequence keeps exactly its punches. */
  lemma OrderByTimeMembers(s: seq<AttendanceLog>, l: AttendanceLog)
    ensures l in OrderByTime(s) <==> l in s
    ensures l in OrderByTimeDescending(s) <==> l in s
  {
    assert l in OrderByTime(s) <==> l in multiset(OrderByTime(s));
    assert l in OrderByTimeDescending(s) <==> l in multiset(OrderByTimeDescending(s));
  }

  /**
   * `OrderBy` and `OrderByDescending` are stable: punches at the same
   * instant as `c` keep their stored order, so which of them comes first
   * is decided by the input.
   */
  lemma OrderByTimeStable(s: seq<AttendanceLog>, c: AttendanceLog)
    ensures Filter(OrderByTime(s), SameKey(LogTime, c)) == Filter(s, SameKey(LogTime, c))
    ensures Filter(OrderByTimeDescending(s), SameKey(LogTime, c)) == Filter(s, SameKey(LogTime, c))
  {
    SortByIntStable(s, LogTime, c);
  }

  /** Ordering the punches that pass `p` keeps exactly those punches of `s`, in either direction. */
  lemma OrderedFilter(s: seq<AttendanceLog>, p: AttendanceLog -> bool)
    ensures var r := OrderByTime(Filter(s, p));
            && (forall i :: 0 <= i < |r| ==> r[i] in s && p(r[i]))
            && (forall i :: 0 <= i < |s| && p(s[i]) ==> s[i] in r)
    ensures var r := OrderByTimeDescending(Filter(s, p));
            && (forall i :: 0 <= i < |r| ==> r[i] in s && p(r[i]))
            && (forall i :: 0 <= i < |s| && p(s[i]) ==> s[i] in r)
  {
    var f := Filter(s, p);
    var asc := OrderByTime(f);
    var desc := OrderByTimeDescending(f);
    forall i | 0 <= i < |asc|
      ensures asc[i] in s && p(asc[i])
    {
      OrderByTimeMembers(f, asc[i]);
      FilterMember(s, p, asc[i]);
    }
    forall i | 0 <= i < |desc|
      ensures desc[i] in s && p(desc[i])
    {
      OrderByTimeMembers(f, desc[i]);
      FilterMember(s, p, desc[i]);
    }
    forall i | 0 <= i < |s| && p(s[i])
      ensures s[i] in asc && s[i] in desc
    {
      FilterMember(s, p, s[i]);
      OrderByTimeMembers(f, s[i]);
    }
  }

  /** `AttendanceTime >= from && AttendanceTime < to`. */
  predicate InWindow(l: AttendanceLog, from: int, to: int)
  {
    from <= l.attendanceTime < to
  }

  /** `g.Min(a => a.AttendanceTime)`. */
  function EarliestTime(s: seq<AttendanceLog>): (t: Instant)
    requires |s| > 0
    ensures exists i :: 0 <= i < |s| && s[i].attendanceTime == t
    ensures forall i :: 0 <= i < |s| ==> t <= s[i].attendanceTime
    decreases |s|
  {
    if |s| == 1 then s[0].attendanceTime
    else
      var rest := EarliestTime(s[1..]);
      assert forall i :: 1 <= i < |s| ==> s[i] == s[1..][i - 1];
      if s[0].attendanceTime <= rest then s[0].attendanceTime else rest
  }

  /** `g.Max(a => a.AttendanceTime)`. */
  function LatestTime(s: seq<AttendanceLog>): (t: Instant)
    requires |s| > 0
    ensures exists i :: 0 <= i < |s| && s[i].attendanceTime == t
    ensures forall i :: 0 <= i < |s| ==> s[i].attendanceTime <= t
    decreases |s|
  {
    if |s| == 1 then s[0].attendanceTime
    else
      var rest := LatestTime(s[1..]);
      assert forall i :: 1 <= i < |s| ==> s[i] == s[1..][i - 1];
      if s[0].attendanceTime >= rest then s[0].attendanceTime else rest
  }

  /** `Select(l => l.BiometricUserId).Distinct()`: each punching id once. */
  function PunchIds(p: seq<AttendanceLog>): (ids: seq<string>)
    ensures NoDup(ids)
    ensures forall id :: id in ids <==> exists i :: 0 <= i < |p| && p[i].biometricUserId == id
  {
    var all := seq(|p|, i requires 0 <= i < |p| => p[i].biometricUserId);
    assert forall i :: 0 <= i < |p| ==> all[i] == p[i].biometricUserId;
    Distinct(all)
  }

  function HeldBy(id: string): AttendanceLog -> bool
  {
    (l: AttendanceLog) => l.biometricUserId == id
  }

  /** `Where(l => l.BiometricUserId == id)`, also the group of `id` in `GroupBy(l => l.BiometricUserId)`. */
  function PunchesOf(p: seq<AttendanceLog>, id: string): seq<AttendanceLog>
  {
    Filter(p, HeldBy(id))
  }
}
