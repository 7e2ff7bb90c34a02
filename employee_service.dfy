/**
 * `EmployeeService`: biometric-id allocation (the next free number, the ids
 * seen on terminals but not registered, the most recent numbers) and the
 * guarded create and update of employees.
 */
module EmployeeService {
  import opened Wrappers
  import opened Seqs
  import opened Text
  import opened Calendar
  import opened Entities
  import opened Tables
  import opened Database
  import opened EmployeeRepository

  // ----- the ids in play -----

  /** `Select(e => e.BiometricUserId)`. */
  function BiometricIdsOf(employees: seq<Employee>): (ids: seq<string>)
    ensures |ids| == |employees| && forall i :: 0 <= i < |ids| ==> ids[i] == employees[i].biometricUserId
  {
    seq(|employees|, i requires 0 <= i < |employees| => employees[i].biometricUserId)
  }

  /** `AttendanceLogs.Select(a => a.BiometricUserId).Distinct()`, in table order. */
  function LogIds(logs: seq<AttendanceLog>): (ids: seq<string>)
    ensures NoDup(ids)
    ensures forall x :: x in ids <==> exists i :: 0 <= i < |logs| && logs[i].biometricUserId == x
  {
    var all := seq(|logs|, i requires 0 <= i < |logs| => logs[i].biometricUserId);
    var ids := Distinct(all);
    assert forall x :: x in ids <==> x in all;
    assert forall x :: x in all <==> exists i :: 0 <= i < |logs| && logs[i].biometricUserId == x by {
      forall x
        ensures x in all <==> exists i :: 0 <= i < |logs| && logs[i].biometricUserId == x
      {
        if x in all {
          var i :| 0 <= i < |all| && all[i] == x;
          assert logs[i].biometricUserId == x;
        }
        if exists i :: 0 <= i < |logs| && logs[i].biometricUserId == x {
          var i :| 0 <= i < |logs| && logs[i].biometricUserId == x;
          assert all[i] == x;
        }
      }
    }
    ids
  }

  function Parses(id: string): bool
  {
    TryParseInt(id).Some?
  }

  /** `.Where(id => int.TryParse(id, out _)).Select(id => int.Parse(id))`. */
  function NumericIds(ids: seq<string>): (r: seq<int>)
    ensures var parsing := Filter(ids, Parses);
            |r| == |parsing| && forall i :: 0 <= i < |r| ==> TryParseInt(parsing[i]) == Some(r[i])
  {
    var parsing := Filter(ids, Parses);
    seq(|parsing|, i requires 0 <= i < |parsing| => TryParseInt(parsing[i]).value)
  }

  /** Every id that parses contributes its value. */
  lemma NumericIdsComplete(ids: seq<string>, j: int)
    requires 0 <= j < |ids| && TryParseInt(ids[j]).Some?
    ensures TryParseInt(ids[j]).value in NumericIds(ids)
  {
    var parsing := Filter(ids, Parses);
    assert Parses(ids[j]);
    var k :| 0 <= k < |parsing| && parsing[k] == ids[j];
    assert NumericIds(ids)[k] == TryParseInt(ids[j]).value;
  }

  /** Every value comes from an id of the input and fits in an `int`. */
  lemma NumericIdsSound(ids: seq<string>, v: int)
    requires v in NumericIds(ids)
    ensures MinInt <= v <= MaxInt
    ensures exists j :: 0 <= j < |ids| && TryParseInt(ids[j]) == Some(v)
  {
    var r := NumericIds(ids);
    var parsing := Filter(ids, Parses);
    var k :| 0 <= k < |r| && r[k] == v;
    assert parsing[k] in ids;
  }

  /** `DefaultIfEmpty(0).Max()`: the largest element, or 0 for no elements (a negative maximum stays negative). */
  function MaxOrZero(s: seq<int>): (m: int)
    ensures s == [] ==> m == 0
    ensures s != [] ==> m in s && forall i :: 0 <= i < |s| ==> s[i] <= m
    decreases |s|
  {
    if s == [] then 0
    else
      var front := s[..|s| - 1];
      var x := s[|s| - 1];
      assert s == front + [x];
      if front == [] then x
      else
        var m := MaxOrZero(front);
        if x > m then x else m
  }

  /** `maxId + 1` in unchecked 32-bit arithmetic: `int.MaxValue + 1` wraps to `int.MinValue`. */
  function Increment32(i: int): (r: int)
    requires MinInt <= i <= MaxInt
    ensures MinInt <= r <= MaxInt
    ensures i < MaxInt ==> r == i + 1
    ensures i == MaxInt ==> r == MinInt
  {
    if i == MaxInt then MinInt else i + 1
  }

  // ----- GetNextBiometricUserIdAsync -----

  /** `id` does not read as a number of at least `n`. */
  predicate NumberBelow(id: string, n: int)
  {
    TryParseInt(id).Some? ==> TryParseInt(id).value < n
  }

  /** The largest numeric id among the `known` employees and the punches (0 without any). */
  function MaxKnownId(known: seq<Employee>, logs: seq<AttendanceLog>): (m: int)
    ensures MinInt <= m <= MaxInt
  {
    var a := MaxOrZero(NumericIds(BiometricIdsOf(known)));
    var b := MaxOrZero(NumericIds(LogIds(logs)));
    assert MinInt <= a <= MaxInt by {
      if NumericIds(BiometricIdsOf(known)) != [] {
        NumericIdsSound(BiometricIdsOf(known), a);
      }
    }
    assert MinInt <= b <= MaxInt by {
      if NumericIds(LogIds(logs)) != [] {
        NumericIdsSound(LogIds(logs), b);
      }
    }
    if a >= b then a else b
  }

  /** Every numeric id considered is at most the maximum. */
  lemma MaxKnownIdBounds(known: seq<Employee>, logs: seq<AttendanceLog>)
    ensures forall j :: 0 <= j < |known| ==> NumberBelow(known[j].biometricUserId, MaxKnownId(known, logs) + 1)
    ensures forall i :: 0 <= i < |logs| ==> NumberBelow(logs[i].biometricUserId, MaxKnownId(known, logs) + 1)
  {
    var m := MaxKnownId(known, logs);
    var employeeIds := NumericIds(BiometricIdsOf(known));
    var logIds := NumericIds(LogIds(logs));
    forall j | 0 <= j < |known| && TryParseInt(known[j].biometricUserId).Some?
      ensures TryParseInt(known[j].biometricUserId).value <= m
    {
      NumericIdsComplete(BiometricIdsOf(known), j);
    }
    forall i | 0 <= i < |logs| && TryParseInt(logs[i].biometricUserId).Some?
      ensures TryParseInt(logs[i].biometricUserId).value <= m
    {
      var ids := LogIds(logs);
      assert logs[i].biometricUserId in ids;
      var k :| 0 <= k < |ids| && ids[k] == logs[i].biometricUserId;
      NumericIdsComplete(ids, k);
    }
  }

  /** A non-zero maximum is the value of some considered id. */
  lemma MaxKnownIdAttained(known: seq<Employee>, logs: seq<AttendanceLog>)
    requires MaxKnownId(known, logs) != 0
    ensures || (exists j :: 0 <= j < |known| && TryParseInt(known[j].biometricUserId) == Some(MaxKnownId(known, logs)))
            || (exists i :: 0 <= i < |logs| && TryParseInt(logs[i].biometricUserId) == Some(MaxKnownId(known, logs)))
  {
    var m := MaxKnownId(known, logs);
    var employeeIds := NumericIds(BiometricIdsOf(known));
    var logIds := NumericIds(LogIds(logs));
    if employeeIds != [] && MaxOrZero(employeeIds) == m {
      NumericIdsSound(BiometricIdsOf(known), m);
      var j :| 0 <= j < |BiometricIdsOf(known)| && TryParseInt(BiometricIdsOf(known)[j]) == Some(m);
      assert TryParseInt(known[j].biometricUserId) == Some(m);
    } else {
      assert logIds != [] && MaxOrZero(logIds) == m;
      NumericIdsSound(LogIds(logs), m);
      var k :| 0 <= k < |LogIds(logs)| && TryParseInt(LogIds(logs)[k]) == Some(m);
      assert LogIds(logs)[k] in LogIds(logs);
      var i :| 0 <= i < |logs| && logs[i].biometricUserId == LogIds(logs)[k];
    }
  }

  /** `maxId + 1` over the `known` employees and the punches. */
  function NextNumber(known: seq<Employee>, logs: seq<AttendanceLog>): (n: int)
    ensures MinInt <= n <= MaxInt
  {
    Increment32(MaxKnownId(known, logs))
  }

  /** `(maxId + 1).ToString()`: the number written so that it reads back. */
  function NextIdAmong(known: seq<Employee>, logs: seq<AttendanceLog>): (r: string)
    ensures TryParseInt(r) == Some(NextNumber(known, logs))
  {
    ParseFormatRoundTrip(NextNumber(known, logs));
    IntToString(NextNumber(known, logs))
  }

  /** No `known` employee and no punch carries the id `int.MaxValue`. */
  predicate BelowMaxInt(known: seq<Employee>, logs: seq<AttendanceLog>)
  {
    && (forall j :: 0 <= j < |known| ==> TryParseInt(known[j].biometricUserId) != Some(MaxInt))
    && (forall i :: 0 <= i < |logs| ==> TryParseInt(logs[i].biometricUserId) != Some(MaxInt))
  }

  /**
   * Unless some id is `int.MaxValue`, the proposal is a number above every
   * numeric id it considered (negative ids included: with only negative ids
   * on both sides the proposal is negative too).
   */
  lemma NextNumberExceedsKnown(known: seq<Employee>, logs: seq<AttendanceLog>)
    requires BelowMaxInt(known, logs)
    ensures forall j :: 0 <= j < |known| ==> NumberBelow(known[j].biometricUserId, NextNumber(known, logs))
    ensures forall i :: 0 <= i < |logs| ==> NumberBelow(logs[i].biometricUserId, NextNumber(known, logs))
  {
    if MaxKnownId(known, logs) == MaxInt {
      MaxKnownIdAttained(known, logs);
      assert false;
    }
    MaxKnownIdBounds(known, logs);
  }

  /** An id below `n` is not the text of `n`. */
  lemma BelowIsDifferent(id: string, r: string, n: int)
    requires NumberBelow(id, n) && TryParseInt(r) == Some(n)
    ensures id != r
  {
  }

  /** Unless some id is `int.MaxValue`, no considered employee or punch carries the proposal. */
  lemma NextIdExceedsKnown(known: seq<Employee>, logs: seq<AttendanceLog>)
    requires BelowMaxInt(known, logs)
    ensures forall j :: 0 <= j < |known| ==> known[j].biometricUserId != NextIdAmong(known, logs)
    ensures forall i :: 0 <= i < |logs| ==> logs[i].biometricUserId != NextIdAmong(known, logs)
  {
    NextNumberExceedsKnown(known, logs);
    var r := NextIdAmong(known, logs);
    var n := NextNumber(known, logs);
    forall j | 0 <= j < |known|
      ensures known[j].biometricUserId != r
    {
      BelowIsDifferent(known[j].biometricUserId, r, n);
    }
    forall i | 0 <= i < |logs|
      ensures logs[i].biometricUserId != r
    {
      BelowIsDifferent(logs[i].biometricUserId, r, n);
    }
  }

  /**
   * `GetNextBiometricUserIdAsync` as written: it asks `GetAllAsync()`, which
   * lists the ACTIVE employees only, while creation refuses an id held by
   * any employee.
   */
  function GetNextBiometricUserIdAsWritten(employees: seq<Employee>, logs: seq<AttendanceLog>): (r: string)
    ensures TryParseInt(r).Some?
  {
    NextIdAmong(GetAll(employees, false), logs)
  }

  /**
   * An active employee "1", a soft-deleted employee "2" and no punches:
   * the proposal is "2", which creation then refuses.
   */
  lemma NextIdProposesDeletedId()
    ensures var e1 := Employee(1, "1", "A", None, None, None, None, true, 0, None);
            var e2 := Employee(2, "2", "B", None, None, None, None, false, 0, None);
            && GetNextBiometricUserIdAsWritten([e1, e2], []) == "2"
            && BiometricIdExists([e1, e2], "2", None)
  {
    var e1 := Employee(1, "1", "A", None, None, None, None, true, 0, None);
    var e2 := Employee(2, "2", "B", None, None, None, None, false, 0, None);
    OnlyActiveListed(e1, e2);
    OneKnownId(e1);
    assert NextNumber([e1], []) == 2;
    assert IntToString(2) == "2";
    assert [e1, e2][1].biometricUserId == "2";
  }

  /** Of an active and an inactive employee, only the active one is listed. */
  lemma OnlyActiveListed(e1: Employee, e2: Employee)
    requires e1.isActive && !e2.isActive
    ensures GetAll([e1, e2], false) == [e1]
  {
    var employees := [e1, e2];
    assert Filter(employees, Listed(false)) == [e1] by {
      assert employees[..1] == [e1];
      assert [e1][..0] == [];
    }
    var active := GetAll(employees, false);
    assert |active| == |multiset(active)| == 1;
    assert active[0] in multiset(active);
  }

  /** An employee "1" and no punches: the largest known id is 1. */
  lemma OneKnownId(e1: Employee)
    requires e1.biometricUserId == "1"
    ensures MaxKnownId([e1], []) == 1
  {
    ParseDigits("1");
    assert DigitsValue("1") == 1;
    assert BiometricIdsOf([e1]) == ["1"];
    assert NumericIds(["1"]) == [1] by {
      assert ["1"][..0] == [];
    }
    assert MaxOrZero([1]) == 1 by {
      assert [1][..0] == [];
    }
    assert LogIds([]) == [];
  }

  /**
   * The corrected allocation considers every employee, active or not, so its
   * proposal is free for `CreateEmployeeAsync` (unless some id is
   * `int.MaxValue`, where the increment wraps).
   */
  function GetNextBiometricUserId(employees: seq<Employee>, logs: seq<AttendanceLog>): (r: string)
    ensures TryParseInt(r).Some?
  {
    NextIdAmong(employees, logs)
  }

  /** The corrected proposal passes creation's check and is on no punch. */
  lemma NextIdIsFree(employees: seq<Employee>, logs: seq<AttendanceLog>)
    requires BelowMaxInt(employees, logs)
    ensures !BiometricIdExists(employees, GetNextBiometricUserId(employees, logs), None)
    ensures forall i :: 0 <= i < |logs| ==> logs[i].biometricUserId != GetNextBiometricUserId(employees, logs)
  {
    NextIdExceedsKnown(employees, logs);
  }

  /** At the top of the range the proposal wraps to "-2147483648". */
  lemma NextIdWrapsAtMaxInt(employees: seq<Employee>, logs: seq<AttendanceLog>)
    requires MaxKnownId(employees, logs) == MaxInt
    ensures TryParseInt(GetNextBiometricUserId(employees, logs)) == Some(MinInt)
  {
  }

  // ----- GetUnregisteredBiometricIdsAsync -----

  /** `int.TryParse(id, out int num) ? num : int.MaxValue`. */
  function UnregisteredOrder(id: string): int
  {
    match TryParseInt(id)
    case Some(v) => v
    case None => MaxInt
  }

  function NotHeldBy(known: seq<Employee>): string -> bool
  {
    (x: string) => x !in BiometricIdsOf(known)
  }

  /** Some punch carries the id `x`. */
  predicate Punched(logs: seq<AttendanceLog>, x: string)
  {
    exists i :: 0 <= i < |logs| && logs[i].biometricUserId == x
  }

  /** No `known` employee holds the id `x`. */
  predicate Unheld(known: seq<Employee>, x: string)
  {
    forall j :: 0 <= j < |known| ==> known[j].biometricUserId != x
  }

  /** `logIds.Except(knownIds).OrderBy(UnregisteredOrder)`: no id twice, in that order. */
  function UnregisteredAmong(known: seq<Employee>, logs: seq<AttendanceLog>): (r: seq<string>)
    ensures NoDup(r)
    ensures forall i, j :: 0 <= i < j < |r| ==> UnregisteredOrder(r[i]) <= UnregisteredOrder(r[j])
  {
    var candidates := Filter(LogIds(logs), NotHeldBy(known));
    ByIntIsPreorder(UnregisteredOrder);
    SortBySorted(candidates, ByInt(UnregisteredOrder));
    FilterNoDup(LogIds(logs), NotHeldBy(known));
    var r := SortBy(candidates, ByInt(UnregisteredOrder));
    NoDupPermutation(candidates, r);
    assert forall i, j :: 0 <= i < j < |r| ==> ByInt(UnregisteredOrder)(r[i], r[j]) == (UnregisteredOrder(r[i]) <= UnregisteredOrder(r[j]));
    r
  }

  /** An id is listed exactly when some punch carries it and no `known` employee holds it. */
  lemma UnregisteredMembers(known: seq<Employee>, logs: seq<AttendanceLog>, x: string)
    ensures x in UnregisteredAmong(known, logs) <==> Punched(logs, x) && Unheld(known, x)
  {
    SortFilterMember(LogIds(logs), NotHeldBy(known), ByInt(UnregisteredOrder), x);
    NotHeldIsUnheld(known, x);
  }

  lemma NotHeldIsUnheld(known: seq<Employee>, x: string)
    ensures NotHeldBy(known)(x) <==> Unheld(known, x)
  {
    var held := BiometricIdsOf(known);
    if !Unheld(known, x) {
      var j :| 0 <= j < |known| && known[j].biometricUserId == x;
      assert held[j] == x;
    }
  }

  /** `GetUnregisteredBiometricIdsAsync` as written: only ACTIVE employees count as registered. */
  function GetUnregisteredBiometricIdsAsWritten(employees: seq<Employee>, logs: seq<AttendanceLog>): (r: seq<string>)
    ensures NoDup(r)
    ensures forall i, j :: 0 <= i < j < |r| ==> UnregisteredOrder(r[i]) <= UnregisteredOrder(r[j])
  {
    UnregisteredAmong(GetAll(employees, false), logs)
  }

  /**
   * A soft-deleted employee "2" who still has a punch: the list offers "2"
   * for registration, which creation then refuses.
   */
  lemma UnregisteredListsDeletedId()
    ensures var e := Employee(2, "2", "B", None, None, None, None, false, 0, None);
            var l := AttendanceLog(1, "2", None, 1, 1, 0, None, true, None, false, None);
            && "2" in GetUnregisteredBiometricIdsAsWritten([e], [l])
            && BiometricIdExists([e], "2", None)
  {
    var e := Employee(2, "2", "B", None, None, None, None, false, 0, None);
    var l := AttendanceLog(1, "2", None, 1, 1, 0, None, true, None, false, None);
    assert Filter([e], Listed(false)) == [] by {
      assert [e][..0] == [];
    }
    assert |GetAll([e], false)| == 0;
    assert [l][0].biometricUserId == "2";
    UnregisteredMembers(GetAll([e], false), [l], "2");
    assert [e][0].biometricUserId == "2";
  }

  /** The corrected list treats every employee, active or not, as registered. */
  function GetUnregisteredBiometricIds(employees: seq<Employee>, logs: seq<AttendanceLog>): (r: seq<string>)
    ensures NoDup(r)
    ensures forall i, j :: 0 <= i < j < |r| ==> UnregisteredOrder(r[i]) <= UnregisteredOrder(r[j])
  {
    UnregisteredAmong(employees, logs)
  }

  /** The corrected list holds exactly the punched ids that creation accepts. */
  lemma UnregisteredAreFree(employees: seq<Employee>, logs: seq<AttendanceLog>, x: string)
    ensures x in GetUnregisteredBiometricIds(employees, logs) <==>
            Punched(logs, x) && !BiometricIdExists(employees, x, None)
  {
    UnregisteredMembers(employees, logs, x);
  }

  // ----- GetLastBiometricUserIdsAsync -----

  function Identity(x: int): int { x }

  /** `employeeIds.Union(logIds)`: the distinct numeric ids of the `known` employees and of the punches. */
  function KnownNumericIds(known: seq<Employee>, logs: seq<AttendanceLog>): (u: seq<int>)
    ensures NoDup(u)
    ensures forall i :: 0 <= i < |u| ==> MinInt <= u[i] <= MaxInt
  {
    var a := NumericIds(BiometricIdsOf(known));
    var b := NumericIds(LogIds(logs));
    var u := Distinct(a + b);
    forall i | 0 <= i < |u|
      ensures MinInt <= u[i] <= MaxInt
    {
      if u[i] in a {
        NumericIdsSound(BiometricIdsOf(known), u[i]);
      } else {
        NumericIdsSound(LogIds(logs), u[i]);
      }
    }
    u
  }

  /** The union holds exactly the values of the parsing ids on either side. */
  lemma KnownNumericIdsMembers(known: seq<Employee>, logs: seq<AttendanceLog>, v: int)
    ensures v in KnownNumericIds(known, logs) <==>
            v in NumericIds(BiometricIdsOf(known)) || v in NumericIds(LogIds(logs))
  {
    var a := NumericIds(BiometricIdsOf(known));
    var b := NumericIds(LogIds(logs));
    var u := KnownNumericIds(known, logs);
    if v in u {
      var i :| 0 <= i < |u| && u[i] == v;
    }
    if v in a + b {
      var i :| 0 <= i < |a + b| && (a + b)[i] == v;
    }
  }

  /** `.OrderByDescending(id => id)` of distinct numbers: strictly decreasing. */
  function Descending(u: seq<int>): (d: seq<int>)
    requires NoDup(u)
    ensures NoDup(d) && multiset(d) == multiset(u)
    ensures forall i, j :: 0 <= i < j < |d| ==> d[i] > d[j]
  {
    ByIntDescendingIsPreorder(Identity);
    SortBySorted(u, ByIntDescending(Identity));
    var d := SortBy(u, ByIntDescending(Identity));
    NoDupPermutation(u, d);
    assert forall i, j :: 0 <= i < j < |d| ==> ByIntDescending(Identity)(d[i], d[j]) == (Identity(d[i]) >= Identity(d[j]));
    d
  }

  function DescendingIds(known: seq<Employee>, logs: seq<AttendanceLog>): (d: seq<int>)
    ensures NoDup(d) && multiset(d) == multiset(KnownNumericIds(known, logs))
    ensures forall i, j :: 0 <= i < j < |d| ==> d[i] > d[j]
  {
    Descending(KnownNumericIds(known, logs))
  }

  /** `.Take(count)` of those: the largest `count` known numbers, largest first. */
  function LastIdValues(known: seq<Employee>, logs: seq<AttendanceLog>, count: int): (v: seq<int>)
    ensures var n := |KnownNumericIds(known, logs)|;
            |v| == (if count <= 0 then 0 else if count < n then count else n)
    ensures forall i, j :: 0 <= i < j < |v| ==> v[i] > v[j]
  {
    var d := DescendingIds(known, logs);
    assert |d| == |multiset(d)| == |multiset(KnownNumericIds(known, logs))|;
    TakeDescending(d, count);
    Take(d, count)
  }

  /** Taking from a strictly descending sequence keeps a strictly descending prefix. */
  lemma TakeDescending(d: seq<int>, count: int)
    requires forall i, j :: 0 <= i < j < |d| ==> d[i] > d[j]
    ensures var v := Take(d, count);
            && |v| == (if count <= 0 then 0 else if count < |d| then count else |d|)
            && v == d[..|v|]
            && (forall i, j :: 0 <= i < j < |v| ==> v[i] > v[j])
  {
  }

  /** A value of a strictly descending sequence is taken, or is smaller than all that are. */
  lemma TakeLargest(d: seq<int>, count: int, x: int)
    requires forall i, j :: 0 <= i < j < |d| ==> d[i] > d[j]
    requires x in d
    ensures x in Take(d, count) || forall i :: 0 <= i < |Take(d, count)| ==> x < Take(d, count)[i]
  {
    TakeDescending(d, count);
    var v := Take(d, count);
    var k :| 0 <= k < |d| && d[k] == x;
    if k < |v| {
      assert v[k] == x;
    } else {
      forall i | 0 <= i < |v|
        ensures x < v[i]
      {
        assert d[i] == v[i];
      }
    }
  }

  /**
   * The values taken are known numbers, and every known number left out is
   * smaller than all of them.
   */
  lemma LastIdsAreTheLargest(known: seq<Employee>, logs: seq<AttendanceLog>, count: int, x: int)
    requires x in KnownNumericIds(known, logs)
    ensures x in LastIdValues(known, logs, count) ||
            forall i :: 0 <= i < |LastIdValues(known, logs, count)| ==> x < LastIdValues(known, logs, count)[i]
  {
    var d := DescendingIds(known, logs);
    assert x in multiset(d);
    TakeLargest(d, count, x);
    assert LastIdValues(known, logs, count) == Take(d, count);
  }

  /** Every value taken is a known number. */
  lemma LastIdsAreKnown(known: seq<Employee>, logs: seq<AttendanceLog>, count: int, i: int)
    requires 0 <= i < |LastIdValues(known, logs, count)|
    ensures LastIdValues(known, logs, count)[i] in KnownNumericIds(known, logs)
  {
    var d := DescendingIds(known, logs);
    var v := LastIdValues(known, logs, count);
    assert v == d[..|v|];
    assert v[i] in multiset(d);
  }

  /**
   * `GetLastBiometricUserIdsAsync(count)`: those numbers, among the ACTIVE
   * employees and the punches, written back as text.
   */
  function GetLastBiometricUserIds(employees: seq<Employee>, logs: seq<AttendanceLog>, count: int): (r: seq<string>)
    ensures var v := LastIdValues(GetAll(employees, false), logs, count);
            |r| == |v| && forall i :: 0 <= i < |r| ==> TryParseInt(r[i]) == Some(v[i])
    ensures NoDup(r)
  {
    var v := LastIdValues(GetAll(employees, false), logs, count);
    var r := seq(|v|, i requires 0 <= i < |v| => IntToString(v[i]));
    forall i | 0 <= i < |r|
      ensures TryParseInt(r[i]) == Some(v[i])
    {
      LastIdsAreKnown(GetAll(employees, false), logs, count, i);
      ParseFormatRoundTrip(v[i]);
    }
    r
  }

  // ----- create and update -----

  function DuplicateIdMessage(biometricUserId: string): string
  {
    "رقم الموظف '" + biometricUserId + "' موجود مسبقاً"
  }

  const EmployeeMissing: string := "الموظف غير موجود"

  /** The department and default shift the row names, if any, exist. */
  predicate ReferencesResolve(departments: seq<Department>, shifts: seq<WorkShift>, e: Employee)
  {
    && (e.departmentId.Some? ==> HasKey(departments, DepartmentKey, e.departmentId.value))
    && (e.defaultShiftId.Some? ==> HasKey(shifts, ShiftKey, e.defaultShiftId.value))
  }

  /**
   * `CreateEmployeeAsync`: refused when any employee, active or not, holds
   * the biometric id; otherwise stored active and stamped. Only a dangling
   * department or shift can still make the database refuse it.
   */
  method CreateEmployee(db: Context, e: Employee, now: Instant) returns (r: Result<Employee, Failure>)
    requires db.Valid()
    modifies db`employees
    ensures db.Valid()
    ensures var row := e.(employeeId := NextKey(old(db.employees), EmployeeKey), isActive := true, createdDate := now);
            && (r.Ok? <==> !BiometricIdExists(old(db.employees), e.biometricUserId, None) && ReferencesResolve(db.departments, db.shifts, row))
            && (r.Ok? ==> r.value == row && db.employees == old(db.employees) + [row])
    ensures BiometricIdExists(old(db.employees), e.biometricUserId, None) ==> r == Err(Rejected(DuplicateIdMessage(e.biometricUserId)))
    ensures r.Err? ==> db.employees == old(db.employees)
  {
    if BiometricIdExists(db.employees, e.biometricUserId, None) {
      return Err(Rejected(DuplicateIdMessage(e.biometricUserId)));
    }
    var added := db.AddEmployee(e.(isActive := true, createdDate := now));
    match added
    case Ok(row) => r := Ok(row);
    case Err(error) => r := Err(DbFailure(error));
  }

  /**
   * `UpdateEmployeeAsync`: refused for a missing employee, then for a
   * biometric id held by another employee; otherwise the row is replaced,
   * stamped with the modification time.
   */
  method UpdateEmployee(db: Context, e: Employee, now: Instant) returns (r: Result<Employee, Failure>)
    requires db.Valid()
    modifies db`employees
    ensures db.Valid()
    ensures !HasKey(old(db.employees), EmployeeKey, e.employeeId) ==> r == Err(Rejected(EmployeeMissing))
    ensures HasKey(old(db.employees), EmployeeKey, e.employeeId) && BiometricIdExists(old(db.employees), e.biometricUserId, Some(e.employeeId)) ==>
              r == Err(Rejected(DuplicateIdMessage(e.biometricUserId)))
    ensures var row := e.(modifiedDate := Some(now));
            && (r.Ok? <==> HasKey(old(db.employees), EmployeeKey, e.employeeId) &&
                           !BiometricIdExists(old(db.employees), e.biometricUserId, Some(e.employeeId)) &&
                           ReferencesResolve(db.departments, db.shifts, row))
            && (r.Ok? ==> r.value == row && db.employees == old(db.employees)[IndexOf(old(db.employees), EmployeeKey, e.employeeId) := row])
    ensures r.Err? ==> db.employees == old(db.employees)
  {
    if !HasKey(db.employees, EmployeeKey, e.employeeId) {
      return Err(Rejected(EmployeeMissing));
    }
    if BiometricIdExists(db.employees, e.biometricUserId, Some(e.employeeId)) {
      return Err(Rejected(DuplicateIdMessage(e.biometricUserId)));
    }
    var updated := db.UpdateEmployee(e.(modifiedDate := Some(now)));
    match updated
    case Ok(row) => r := Ok(row);
    case Err(error) => r := Err(DbFailure(error));
  }
}
