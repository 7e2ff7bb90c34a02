/**
 * `BranchRepository`: the branch listings (by code, with their active
 * devices), the lookup by code, the code check the service runs before
 * writing, and the two deletes: the hard delete, which the database refuses
 * while devices, statuses or punches refer to the branch, and the soft delete.
 */
module BranchRepository {
  import opened Wrappers
  import opened Seqs
  import opened Text
  import opened Calendar
  import opened Entities
  import opened Tables
  import opened Database

  function BranchCode(b: Branch): string { b.branchCode }

  predicate CodeOrdered(s: seq<Branch>)
  {
    forall i, j :: 0 <= i < j < |s| ==> LexLe(s[i].branchCode, s[j].branchCode)
  }

  /** `OrderBy(b => b.BranchCode)`, ordinal and stable. */
  function OrderByCode(s: seq<Branch>): (r: seq<Branch>)
    ensures |r| == |s| && multiset(r) == multiset(s)
    ensures CodeOrdered(r)
  {
    ByTextIsPreorder(BranchCode);
    SortBySorted(s, ByText(BranchCode));
    var r := SortBy(s, ByText(BranchCode));
    assert forall i, j :: 0 <= i < j < |r| ==> ByText(BranchCode)(r[i], r[j]) == LexLe(BranchCode(r[i]), BranchCode(r[j]));
    r
  }

  function BranchListed(includeInactive: bool): Branch -> bool
  {
    (b: Branch) => includeInactive || b.isActive
  }

  /** `GetAllAsync(includeInactive)`: the active branches (or all of them), by code. */
  function GetAll(branches: seq<Branch>, includeInactive: bool): (r: seq<Branch>)
    ensures forall i :: 0 <= i < |r| ==> r[i] in branches && (includeInactive || r[i].isActive)
    ensures forall i :: 0 <= i < |branches| && (includeInactive || branches[i].isActive) ==> branches[i] in r
    ensures multiset(r) == multiset(Filter(branches, BranchListed(includeInactive)))
    ensures CodeOrdered(r)
  {
    SortFilterMembers(branches, BranchListed(includeInactive), ByText(BranchCode));
    OrderByCode(Filter(branches, BranchListed(includeInactive)))
  }

  /** A branch with the devices loaded alongside it. */
  datatype BranchWithDevices = BranchWithDevices(branch: Branch, devices: seq<Device>)

  function ActiveDeviceOf(branchId: int): Device -> bool
  {
    (d: Device) => d.isActive && d.branchId == branchId
  }

  /** `x` carries exactly the active devices of its branch. */
  predicate CarriesActiveDevices(x: BranchWithDevices, devices: seq<Device>)
  {
    && (forall i :: 0 <= i < |x.devices| ==>
          x.devices[i] in devices && x.devices[i].isActive && x.devices[i].branchId == x.branch.branchId)
    && (forall i :: 0 <= i < |devices| && devices[i].isActive && devices[i].branchId == x.branch.branchId ==>
          devices[i] in x.devices)
    && multiset(x.devices) == multiset(Filter(devices, ActiveDeviceOf(x.branch.branchId)))
  }

  /** `Include(b => b.Devices.Where(d => d.IsActive))`: the branch with its active devices, in table order. */
  function WithActiveDevices(b: Branch, devices: seq<Device>): (r: BranchWithDevices)
    ensures r.branch == b
    ensures CarriesActiveDevices(r, devices)
  {
    BranchWithDevices(b, Filter(devices, ActiveDeviceOf(b.branchId)))
  }

  function IsActiveBranch(b: Branch): bool { b.isActive }

  /** `GetAllWithDevicesAsync`: the active branches by code, each carrying only its active devices. */
  function GetAllWithDevices(branches: seq<Branch>, devices: seq<Device>): (r: seq<BranchWithDevices>)
    ensures forall i :: 0 <= i < |r| ==> r[i].branch in branches && r[i].branch.isActive && CarriesActiveDevices(r[i], devices)
    ensures forall i :: 0 <= i < |branches| && branches[i].isActive ==> exists k :: 0 <= k < |r| && r[k].branch == branches[i]
    ensures |r| == |GetAll(branches, false)| && forall i :: 0 <= i < |r| ==> r[i].branch == GetAll(branches, false)[i]
    ensures forall i, j :: 0 <= i < j < |r| ==> LexLe(r[i].branch.branchCode, r[j].branch.branchCode)
  {
    var listed := GetAll(branches, false);
    var r := EachWithDevices(listed, devices);
    forall i | 0 <= i < |branches| && branches[i].isActive
      ensures exists k :: 0 <= k < |r| && r[k].branch == branches[i]
    {
      var k :| 0 <= k < |listed| && listed[k] == branches[i];
      assert r[k].branch == branches[i];
    }
    r
  }

  /** `Select`: each branch with its active devices, in the order given. */
  function EachWithDevices(listed: seq<Branch>, devices: seq<Device>): (r: seq<BranchWithDevices>)
    ensures |r| == |listed|
    ensures forall i :: 0 <= i < |r| ==> r[i].branch == listed[i] && CarriesActiveDevices(r[i], devices)
  {
    seq(|listed|, i requires 0 <= i < |listed| => WithActiveDevices(listed[i], devices))
  }

  /**
   * `GetByCodeAsync(code)`: the first branch with the code, active or not,
   * with its active devices; `None` when no branch has it.
   */
  function GetByCode(branches: seq<Branch>, devices: seq<Device>, branchCode: string): (r: Option<BranchWithDevices>)
    ensures r.Some? <==> HasKey(branches, BranchCodeKey, branchCode)
    ensures r.Some? ==> r.value.branch in branches && r.value.branch.branchCode == branchCode &&
                        r.value == WithActiveDevices(r.value.branch, devices)
  {
    match Find(branches, BranchCodeKey, branchCode)
    case Some(b) => Some(WithActiveDevices(b, devices))
    case None => None
  }

  /** Under the unique index on the code, the lookup finds the very branch holding the code. */
  lemma GetByCodeFindsHolder(branches: seq<Branch>, devices: seq<Device>, i: int)
    requires UniqueKeys(branches, BranchCodeKey) && 0 <= i < |branches|
    ensures GetByCode(branches, devices, branches[i].branchCode) == Some(WithActiveDevices(branches[i], devices))
  {
    IndexOfUnique(branches, BranchCodeKey, i);
  }

  /** `CodeExistsAsync(code, exclude)`: a branch other than the excluded one has the code; inactive branches count. */
  function CodeExists(branches: seq<Branch>, branchCode: string, excludeBranchId: Option<int>): (r: bool)
    ensures r <==> exists j :: 0 <= j < |branches| && branches[j].branchCode == branchCode &&
                              (excludeBranchId.Some? ==> branches[j].branchId != excludeBranchId.value)
  {
    exists j :: 0 <= j < |branches| && branches[j].branchCode == branchCode &&
                (excludeBranchId.Some? ==> branches[j].branchId != excludeBranchId.value)
  }

  /** Writing `b` (as a new row or over its own) passes the index exactly when the check excluding its id says the code is free. */
  lemma CodeCheckMatchesIndex(branches: seq<Branch>, b: Branch)
    ensures BranchFits(branches, b) <==> !CodeExists(branches, b.branchCode, Some(b.branchId))
  {
  }

  /**
   * `DeleteAsync(id)`: the row is removed, unless devices, device statuses,
   * punches, sync logs, device errors or employee memberships still refer
   * to the branch, in which case the database refuses and nothing changes;
   * a missing id is a no-op.
   */
  method Delete(db: Context, branchId: int) returns (r: Result<(), DbError>)
    requires db.Valid()
    modifies db`branches
    ensures db.Valid()
    ensures !HasKey(old(db.branches), BranchKey, branchId) ==> r.Ok? && db.branches == old(db.branches)
    ensures HasKey(old(db.branches), BranchKey, branchId) ==>
              && (r.Ok? <==> !old(db.BranchInUse(branchId)))
              && (r.Ok? ==> db.branches == RemoveAt(old(db.branches), IndexOf(old(db.branches), BranchKey, branchId)))
    ensures r.Err? ==> db.branches == old(db.branches)
    ensures r.Ok? ==> !HasKey(db.branches, BranchKey, branchId)
  {
    var i := IndexOf(db.branches, BranchKey, branchId);
    if i == -1 {
      return Ok(());
    }
    var before := db.branches;
    r := db.RemoveBranch(i);
    if r.Ok? {
      HasKeyRemove(before, BranchKey, i, branchId);
    }
  }

  /** The table after `SoftDeleteAsync(id)` at time `now`: the row stays, inactive and stamped. */
  function SoftDeleted(branches: seq<Branch>, branchId: int, now: Instant): (r: seq<Branch>)
    ensures |r| == |branches|
    ensures forall j :: 0 <= j < |r| ==> r[j].branchId == branches[j].branchId && r[j].branchCode == branches[j].branchCode
    ensures forall j :: 0 <= j < |r| && branches[j].branchId != branchId ==> r[j] == branches[j]
    ensures HasKey(branches, BranchKey, branchId) ==>
              var i := IndexOf(branches, BranchKey, branchId);
              !r[i].isActive && r[i].modifiedDate == Some(now) &&
              r[i].(isActive := branches[i].isActive, modifiedDate := branches[i].modifiedDate) == branches[i]
    ensures !HasKey(branches, BranchKey, branchId) ==> r == branches
  {
    var i := IndexOf(branches, BranchKey, branchId);
    if i == -1 then branches
    else branches[i := branches[i].(isActive := false, modifiedDate := Some(now))]
  }

  /** A stored row rewritten with the same key and code still fits the table. */
  lemma StoredBranchFits(branches: seq<Branch>, i: int, row: Branch)
    requires BranchesValid(branches) && 0 <= i < |branches|
    requires row.branchId == branches[i].branchId && row.branchCode == branches[i].branchCode
    ensures BranchFits(branches, row)
  {
    forall j | 0 <= j < |branches| && branches[j].branchId != row.branchId
      ensures branches[j].branchCode != row.branchCode
    {
      if j < i {
        assert BranchCodeKey(branches[j]) != BranchCodeKey(branches[i]);
      } else {
        assert BranchCodeKey(branches[i]) != BranchCodeKey(branches[j]);
      }
    }
  }

  /** `SoftDeleteAsync(id)`: never refused, whatever refers to the branch; a missing id changes nothing. */
  method SoftDelete(db: Context, branchId: int, now: Instant)
    requires db.Valid()
    modifies db`branches
    ensures db.Valid()
    ensures db.branches == SoftDeleted(old(db.branches), branchId, now)
  {
    var i := IndexOf(db.branches, BranchKey, branchId);
    if i >= 0 {
      var row := db.branches[i].(isActive := false, modifiedDate := Some(now));
      StoredBranchFits(db.branches, i, row);
      var r := db.UpdateBranch(row);
      assert r.Ok?;
    }
  }

  /** A soft-deleted branch keeps its row and its code, but leaves the active listing. */
  lemma SoftDeleteKeepsRow(branches: seq<Branch>, branchId: int, now: Instant)
    requires HasKey(branches, BranchKey, branchId)
    ensures HasKey(SoftDeleted(branches, branchId, now), BranchKey, branchId)
    ensures var r := SoftDeleted(branches, branchId, now);
            r[IndexOf(branches, BranchKey, branchId)] !in GetAll(r, false)
  {
    var r := SoftDeleted(branches, branchId, now);
    var i := IndexOf(branches, BranchKey, branchId);
    assert BranchKey(r[i]) == branchId;
  }
}
