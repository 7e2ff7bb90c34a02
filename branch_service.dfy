/**
 * `BranchService`: create and update guarded by the branch-code check (the
 * same question the unique index on the code asks, so the database never
 * refuses what passed it), and the delete, which is a soft delete.
 */
module BranchService {
  import opened Wrappers
  import opened Calendar
  import opened Entities
  import opened Tables
  import opened Database
  import opened BranchRepository

  const BranchMissing: string := "الفرع غير موجود"

  function DuplicateCodeMessage(branchCode: string): string
  {
    "كود الفرع '" + branchCode + "' موجود مسبقاً"
  }

  /**
   * `CreateBranchAsync`: refused when any branch, active or not, has the
   * code; otherwise stored active and stamped.
   */
  method CreateBranch(db: Context, b: Branch, now: Instant) returns (r: Result<Branch, Failure>)
    requires db.Valid()
    modifies db`branches
    ensures db.Valid()
    ensures r.Ok? <==> !CodeExists(old(db.branches), b.branchCode, None)
    ensures r.Err? ==> r == Err(Rejected(DuplicateCodeMessage(b.branchCode))) && db.branches == old(db.branches)
    ensures r.Ok? ==> var row := b.(branchId := NextKey(old(db.branches), BranchKey), isActive := true, createdDate := now);
                      r.value == row && db.branches == old(db.branches) + [row]
  {
    if CodeExists(db.branches, b.branchCode, None) {
      return Err(Rejected(DuplicateCodeMessage(b.branchCode)));
    }
    var added := db.AddBranch(b.(isActive := true, createdDate := now));
    assert added.Ok?;
    r := Ok(added.value);
  }

  /**
   * `UpdateBranchAsync`: refused for a missing branch, then for a code held
   * by another branch; otherwise the row is replaced, stamped with the
   * modification time.
   */
  method UpdateBranch(db: Context, b: Branch, now: Instant) returns (r: Result<Branch, Failure>)
    requires db.Valid()
    modifies db`branches
    ensures db.Valid()
    ensures !HasKey(old(db.branches), BranchKey, b.branchId) ==> r == Err(Rejected(BranchMissing))
    ensures HasKey(old(db.branches), BranchKey, b.branchId) && CodeExists(old(db.branches), b.branchCode, Some(b.branchId)) ==>
              r == Err(Rejected(DuplicateCodeMessage(b.branchCode)))
    ensures r.Ok? <==> HasKey(old(db.branches), BranchKey, b.branchId) && !CodeExists(old(db.branches), b.branchCode, Some(b.branchId))
    ensures r.Ok? ==> var row := b.(modifiedDate := Some(now));
                      r.value == row && db.branches == old(db.branches)[IndexOf(old(db.branches), BranchKey, b.branchId) := row]
    ensures r.Err? ==> db.branches == old(db.branches)
  {
    if !HasKey(db.branches, BranchKey, b.branchId) {
      return Err(Rejected(BranchMissing));
    }
    if CodeExists(db.branches, b.branchCode, Some(b.branchId)) {
      return Err(Rejected(DuplicateCodeMessage(b.branchCode)));
    }
    var updated := db.UpdateBranch(b.(modifiedDate := Some(now)));
    assert updated.Ok?;
    r := Ok(updated.value);
  }

  /** `DeleteBranchAsync`: the soft delete, so the row (and everything referring to it) stays. */
  method DeleteBranch(db: Context, branchId: int, now: Instant)
    requires db.Valid()
    modifies db`branches
    ensures db.Valid()
    ensures db.branches == SoftDeleted(old(db.branches), branchId, now)
    ensures |db.branches| == |old(db.branches)|
  {
    SoftDelete(db, branchId, now);
  }
}
