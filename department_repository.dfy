/**
 * `DepartmentRepository`: the department listings (by name), the hierarchy
 * queries, the code check the service runs before writing, the soft delete
 * and the count of a department's employees.
 */
module DepartmentRepository {
  import opened Wrappers
  import opened Seqs
  import opened Text
  import opened Calendar
  import opened Entities
  import opened Tables
  import opened Database

  function DepartmentName(d: Department): string { d.departmentName }

  predicate DepartmentNameOrdered(s: seq<Department>)
  {
    forall i, j :: 0 <= i < j < |s| ==> LexLe(s[i].departmentName, s[j].departmentName)
  }

  /** `OrderBy(d => d.DepartmentName)`, ordinal and stable. */
  function OrderByName(s: seq<Department>): (r: seq<Department>)
    ensures |r| == |s| && multiset(r) == multiset(s)
    ensures DepartmentNameOrdered(r)
  {
    ByTextIsPreorder(DepartmentName);
    SortBySorted(s, ByText(DepartmentName));
    var r := SortBy(s, ByText(DepartmentName));
    assert forall i, j :: 0 <= i < j < |r| ==> ByText(DepartmentName)(r[i], r[j]) == LexLe(DepartmentName(r[i]), DepartmentName(r[j]));
    r
  }

  function DepartmentListed(includeInactive: bool): Department -> bool
  {
    (d: Department) => includeInactive || d.isActive
  }

  /** `GetAllAsync(includeInactive)`: the active departments (or all of them), by name. */
  function GetAll(departments: seq<Department>, includeInactive: bool): (r: seq<Department>)
    ensures forall i :: 0 <= i < |r| ==> r[i] in departments && (includeInactive || r[i].isActive)
    ensures forall i :: 0 <= i < |departments| && (includeInactive || departments[i].isActive) ==> departments[i] in r
    ensures multiset(r) == multiset(Filter(departments, DepartmentListed(includeInactive)))
    ensures DepartmentNameOrdered(r)
  {
    SortFilterMembers(departments, DepartmentListed(includeInactive), ByText(DepartmentName));
    OrderByName(Filter(departments, DepartmentListed(includeInactive)))
  }

  function IsTopLevel(d: Department): bool
  {
    d.parentDepartmentId.None? && d.isActive
  }

  /** `GetTopLevelDepartmentsAsync`: the active departments without a parent, by name. */
  function GetTopLevelDepartments(departments: seq<Department>): (r: seq<Department>)
    ensures forall i :: 0 <= i < |r| ==> r[i] in departments && r[i].isActive && r[i].parentDepartmentId.None?
    ensures forall i :: 0 <= i < |departments| && departments[i].isActive && departments[i].parentDepartmentId.None? ==>
              departments[i] in r
    ensures DepartmentNameOrdered(r)
    ensures multiset(r) == multiset(Filter(departments, IsTopLevel))
  {
    SortFilterMembers(departments, IsTopLevel, ByText(DepartmentName));
    OrderByName(Filter(departments, IsTopLevel))
  }

  function ChildOf(parentDepartmentId: int): Department -> bool
  {
    (d: Department) => d.parentDepartmentId == Some(parentDepartmentId) && d.isActive
  }

  /** `GetSubDepartmentsAsync(parent)`: the active direct children, by name (grandchildren are not listed). */
  function GetSubDepartments(departments: seq<Department>, parentDepartmentId: int): (r: seq<Department>)
    ensures forall i :: 0 <= i < |r| ==> r[i] in departments && r[i].isActive && r[i].parentDepartmentId == Some(parentDepartmentId)
    ensures forall i :: 0 <= i < |departments| && departments[i].isActive && departments[i].parentDepartmentId == Some(parentDepartmentId) ==>
              departments[i] in r
    ensures DepartmentNameOrdered(r)
    ensures multiset(r) == multiset(Filter(departments, ChildOf(parentDepartmentId)))
  {
    SortFilterMembers(departments, ChildOf(parentDepartmentId), ByText(DepartmentName));
    OrderByName(Filter(departments, ChildOf(parentDepartmentId)))
  }

  /**
   * The hierarchy queries cover the active departments without overlap:
   * each is top-level or listed under its own parent, never both, and under
   * no other parent.
   */
  lemma HierarchyPartitionsActive(departments: seq<Department>, i: int, p: int)
    requires 0 <= i < |departments| && departments[i].isActive
    ensures departments[i].parentDepartmentId.None? ==> departments[i] in GetTopLevelDepartments(departments)
    ensures departments[i].parentDepartmentId.Some? ==>
              departments[i] in GetSubDepartments(departments, departments[i].parentDepartmentId.value) &&
              departments[i] !in GetTopLevelDepartments(departments)
    ensures departments[i] in GetSubDepartments(departments, p) ==> departments[i].parentDepartmentId == Some(p)
  {
    var d := departments[i];
    var sub := GetSubDepartments(departments, p);
    if d in sub {
      var k :| 0 <= k < |sub| && sub[k] == d;
    }
  }

  /**
   * `CodeExistsAsync(code, exclude)`: a department other than the excluded
   * one has the code; inactive departments count.
   */
  function CodeExists(departments: seq<Department>, departmentCode: string, excludeDepartmentId: Option<int>): (r: bool)
    ensures r <==> exists j :: 0 <= j < |departments| && departments[j].departmentCode == Some(departmentCode) &&
                              (excludeDepartmentId.Some? ==> departments[j].departmentId != excludeDepartmentId.value)
  {
    exists j :: 0 <= j < |departments| && departments[j].departmentCode == Some(departmentCode) &&
                (excludeDepartmentId.Some? ==> departments[j].departmentId != excludeDepartmentId.value)
  }

  /** A stored row rewritten with the same key, name and parent still fits the table. */
  lemma StoredDepartmentFits(departments: seq<Department>, i: int, row: Department)
    requires DepartmentsValid(departments) && 0 <= i < |departments|
    requires row.departmentId == departments[i].departmentId && row.departmentName == departments[i].departmentName
    requires row.parentDepartmentId == departments[i].parentDepartmentId
    ensures DepartmentFits(departments, row)
  {
    forall j | 0 <= j < |departments| && departments[j].departmentId != row.departmentId
      ensures departments[j].departmentName != row.departmentName
    {
      if j < i {
        assert DepartmentNameKey(departments[j]) != DepartmentNameKey(departments[i]);
      } else {
        assert DepartmentNameKey(departments[i]) != DepartmentNameKey(departments[j]);
      }
    }
    if row.parentDepartmentId.Some? {
      assert DepartmentParentRef(departments[i]).Some?;
    }
  }

  /** The table after `SoftDeleteAsync(id)` at time `now`: the row stays, inactive and stamped. */
  function SoftDeleted(departments: seq<Department>, departmentId: int, now: Instant): (r: seq<Department>)
    ensures |r| == |departments|
    ensures forall j :: 0 <= j < |r| ==>
              && r[j].departmentId == departments[j].departmentId
              && r[j].departmentCode == departments[j].departmentCode
              && r[j].parentDepartmentId == departments[j].parentDepartmentId
    ensures forall j :: 0 <= j < |r| && departments[j].departmentId != departmentId ==> r[j] == departments[j]
    ensures HasKey(departments, DepartmentKey, departmentId) ==>
              var i := IndexOf(departments, DepartmentKey, departmentId);
              !r[i].isActive && r[i].modifiedDate == Some(now) &&
              r[i].(isActive := departments[i].isActive, modifiedDate := departments[i].modifiedDate) == departments[i]
    ensures !HasKey(departments, DepartmentKey, departmentId) ==> r == departments
  {
    var i := IndexOf(departments, DepartmentKey, departmentId);
    if i == -1 then departments
    else departments[i := departments[i].(isActive := false, modifiedDate := Some(now))]
  }

  /** `SoftDeleteAsync(id)`; a missing id changes nothing. */
  method SoftDelete(db: Context, departmentId: int, now: Instant)
    requires db.Valid()
    modifies db`departments
    ensures db.Valid()
    ensures db.departments == SoftDeleted(old(db.departments), departmentId, now)
  {
    var i := IndexOf(db.departments, DepartmentKey, departmentId);
    if i >= 0 {
      var row := db.departments[i].(isActive := false, modifiedDate := Some(now));
      StoredDepartmentFits(db.departments, i, row);
      var r := db.UpdateDepartment(row);
      assert r.Ok?;
    }
  }

  /** After a soft delete the department is neither top-level nor anyone's sub-department. */
  lemma SoftDeletedLeavesHierarchy(departments: seq<Department>, departmentId: int, now: Instant, p: int)
    requires HasKey(departments, DepartmentKey, departmentId)
    ensures var r := SoftDeleted(departments, departmentId, now);
            var d := r[IndexOf(departments, DepartmentKey, departmentId)];
            d !in GetTopLevelDepartments(r) && d !in GetSubDepartments(r, p)
  {
  }

  function InDepartment(departmentId: int): Employee -> bool
  {
    (e: Employee) => e.departmentId == Some(departmentId) && e.isActive
  }

  /** `GetEmployeeCountAsync(id)`: the active employees of the department. */
  function GetEmployeeCount(employees: seq<Employee>, departmentId: int): (n: int)
    ensures 0 <= n <= |employees|
  {
    |Filter(employees, InDepartment(departmentId))|
  }

  /** The count is zero exactly when no active employee belongs to the department. */
  lemma EmployeeCountZero(employees: seq<Employee>, departmentId: int)
    ensures GetEmployeeCount(employees, departmentId) == 0 <==>
            forall j :: 0 <= j < |employees| && employees[j].isActive ==> employees[j].departmentId != Some(departmentId)
  {
    FilterEmpty(employees, InDepartment(departmentId));
  }
}
