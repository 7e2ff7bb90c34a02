/**
 * `DepartmentService`: create and update guarded by the department-code
 * check (the database itself indexes the NAME, not the code), the
 * self-parent check, and the delete guarded by employees and
 * sub-departments.
 */
module DepartmentService {
  import opened Wrappers
  import opened Seqs
  import opened Text
  import opened Calendar
  import opened Entities
  import opened Tables
  import opened Database
  import opened DepartmentRepository

  const DepartmentMissing: string := "القسم غير موجود"
  const SelfParent: string := "لا يمكن جعل القسم فرعاً لنفسه"

  function DuplicateCodeMessage(departmentCode: string): string
  {
    "كود القسم '" + departmentCode + "' موجود مسبقاً"
  }

  function HasEmployeesMessage(employeeCount: int): string
  {
    "لا يمكن حذف القسم لأنه يحتوي على " + IntToString(employeeCount) + " موظف"
  }

  function HasSubDepartmentsMessage(subCount: int): string
  {
    "لا يمكن حذف القسم لأنه يحتوي على " + IntToString(subCount) + " قسم فرعي"
  }

  /** `!string.IsNullOrEmpty(code)`: only such a code is checked. */
  predicate Coded(d: Department)
  {
    d.departmentCode.Some? && d.departmentCode.value != ""
  }

  /** The service's own invariant: no two departments share a non-empty code. */
  predicate CodesUnique(departments: seq<Department>)
  {
    forall i, j :: 0 <= i < j < |departments| && Coded(departments[i]) ==>
      departments[i].departmentCode != departments[j].departmentCode
  }

  /** The code check refuses `d`. */
  predicate CodeTaken(departments: seq<Department>, d: Department, exclude: Option<int>)
  {
    Coded(d) && CodeExists(departments, d.departmentCode.value, exclude)
  }

  /** Appending a row that passed the code check keeps the codes distinct. */
  lemma {:induction false} CodesUniqueAppend(departments: seq<Department>, row: Department)
    requires CodesUnique(departments) && !CodeTaken(departments, row, None)
    ensures CodesUnique(departments + [row])
  {
    var s := departments + [row];
    forall i, j | 0 <= i < j < |s| && Coded(s[i])
      ensures s[i].departmentCode != s[j].departmentCode
    {
      if j == |departments| {
        if s[i].departmentCode == row.departmentCode {
          assert departments[i].departmentCode == Some(row.departmentCode.value);
          assert CodeExists(departments, row.departmentCode.value, None);
        }
      } else {
        assert s[i] == departments[i] && s[j] == departments[j];
      }
    }
  }

  /** Writing over row `k` a row that passed the code check (excluding its own id) keeps the codes distinct. */
  lemma {:induction false} CodesUniqueReplace(departments: seq<Department>, k: int, row: Department)
    requires CodesUnique(departments) && UniqueKeys(departments, DepartmentKey) && 0 <= k < |departments|
    requires row.departmentId == departments[k].departmentId
    requires !CodeTaken(departments, row, Some(row.departmentId))
    ensures CodesUnique(departments[k := row])
  {
    var s := departments[k := row];
    forall i, j | 0 <= i < j < |s| && Coded(s[i])
      ensures s[i].departmentCode != s[j].departmentCode
    {
      if i == k || j == k {
        var other := if i == k then j else i;
        assert DepartmentKey(departments[other]) != DepartmentKey(departments[k]) by {
          if other < k {
            assert DepartmentKey(departments[other]) != DepartmentKey(departments[k]);
          } else {
            assert DepartmentKey(departments[k]) != DepartmentKey(departments[other]);
          }
        }
      } else {
        assert s[i] == departments[i] && s[j] == departments[j];
      }
    }
  }

  /**
   * `CreateDepartmentAsync`: refused when a non-empty code is already used
   * by any department; otherwise stored active and stamped, unless the
   * database refuses a duplicate name or a missing parent.
   */
  method CreateDepartment(db: Context, d: Department, now: Instant) returns (r: Result<Department, Failure>)
    requires db.Valid()
    modifies db`departments
    ensures db.Valid()
    ensures CodeTaken(old(db.departments), d, None) ==> r == Err(Rejected(DuplicateCodeMessage(d.departmentCode.value)))
    ensures var row := d.(departmentId := NextKey(old(db.departments), DepartmentKey), isActive := true, createdDate := now);
            && (r.Ok? <==> !CodeTaken(old(db.departments), d, None) && DepartmentFits(old(db.departments), row))
            && (r.Ok? ==> r.value == row && db.departments == old(db.departments) + [row])
    ensures r.Err? ==> db.departments == old(db.departments)
    ensures CodesUnique(old(db.departments)) ==> CodesUnique(db.departments)
  {
    if Coded(d) && CodeExists(db.departments, d.departmentCode.value, None) {
      return Err(Rejected(DuplicateCodeMessage(d.departmentCode.value)));
    }
    var before := db.departments;
    var added := db.AddDepartment(d.(isActive := true, createdDate := now));
    match added
    case Ok(row) =>
      if CodesUnique(before) {
        CodesUniqueAppend(before, row);
      }
      r := Ok(row);
    case Err(error) => r := Err(DbFailure(error));
  }

  /**
   * `UpdateDepartmentAsync`: refused for a missing department, then for a
   * non-empty code held by another department, then when the department is
   * made its own parent (longer cycles are not checked); otherwise the row
   * is replaced, stamped with the modification time.
   */
  method UpdateDepartment(db: Context, d: Department, now: Instant) returns (r: Result<Department, Failure>)
    requires db.Valid()
    modifies db`departments
    ensures db.Valid()
    ensures !HasKey(old(db.departments), DepartmentKey, d.departmentId) ==> r == Err(Rejected(DepartmentMissing))
    ensures HasKey(old(db.departments), DepartmentKey, d.departmentId) && CodeTaken(old(db.departments), d, Some(d.departmentId)) ==>
              r == Err(Rejected(DuplicateCodeMessage(d.departmentCode.value)))
    ensures (HasKey(old(db.departments), DepartmentKey, d.departmentId) && !CodeTaken(old(db.departments), d, Some(d.departmentId)) &&
             d.parentDepartmentId == Some(d.departmentId))
            ==> r == Err(Rejected(SelfParent))
    ensures var row := d.(modifiedDate := Some(now));
            && (r.Ok? <==> HasKey(old(db.departments), DepartmentKey, d.departmentId) &&
                           !CodeTaken(old(db.departments), d, Some(d.departmentId)) &&
                           d.parentDepartmentId != Some(d.departmentId) &&
                           DepartmentFits(old(db.departments), row))
            && (r.Ok? ==> r.value == row &&
                          db.departments == old(db.departments)[IndexOf(old(db.departments), DepartmentKey, d.departmentId) := row])
    ensures r.Err? ==> db.departments == old(db.departments)
    ensures CodesUnique(old(db.departments)) ==> CodesUnique(db.departments)
    ensures r.Ok? ==> r.value.parentDepartmentId != Some(r.value.departmentId)
  {
    if !HasKey(db.departments, DepartmentKey, d.departmentId) {
      return Err(Rejected(DepartmentMissing));
    }
    if Coded(d) && CodeExists(db.departments, d.departmentCode.value, Some(d.departmentId)) {
      return Err(Rejected(DuplicateCodeMessage(d.departmentCode.value)));
    }
    if d.parentDepartmentId == Some(d.departmentId) {
      return Err(Rejected(SelfParent));
    }
    var before := db.departments;
    var row := d.(modifiedDate := Some(now));
    var updated := db.UpdateDepartment(row);
    match updated
    case Ok(stored) =>
      if CodesUnique(before) {
        CodesUniqueReplace(before, IndexOf(before, DepartmentKey, d.departmentId), row);
      }
      r := Ok(stored);
    case Err(error) => r := Err(DbFailure(error));
  }

  /** `CanDeleteDepartmentAsync`: no active employee and no active sub-department. */
  function CanDeleteDepartment(employees: seq<Employee>, departments: seq<Department>, departmentId: int): (r: bool)
    ensures r <==>
              && (forall j :: 0 <= j < |employees| && employees[j].isActive ==> employees[j].departmentId != Some(departmentId))
              && (forall j :: 0 <= j < |departments| && departments[j].isActive ==> departments[j].parentDepartmentId != Some(departmentId))
  {
    EmployeeCountZero(employees, departmentId);
    var subs := GetSubDepartments(departments, departmentId);
    assert subs != [] ==> subs[0] in departments;
    GetEmployeeCount(employees, departmentId) == 0 && |subs| == 0
  }

  /**
   * `DeleteDepartmentAsync`: refused, naming the count, while the department
   * has active employees, then while it has active sub-departments;
   * otherwise soft-deleted (a missing id changes nothing and succeeds).
   */
  method DeleteDepartment(db: Context, departmentId: int, now: Instant) returns (r: Result<(), Failure>)
    requires db.Valid()
    modifies db`departments
    ensures db.Valid()
    ensures r.Ok? <==> CanDeleteDepartment(db.employees, old(db.departments), departmentId)
    ensures GetEmployeeCount(db.employees, departmentId) > 0 ==>
              r == Err(Rejected(HasEmployeesMessage(GetEmployeeCount(db.employees, departmentId))))
    ensures GetEmployeeCount(db.employees, departmentId) == 0 && r.Err? ==>
              r == Err(Rejected(HasSubDepartmentsMessage(|GetSubDepartments(old(db.departments), departmentId)|)))
    ensures r.Ok? ==> db.departments == SoftDeleted(old(db.departments), departmentId, now)
    ensures r.Err? ==> db.departments == old(db.departments)
  {
    var employeeCount := GetEmployeeCount(db.employees, departmentId);
    if employeeCount > 0 {
      return Err(Rejected(HasEmployeesMessage(employeeCount)));
    }
    var subDepartments := GetSubDepartments(db.departments, departmentId);
    if |subDepartments| > 0 {
      return Err(Rejected(HasSubDepartmentsMessage(|subDepartments|)));
    }
    SoftDelete(db, departmentId, now);
    r := Ok(());
  }
}
