/**
 * `EmployeeRepository`: the employee listings (ordered by name), the
 * biometric-id check the services run before writing, the soft delete, the
 * dictionary by biometric id and the count of active employees.
 */
module EmployeeRepository {
  import opened Wrappers
  import opened Seqs
  import opened Text
  import opened Calendar
  import opened Entities
  import opened Tables
  import opened Database

  function EmployeeName(e: Employee): string { e.employeeName }

  predicate NameOrdered(s: seq<Employee>)
  {
    forall i, j :: 0 <= i < j < |s| ==> LexLe(s[i].employeeName, s[j].employeeName)
  }

  /** `OrderBy(e => e.EmployeeName)`, ordinal and stable. */
  function OrderByName(s: seq<Employee>): (r: seq<Employee>)
    ensures |r| == |s| && multiset(r) == multiset(s)
    ensures NameOrdered(r)
  {
    ByTextIsPreorder(EmployeeName);
    SortBySorted(s, ByText(EmployeeName));
    var r := SortBy(s, ByText(EmployeeName));
    assert forall i, j :: 0 <= i < j < |r| ==> ByText(EmployeeName)(r[i], r[j]) == LexLe(EmployeeName(r[i]), EmployeeName(r[j]));
    r
  }

  // ----- listings -----

  function Listed(includeInactive: bool): Employee -> bool
  {
    (e: Employee) => includeInactive || e.isActive
  }

  /** `GetAllAsync(includeInactive)`: the active employees (or all of them), by name. */
  function GetAll(employees: seq<Employee>, includeInactive: bool): (r: seq<Employee>)
    ensures forall i :: 0 <= i < |r| ==> r[i] in employees && (includeInactive || r[i].isActive)
    ensures forall i :: 0 <= i < |employees| && (includeInactive || employees[i].isActive) ==> employees[i] in r
    ensures multiset(r) == multiset(Filter(employees, Listed(includeInactive)))
    ensures NameOrdered(r)
  {
    SortFilterMembers(employees, Listed(includeInactive), ByText(EmployeeName));
    OrderByName(Filter(employees, Listed(includeInactive)))
  }

  function InDepartment(departmentId: Option<int>): Employee -> bool
  {
    (e: Employee) => e.isActive && (departmentId.Some? ==> e.departmentId == Some(departmentId.value))
  }

  /**
   * `GetFilteredEmployeesAsync(departmentId)`: the active employees, of that
   * department when one is given, by name. An employee without a department
   * never matches a given department.
   */
  function GetFilteredEmployees(employees: seq<Employee>, departmentId: Option<int>): (r: seq<Employee>)
    ensures forall i :: 0 <= i < |r| ==>
              r[i] in employees && r[i].isActive && (departmentId.Some? ==> r[i].departmentId == Some(departmentId.value))
    ensures forall i :: 0 <= i < |employees| && employees[i].isActive &&
              (departmentId.Some? ==> employees[i].departmentId == Some(departmentId.value))
              ==> employees[i] in r
    ensures multiset(r) == multiset(Filter(employees, InDepartment(departmentId)))
    ensures NameOrdered(r)
  {
    SortFilterMembers(employees, InDepartment(departmentId), ByText(EmployeeName));
    OrderByName(Filter(employees, InDepartment(departmentId)))
  }

  /** Without a department the filtered listing is the default listing of active employees. */
  lemma UnfilteredIsAllActive(employees: seq<Employee>)
    ensures GetFilteredEmployees(employees, None) == GetAll(employees, false)
  {
    FilterCongruent(employees, InDepartment(None), Listed(false));
  }

  // ----- the biometric-id check -----

  function Holder(biometricUserId: string, excludeEmployeeId: Option<int>): Employee -> bool
  {
    (e: Employee) => e.biometricUserId == biometricUserId &&
                     (excludeEmployeeId.Some? ==> e.employeeId != excludeEmployeeId.value)
  }

  /**
   * `BiometricIdExistsAsync(id, exclude)`: some employee other than the
   * excluded one holds the id; inactive employees count.
   */
  function BiometricIdExists(employees: seq<Employee>, biometricUserId: string, excludeEmployeeId: Option<int>): (r: bool)
    ensures r <==> exists j :: 0 <= j < |employees| && employees[j].biometricUserId == biometricUserId &&
                              (excludeEmployeeId.Some? ==> employees[j].employeeId != excludeEmployeeId.value)
  {
    var holders := Filter(employees, Holder(biometricUserId, excludeEmployeeId));
    if holders != [] then
      assert holders[0] in employees;
      true
    else
      false
  }

  /**
   * The check excluding the row's own id answers exactly the unique index's
   * question for that row: writing `e` clashes with no other row.
   */
  lemma ExistsCheckMatchesIndex(employees: seq<Employee>, e: Employee)
    ensures !BiometricIdExists(employees, e.biometricUserId, Some(e.employeeId)) <==>
            forall j :: 0 <= j < |employees| && employees[j].employeeId != e.employeeId ==>
              employees[j].biometricUserId != e.biometricUserId
  {
  }

  // ----- soft delete -----

  /** A stored row rewritten with the same key, biometric id and references still fits the table. */
  lemma StoredRowFits(employees: seq<Employee>, departments: seq<Department>, shifts: seq<WorkShift>, i: int, row: Employee)
    requires EmployeesValid(employees, departments, shifts) && 0 <= i < |employees|
    requires row.employeeId == employees[i].employeeId && row.biometricUserId == employees[i].biometricUserId
    requires row.departmentId == employees[i].departmentId && row.defaultShiftId == employees[i].defaultShiftId
    ensures EmployeeFits(employees, departments, shifts, row)
  {
    forall j | 0 <= j < |employees| && employees[j].employeeId != row.employeeId
      ensures employees[j].biometricUserId != row.biometricUserId
    {
      assert j != i;
      if j < i {
        assert EmployeeBiometricKey(employees[j]) != EmployeeBiometricKey(employees[i]);
      } else {
        assert EmployeeBiometricKey(employees[i]) != EmployeeBiometricKey(employees[j]);
      }
    }
    if row.departmentId.Some? {
      assert EmployeeDepartmentRef(employees[i]).Some?;
    }
    if row.defaultShiftId.Some? {
      assert EmployeeShiftRef(employees[i]).Some?;
    }
  }

  /** The table after `SoftDeleteAsync(id)` at time `now`: the row stays, inactive and stamped. */
  function SoftDeleted(employees: seq<Employee>, employeeId: int, now: Instant): (r: seq<Employee>)
    ensures |r| == |employees|
    ensures forall j :: 0 <= j < |r| ==> r[j].employeeId == employees[j].employeeId && r[j].biometricUserId == employees[j].biometricUserId
    ensures forall j :: 0 <= j < |r| && employees[j].employeeId != employeeId ==> r[j] == employees[j]
    ensures HasKey(employees, EmployeeKey, employeeId) ==>
              var i := IndexOf(employees, EmployeeKey, employeeId);
              !r[i].isActive && r[i].modifiedDate == Some(now) &&
              r[i].(isActive := employees[i].isActive, modifiedDate := employees[i].modifiedDate) == employees[i]
    ensures !HasKey(employees, EmployeeKey, employeeId) ==> r == employees
  {
    var i := IndexOf(employees, EmployeeKey, employeeId);
    if i == -1 then employees
    else employees[i := employees[i].(isActive := false, modifiedDate := Some(now))]
  }

  /** `SoftDeleteAsync(id)`; a missing id changes nothing. */
  method SoftDelete(db: Context, employeeId: int, now: Instant)
    requires db.Valid()
    modifies db`employees
    ensures db.Valid()
    ensures db.employees == SoftDeleted(old(db.employees), employeeId, now)
  {
    var i := IndexOf(db.employees, EmployeeKey, employeeId);
    if i >= 0 {
      var row := db.employees[i].(isActive := false, modifiedDate := Some(now));
      StoredRowFits(db.employees, db.departments, db.shifts, i, row);
      var r := db.UpdateEmployee(row);
      assert r.Ok?;
    }
  }

  /**
   * A soft-deleted employee keeps holding the biometric id: every answer of
   * `BiometricIdExistsAsync` is the same before and after.
   */
  lemma SoftDeleteKeepsIdsTaken(employees: seq<Employee>, employeeId: int, now: Instant, biometricUserId: string, exclude: Option<int>)
    ensures BiometricIdExists(SoftDeleted(employees, employeeId, now), biometricUserId, exclude) ==
            BiometricIdExists(employees, biometricUserId, exclude)
  {
    var r := SoftDeleted(employees, employeeId, now);
    if BiometricIdExists(employees, biometricUserId, exclude) {
      var j :| 0 <= j < |employees| && employees[j].biometricUserId == biometricUserId &&
               (exclude.Some? ==> employees[j].employeeId != exclude.value);
      assert r[j].biometricUserId == biometricUserId;
    }
  }

  function IsActive(e: Employee): bool { e.isActive }

  /** `GetActiveEmployeeCountAsync`. */
  function GetActiveEmployeeCount(employees: seq<Employee>): (n: int)
    ensures 0 <= n <= |employees|
  {
    |Filter(employees, IsActive)|
  }

  /** The count is the length of the default listing. */
  lemma ActiveCountIsListed(employees: seq<Employee>)
    ensures GetActiveEmployeeCount(employees) == |GetAll(employees, false)|
  {
    FilterCongruent(employees, IsActive, Listed(false));
    assert |multiset(GetAll(employees, false))| == |multiset(Filter(employees, Listed(false)))|;
  }

  /** Soft-deleting an active employee lowers the count by one; anything else keeps it. */
  lemma SoftDeleteCount(employees: seq<Employee>, employeeId: int, now: Instant)
    ensures var active := HasKey(employees, EmployeeKey, employeeId) && employees[IndexOf(employees, EmployeeKey, employeeId)].isActive;
            GetActiveEmployeeCount(SoftDeleted(employees, employeeId, now)) ==
            GetActiveEmployeeCount(employees) - (if active then 1 else 0)
  {
    var i := IndexOf(employees, EmployeeKey, employeeId);
    if i >= 0 {
      FilterReplaceCount(employees, IsActive, i, employees[i].(isActive := false, modifiedDate := Some(now)));
    }
  }

  // ----- the dictionary -----

  /**
   * `GetEmployeesDictionaryAsync(ids)`: each requested biometric id that an
   * employee holds, mapped to that employee (the unique index keeps
   * `ToDictionaryAsync` from meeting a key twice).
   */
  function GetEmployeesDictionary(employees: seq<Employee>, biometricUserIds: seq<string>): (d: map<string, Employee>)
    ensures forall k :: k in d ==> k in biometricUserIds && d[k] in employees && d[k].biometricUserId == k
    ensures forall j :: 0 <= j < |employees| && employees[j].biometricUserId in biometricUserIds ==>
              employees[j].biometricUserId in d
  {
    map k | k in biometricUserIds && HasKey(employees, EmployeeBiometricKey, k) ::
      Find(employees, EmployeeBiometricKey, k).value
  }

  /** Under the unique index, each entry is the very employee holding the id. */
  lemma DictionaryHoldsTheEmployee(employees: seq<Employee>, biometricUserIds: seq<string>, j: int)
    requires UniqueKeys(employees, EmployeeBiometricKey) && 0 <= j < |employees|
    requires employees[j].biometricUserId in biometricUserIds
    ensures GetEmployeesDictionary(employees, biometricUserIds)[employees[j].biometricUserId] == employees[j]
  {
    IndexOfUnique(employees, EmployeeBiometricKey, j);
  }
}
