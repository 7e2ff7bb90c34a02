/**
 * The application's database (`ZKAttendanceWebDbContext`): one table per
 * entity the services use, each a sequence of rows, with the primary keys,
 * unique indexes and foreign keys the model configuration declares for them
 * as the class invariant. `SyncLogs`, `DeviceErrors` and `EmployeeBranches`
 * are kept only as their keys and branch references, which restrict
 * removing a branch.
 * Inserting, updating or removing a row goes through `SaveChanges`, which
 * refuses any write that would break one of them.
 */
module Database {
  import opened Wrappers
  import opened Calendar
  import opened Entities
  import opened Tables

  /** Why `SaveChanges` throws. */
  datatype DbError =
    | UniqueViolation(index: string)
    | ForeignKeyViolation(constraint: string)
    | RowMissing   // an UPDATE that matched no row

  /** What a service reports: its own `InvalidOperationException`, or the database's refusal. */
  datatype Failure = Rejected(message: string) | DbFailure(error: DbError)

  // ----- keys, indexes and references of each table -----

  function EmployeeKey(e: Employee): int { e.employeeId }
  function EmployeeBiometricKey(e: Employee): string { e.biometricUserId }
  function EmployeeDepartmentRef(e: Employee): Option<int> { e.departmentId }
  function EmployeeShiftRef(e: Employee): Option<int> { e.defaultShiftId }

  function DepartmentKey(d: Department): int { d.departmentId }
  function DepartmentNameKey(d: Department): string { d.departmentName }
  function DepartmentParentRef(d: Department): Option<int> { d.parentDepartmentId }

  function ShiftKey(s: WorkShift): int { s.shiftId }

  function AssignmentKey(a: ShiftAssignment): int { a.assignmentId }
  function AssignmentEmployeeRef(a: ShiftAssignment): Option<int> { Some(a.employeeId) }
  function AssignmentShiftRef(a: ShiftAssignment): Option<int> { Some(a.shiftId) }

  function BranchKey(b: Branch): int { b.branchId }
  function BranchCodeKey(b: Branch): string { b.branchCode }

  function DeviceKey(d: Device): int { d.deviceId }
  function DeviceEndpointKey(d: Device): (string, int) { (d.deviceIp, d.devicePort) }
  function DeviceBranchRef(d: Device): Option<int> { Some(d.branchId) }

  function StatusKey(s: DeviceStatus): int { s.statusId }
  function StatusDeviceRef(s: DeviceStatus): Option<int> { Some(s.deviceId) }
  function StatusBranchRef(s: DeviceStatus): Option<int> { Some(s.branchId) }

  function LogKey(l: AttendanceLog): int { l.logId }
  function LogTripleKey(l: AttendanceLog): (string, Instant, int) { l.Triple() }
  function LogDeviceRef(l: AttendanceLog): Option<int> { Some(l.deviceId) }
  function LogBranchRef(l: AttendanceLog): Option<int> { Some(l.branchId) }
  function LogEmployeeRef(l: AttendanceLog): Option<int> { l.employeeId }

  // ----- the constraints, table by table -----

  /** `IX_Employee_BiometricUserId` and the department and default-shift foreign keys. */
  predicate EmployeesValid(employees: seq<Employee>, departments: seq<Department>, shifts: seq<WorkShift>)
  {
    && UniqueKeys(employees, EmployeeKey)
    && UniqueKeys(employees, EmployeeBiometricKey)
    && References(employees, EmployeeDepartmentRef, departments, DepartmentKey)
    && References(employees, EmployeeShiftRef, shifts, ShiftKey)
  }

  /** `IX_Department_Name` and the parent foreign key. */
  predicate DepartmentsValid(departments: seq<Department>)
  {
    && UniqueKeys(departments, DepartmentKey)
    && UniqueKeys(departments, DepartmentNameKey)
    && References(departments, DepartmentParentRef, departments, DepartmentKey)
  }

  /** Shift names are indexed but not unique. */
  predicate ShiftsValid(shifts: seq<WorkShift>)
  {
    UniqueKeys(shifts, ShiftKey)
  }

  predicate AssignmentsValid(assignments: seq<ShiftAssignment>, employees: seq<Employee>, shifts: seq<WorkShift>)
  {
    && UniqueKeys(assignments, AssignmentKey)
    && References(assignments, AssignmentEmployeeRef, employees, EmployeeKey)
    && References(assignments, AssignmentShiftRef, shifts, ShiftKey)
  }

  /** `IX_Branch_Code`. */
  predicate BranchesValid(branches: seq<Branch>)
  {
    && UniqueKeys(branches, BranchKey)
    && UniqueKeys(branches, BranchCodeKey)
  }

  /**
   * A row of `SyncLogs`, `DeviceErrors` or `EmployeeBranches`, kept only
   * for its key and its restricting reference to a branch: those tables
   * matter here only because they stop a branch from being removed.
   */
  datatype BranchLink = BranchLink(rowId: int, branchId: int)

  function LinkKey(x: BranchLink): int { x.rowId }
  function LinkBranchRef(x: BranchLink): Option<int> { Some(x.branchId) }

  /** The table's key and its branch foreign key. */
  predicate BranchLinksValid(links: seq<BranchLink>, branches: seq<Branch>)
  {
    && UniqueKeys(links, LinkKey)
    && References(links, LinkBranchRef, branches, BranchKey)
  }

  /** `IX_Device_IP_Port` and the branch foreign key. */
  predicate DevicesValid(devices: seq<Device>, branches: seq<Branch>)
  {
    && UniqueKeys(devices, DeviceKey)
    && UniqueKeys(devices, DeviceEndpointKey)
    && References(devices, DeviceBranchRef, branches, BranchKey)
  }

  predicate StatusesValid(statuses: seq<DeviceStatus>, devices: seq<Device>, branches: seq<Branch>)
  {
    && UniqueKeys(statuses, StatusKey)
    && References(statuses, StatusDeviceRef, devices, DeviceKey)
    && References(statuses, StatusBranchRef, branches, BranchKey)
  }

  /** `IX_AttendanceLog_Unique` on (BiometricUserId, AttendanceTime, DeviceId) and three foreign keys. */
  predicate LogsValid(logs: seq<AttendanceLog>, employees: seq<Employee>, devices: seq<Device>, branches: seq<Branch>)
  {
    && UniqueKeys(logs, LogKey)
    && UniqueKeys(logs, LogTripleKey)
    && References(logs, LogDeviceRef, devices, DeviceKey)
    && References(logs, LogBranchRef, branches, BranchKey)
    && References(logs, LogEmployeeRef, employees, EmployeeKey)
  }

  // ----- whether one row may be written -----

  /**
   * Row `e` may be stored (as a new row, or over the row with its id): no
   * other row holds its biometric id and its references resolve.
   */
  predicate EmployeeFits(employees: seq<Employee>, departments: seq<Department>, shifts: seq<WorkShift>, e: Employee)
  {
    && (forall j :: 0 <= j < |employees| && employees[j].employeeId != e.employeeId ==>
          employees[j].biometricUserId != e.biometricUserId)
    && (e.departmentId.Some? ==> HasKey(departments, DepartmentKey, e.departmentId.value))
    && (e.defaultShiftId.Some? ==> HasKey(shifts, ShiftKey, e.defaultShiftId.value))
  }

  /** The constraint the database names when `e` does not fit, checked in a fixed order. */
  function EmployeeViolation(employees: seq<Employee>, departments: seq<Department>, shifts: seq<WorkShift>, e: Employee): (v: Option<DbError>)
    ensures v.None? <==> EmployeeFits(employees, departments, shifts, e)
  {
    if exists j :: 0 <= j < |employees| && employees[j].employeeId != e.employeeId && employees[j].biometricUserId == e.biometricUserId then
      Some(UniqueViolation("IX_Employee_BiometricUserId"))
    else if e.departmentId.Some? && !HasKey(departments, DepartmentKey, e.departmentId.value) then
      Some(ForeignKeyViolation("FK_Employees_Departments_DepartmentId"))
    else if e.defaultShiftId.Some? && !HasKey(shifts, ShiftKey, e.defaultShiftId.value) then
      Some(ForeignKeyViolation("FK_Employees_WorkShifts_DefaultShiftId"))
    else None
  }

  predicate DepartmentFits(departments: seq<Department>, d: Department)
  {
    && (forall j :: 0 <= j < |departments| && departments[j].departmentId != d.departmentId ==>
          departments[j].departmentName != d.departmentName)
    && (d.parentDepartmentId.Some? ==>
          d.parentDepartmentId.value == d.departmentId || HasKey(departments, DepartmentKey, d.parentDepartmentId.value))
  }

  function DepartmentViolation(departments: seq<Department>, d: Department): (v: Option<DbError>)
    ensures v.None? <==> DepartmentFits(departments, d)
  {
    if exists j :: 0 <= j < |departments| && departments[j].departmentId != d.departmentId && departments[j].departmentName == d.departmentName then
      Some(UniqueViolation("IX_Department_Name"))
    else if d.parentDepartmentId.Some? && d.parentDepartmentId.value != d.departmentId && !HasKey(departments, DepartmentKey, d.parentDepartmentId.value) then
      Some(ForeignKeyViolation("FK_Departments_Departments_ParentDepartmentId"))
    else None
  }

  predicate BranchFits(branches: seq<Branch>, b: Branch)
  {
    forall j :: 0 <= j < |branches| && branches[j].branchId != b.branchId ==> branches[j].branchCode != b.branchCode
  }

  function BranchViolation(branches: seq<Branch>, b: Branch): (v: Option<DbError>)
    ensures v.None? <==> BranchFits(branches, b)
  {
    if exists j :: 0 <= j < |branches| && branches[j].branchId != b.branchId && branches[j].branchCode == b.branchCode then
      Some(UniqueViolation("IX_Branch_Code"))
    else None
  }

  predicate DeviceFits(devices: seq<Device>, branches: seq<Branch>, d: Device)
  {
    && (forall j :: 0 <= j < |devices| && devices[j].deviceId != d.deviceId ==>
          DeviceEndpointKey(devices[j]) != DeviceEndpointKey(d))
    && HasKey(branches, BranchKey, d.branchId)
  }

  function DeviceViolation(devices: seq<Device>, branches: seq<Branch>, d: Device): (v: Option<DbError>)
    ensures v.None? <==> DeviceFits(devices, branches, d)
  {
    if exists j :: 0 <= j < |devices| && devices[j].deviceId != d.deviceId && DeviceEndpointKey(devices[j]) == DeviceEndpointKey(d) then
      Some(UniqueViolation("IX_Device_IP_Port"))
    else if !HasKey(branches, BranchKey, d.branchId) then
      Some(ForeignKeyViolation("FK_Devices_Branches_BranchId"))
    else None
  }

  predicate LogFits(logs: seq<AttendanceLog>, employees: seq<Employee>, devices: seq<Device>, branches: seq<Branch>, l: AttendanceLog)
  {
    && (forall j :: 0 <= j < |logs| && logs[j].logId != l.logId ==> logs[j].Triple() != l.Triple())
    && HasKey(devices, DeviceKey, l.deviceId)
    && HasKey(branches, BranchKey, l.branchId)
    && (l.employeeId.Some? ==> HasKey(employees, EmployeeKey, l.employeeId.value))
  }

  function LogViolation(logs: seq<AttendanceLog>, employees: seq<Employee>, devices: seq<Device>, branches: seq<Branch>, l: AttendanceLog): (v: Option<DbError>)
    ensures v.None? <==> LogFits(logs, employees, devices, branches, l)
  {
    if exists j :: 0 <= j < |logs| && logs[j].logId != l.logId && logs[j].Triple() == l.Triple() then
      Some(UniqueViolation("IX_AttendanceLog_Unique"))
    else if !HasKey(devices, DeviceKey, l.deviceId) then
      Some(ForeignKeyViolation("FK_AttendanceLogs_Devices_DeviceId"))
    else if !HasKey(branches, BranchKey, l.branchId) then
      Some(ForeignKeyViolation("FK_AttendanceLogs_Branches_BranchId"))
    else if l.employeeId.Some? && !HasKey(employees, EmployeeKey, l.employeeId.value) then
      Some(ForeignKeyViolation("FK_AttendanceLogs_Employees_EmployeeId"))
    else None
  }

  /** Keys present before are present after. */
  ghost predicate KeysKept<T>(before: seq<T>, after: seq<T>, key: T -> int)
  {
    forall k :: HasKey(before, key, k) ==> HasKey(after, key, k)
  }

  lemma AppendKeepsKeys<T>(rows: seq<T>, key: T -> int, x: T)
    ensures KeysKept(rows, rows + [x], key)
  {
    forall k | HasKey(rows, key, k)
      ensures HasKey(rows + [x], key, k)
    {
      HasKeyAppend(rows, key, x, k);
    }
  }

  lemma ReplaceKeepsKeys<T>(rows: seq<T>, key: T -> int, i: int, x: T)
    requires 0 <= i < |rows| && key(x) == key(rows[i])
    ensures KeysKept(rows, rows[i := x], key)
  {
    forall k | HasKey(rows, key, k)
      ensures HasKey(rows[i := x], key, k)
    {
      HasKeyReplace(rows, key, i, x, k);
    }
  }

  class Context {
    var employees: seq<Employee>
    var departments: seq<Department>
    var shifts: seq<WorkShift>
    var assignments: seq<ShiftAssignment>
    var branches: seq<Branch>
    var devices: seq<Device>
    var deviceStatuses: seq<DeviceStatus>
    var logs: seq<AttendanceLog>
    var syncLogs: seq<BranchLink>
    var deviceErrors: seq<BranchLink>
    var employeeBranches: seq<BranchLink>

    /** Every key, unique index and foreign key holds. */
    predicate Valid()
      reads this
    {
      && EmployeesValid(employees, departments, shifts)
      && DepartmentsValid(departments)
      && ShiftsValid(shifts)
      && AssignmentsValid(assignments, employees, shifts)
      && BranchesValid(branches)
      && DevicesValid(devices, branches)
      && StatusesValid(deviceStatuses, devices, branches)
      && LogsValid(logs, employees, devices, branches)
      && BranchLinksValid(syncLogs, branches)
      && BranchLinksValid(deviceErrors, branches)
      && BranchLinksValid(employeeBranches, branches)
    }

    /** An empty database. */
    constructor ()
      ensures Valid()
      ensures employees == [] && departments == [] && shifts == [] && assignments == []
      ensures branches == [] && devices == [] && deviceStatuses == [] && logs == []
      ensures syncLogs == [] && deviceErrors == [] && employeeBranches == []
    {
      employees := [];
      departments := [];
      shifts := [];
      assignments := [];
      branches := [];
      devices := [];
      deviceStatuses := [];
      logs := [];
      syncLogs := [];
      deviceErrors := [];
      employeeBranches := [];
    }

    // ----- Employees -----

    /** `Employees.Add(e)` + `SaveChanges`: the row gets a fresh identity. */
    method AddEmployee(e: Employee) returns (r: Result<Employee, DbError>)
      requires Valid()
      modifies this`employees
      ensures Valid()
      ensures var row := e.(employeeId := NextKey(old(employees), EmployeeKey));
              && (r.Ok? <==> EmployeeFits(old(employees), departments, shifts, row))
              && (r.Ok? ==> r.value == row && employees == old(employees) + [row])
              && (r.Err? ==> employees == old(employees))
    {
      var row := e.(employeeId := NextKey(employees, EmployeeKey));
      var v := EmployeeViolation(employees, departments, shifts, row);
      if v.Some? {
        return Err(v.value);
      }
      UniqueKeysAppend(employees, EmployeeKey, row);
      UniqueKeysAppend(employees, EmployeeBiometricKey, row);
      ReferencesAppend(employees, EmployeeDepartmentRef, departments, DepartmentKey, row);
      ReferencesAppend(employees, EmployeeShiftRef, shifts, ShiftKey, row);
      AppendKeepsKeys(employees, EmployeeKey, row);
      ReferencesGrow(assignments, AssignmentEmployeeRef, employees, employees + [row], EmployeeKey);
      ReferencesGrow(logs, LogEmployeeRef, employees, employees + [row], EmployeeKey);
      employees := employees + [row];
      r := Ok(row);
    }

    /** `Employees.Update(e)` + `SaveChanges`: the row with `e`'s id is replaced as a whole. */
    method UpdateEmployee(e: Employee) returns (r: Result<Employee, DbError>)
      requires Valid()
      modifies this`employees
      ensures Valid()
      ensures r.Ok? <==> HasKey(old(employees), EmployeeKey, e.employeeId) && EmployeeFits(old(employees), departments, shifts, e)
      ensures r.Ok? ==> r.value == e && employees == old(employees)[IndexOf(old(employees), EmployeeKey, e.employeeId) := e]
      ensures r.Err? ==> employees == old(employees)
    {
      var i := IndexOf(employees, EmployeeKey, e.employeeId);
      if i == -1 {
        return Err(RowMissing);
      }
      var v := EmployeeViolation(employees, departments, shifts, e);
      if v.Some? {
        return Err(v.value);
      }
      UniqueKeysReplace(employees, EmployeeKey, i, e);
      UniqueKeysReplace(employees, EmployeeBiometricKey, i, e);
      ReferencesReplace(employees, EmployeeDepartmentRef, departments, DepartmentKey, i, e);
      ReferencesReplace(employees, EmployeeShiftRef, shifts, ShiftKey, i, e);
      ReplaceKeepsKeys(employees, EmployeeKey, i, e);
      ReferencesGrow(assignments, AssignmentEmployeeRef, employees, employees[i := e], EmployeeKey);
      ReferencesGrow(logs, LogEmployeeRef, employees, employees[i := e], EmployeeKey);
      employees := employees[i := e];
      r := Ok(e);
    }

    // ----- Departments -----

    method AddDepartment(d: Department) returns (r: Result<Department, DbError>)
      requires Valid()
      modifies this`departments
      ensures Valid()
      ensures var row := d.(departmentId := NextKey(old(departments), DepartmentKey));
              && (r.Ok? <==> DepartmentFits(old(departments), row))
              && (r.Ok? ==> r.value == row && departments == old(departments) + [row])
              && (r.Err? ==> departments == old(departments))
    {
      var row := d.(departmentId := NextKey(departments, DepartmentKey));
      var v := DepartmentViolation(departments, row);
      if v.Some? {
        return Err(v.value);
      }
      var departments' := departments + [row];
      UniqueKeysAppend(departments, DepartmentKey, row);
      UniqueKeysAppend(departments, DepartmentNameKey, row);
      AppendKeepsKeys(departments, DepartmentKey, row);
      ReferencesGrow(departments, DepartmentParentRef, departments, departments', DepartmentKey);
      HasKeyAppend(departments, DepartmentKey, row, row.departmentId);
      ReferencesAppend(departments, DepartmentParentRef, departments', DepartmentKey, row);
      ReferencesGrow(employees, EmployeeDepartmentRef, departments, departments', DepartmentKey);
      departments := departments';
      r := Ok(row);
    }

    method UpdateDepartment(d: Department) returns (r: Result<Department, DbError>)
      requires Valid()
      modifies this`departments
      ensures Valid()
      ensures r.Ok? <==> HasKey(old(departments), DepartmentKey, d.departmentId) && DepartmentFits(old(departments), d)
      ensures r.Ok? ==> r.value == d && departments == old(departments)[IndexOf(old(departments), DepartmentKey, d.departmentId) := d]
      ensures r.Err? ==> departments == old(departments)
    {
      var i := IndexOf(departments, DepartmentKey, d.departmentId);
      if i == -1 {
        return Err(RowMissing);
      }
      var v := DepartmentViolation(departments, d);
      if v.Some? {
        return Err(v.value);
      }
      var departments' := departments[i := d];
      UniqueKeysReplace(departments, DepartmentKey, i, d);
      UniqueKeysReplace(departments, DepartmentNameKey, i, d);
      ReplaceKeepsKeys(departments, DepartmentKey, i, d);
      ReferencesGrow(departments, DepartmentParentRef, departments, departments', DepartmentKey);
      ReferencesReplace(departments, DepartmentParentRef, departments', DepartmentKey, i, d);
      ReferencesGrow(employees, EmployeeDepartmentRef, departments, departments', DepartmentKey);
      departments := departments';
      r := Ok(d);
    }

    // ----- WorkShifts (no constraint besides the key) -----

    method AddShift(s: WorkShift) returns (r: WorkShift)
      requires Valid()
      modifies this`shifts
      ensures Valid()
      ensures r == s.(shiftId := NextKey(old(shifts), ShiftKey)) && shifts == old(shifts) + [r]
    {
      r := s.(shiftId := NextKey(shifts, ShiftKey));
      UniqueKeysAppend(shifts, ShiftKey, r);
      AppendKeepsKeys(shifts, ShiftKey, r);
      ReferencesGrow(employees, EmployeeShiftRef, shifts, shifts + [r], ShiftKey);
      ReferencesGrow(assignments, AssignmentShiftRef, shifts, shifts + [r], ShiftKey);
      shifts := shifts + [r];
    }

    method UpdateShift(s: WorkShift) returns (r: Result<WorkShift, DbError>)
      requires Valid()
      modifies this`shifts
      ensures Valid()
      ensures r.Ok? <==> HasKey(old(shifts), ShiftKey, s.shiftId)
      ensures r.Ok? ==> r.value == s && shifts == old(shifts)[IndexOf(old(shifts), ShiftKey, s.shiftId) := s]
      ensures r.Err? ==> shifts == old(shifts)
    {
      var i := IndexOf(shifts, ShiftKey, s.shiftId);
      if i == -1 {
        return Err(RowMissing);
      }
      UniqueKeysReplace(shifts, ShiftKey, i, s);
      ReplaceKeepsKeys(shifts, ShiftKey, i, s);
      ReferencesGrow(employees, EmployeeShiftRef, shifts, shifts[i := s], ShiftKey);
      ReferencesGrow(assignments, AssignmentShiftRef, shifts, shifts[i := s], ShiftKey);
      shifts := shifts[i := s];
      r := Ok(s);
    }

    // ----- Branches -----

    method AddBranch(b: Branch) returns (r: Result<Branch, DbError>)
      requires Valid()
      modifies this`branches
      ensures Valid()
      ensures var row := b.(branchId := NextKey(old(branches), BranchKey));
              && (r.Ok? <==> BranchFits(old(branches), row))
              && (r.Ok? ==> r.value == row && branches == old(branches) + [row])
              && (r.Err? ==> branches == old(branches))
    {
      var row := b.(branchId := NextKey(branches, BranchKey));
      var v := BranchViolation(branches, row);
      if v.Some? {
        return Err(v.value);
      }
      var branches' := branches + [row];
      UniqueKeysAppend(branches, BranchKey, row);
      UniqueKeysAppend(branches, BranchCodeKey, row);
      AppendKeepsKeys(branches, BranchKey, row);
      ReferencesGrow(devices, DeviceBranchRef, branches, branches', BranchKey);
      ReferencesGrow(deviceStatuses, StatusBranchRef, branches, branches', BranchKey);
      ReferencesGrow(logs, LogBranchRef, branches, branches', BranchKey);
      ReferencesGrow(syncLogs, LinkBranchRef, branches, branches', BranchKey);
      ReferencesGrow(deviceErrors, LinkBranchRef, branches, branches', BranchKey);
      ReferencesGrow(employeeBranches, LinkBranchRef, branches, branches', BranchKey);
      branches := branches';
      r := Ok(row);
    }

    method UpdateBranch(b: Branch) returns (r: Result<Branch, DbError>)
      requires Valid()
      modifies this`branches
      ensures Valid()
      ensures r.Ok? <==> HasKey(old(branches), BranchKey, b.branchId) && BranchFits(old(branches), b)
      ensures r.Ok? ==> r.value == b && branches == old(branches)[IndexOf(old(branches), BranchKey, b.branchId) := b]
      ensures r.Err? ==> branches == old(branches)
    {
      var i := IndexOf(branches, BranchKey, b.branchId);
      if i == -1 {
        return Err(RowMissing);
      }
      var v := BranchViolation(branches, b);
      if v.Some? {
        return Err(v.value);
      }
      var branches' := branches[i := b];
      UniqueKeysReplace(branches, BranchKey, i, b);
      UniqueKeysReplace(branches, BranchCodeKey, i, b);
      ReplaceKeepsKeys(branches, BranchKey, i, b);
      ReferencesGrow(devices, DeviceBranchRef, branches, branches', BranchKey);
      ReferencesGrow(deviceStatuses, StatusBranchRef, branches, branches', BranchKey);
      ReferencesGrow(logs, LogBranchRef, branches, branches', BranchKey);
      branches := branches';
      r := Ok(b);
    }

    /**
     * The branch is referenced by a device, a device status, a punch, a sync
     * log, a device error or an employee's branch membership: every foreign
     * key to `Branches` is `DeleteBehavior.Restrict`.
     */
    predicate BranchInUse(id: int)
      reads this
    {
      || !Unreferenced(devices, DeviceBranchRef, id)
      || !Unreferenced(deviceStatuses, StatusBranchRef, id)
      || !Unreferenced(logs, LogBranchRef, id)
      || !Unreferenced(syncLogs, LinkBranchRef, id)
      || !Unreferenced(deviceErrors, LinkBranchRef, id)
      || !Unreferenced(employeeBranches, LinkBranchRef, id)
    }

    /** `Branches.Remove(row i)` + `SaveChanges`: refused while anything refers to the branch. */
    method RemoveBranch(i: int) returns (r: Result<(), DbError>)
      requires Valid() && 0 <= i < |branches|
      modifies this`branches
      ensures Valid()
      ensures r.Ok? <==> !old(BranchInUse(branches[i].branchId))
      ensures r.Ok? ==> branches == RemoveAt(old(branches), i)
      ensures r.Err? ==> branches == old(branches)
    {
      var id := branches[i].branchId;
      if !Unreferenced(devices, DeviceBranchRef, id) {
        return Err(ForeignKeyViolation("FK_Devices_Branches_BranchId"));
      }
      if !Unreferenced(deviceStatuses, StatusBranchRef, id) {
        return Err(ForeignKeyViolation("FK_DeviceStatuses_Branches_BranchId"));
      }
      if !Unreferenced(logs, LogBranchRef, id) {
        return Err(ForeignKeyViolation("FK_AttendanceLogs_Branches_BranchId"));
      }
      if !Unreferenced(syncLogs, LinkBranchRef, id) {
        return Err(ForeignKeyViolation("FK_SyncLogs_Branches_BranchId"));
      }
      if !Unreferenced(deviceErrors, LinkBranchRef, id) {
        return Err(ForeignKeyViolation("FK_DeviceErrors_Branches_BranchId"));
      }
      if !Unreferenced(employeeBranches, LinkBranchRef, id) {
        return Err(ForeignKeyViolation("FK_EmployeeBranches_Branches_BranchId"));
      }
      UniqueKeysRemove(branches, BranchKey, i);
      UniqueKeysRemove(branches, BranchCodeKey, i);
      ReferencesRemove(devices, DeviceBranchRef, branches, BranchKey, i);
      ReferencesRemove(deviceStatuses, StatusBranchRef, branches, BranchKey, i);
      ReferencesRemove(logs, LogBranchRef, branches, BranchKey, i);
      ReferencesRemove(syncLogs, LinkBranchRef, branches, BranchKey, i);
      ReferencesRemove(deviceErrors, LinkBranchRef, branches, BranchKey, i);
      ReferencesRemove(employeeBranches, LinkBranchRef, branches, BranchKey, i);
      branches := RemoveAt(branches, i);
      r := Ok(());
    }

    // ----- Devices and their statuses -----

    method AddDevice(d: Device) returns (r: Result<Device, DbError>)
      requires Valid()
      modifies this`devices
      ensures Valid()
      ensures var row := d.(deviceId := NextKey(old(devices), DeviceKey));
              && (r.Ok? <==> DeviceFits(old(devices), branches, row))
              && (r.Ok? ==> r.value == row && devices == old(devices) + [row])
              && (r.Err? ==> devices == old(devices))
    {
      var row := d.(deviceId := NextKey(devices, DeviceKey));
      var v := DeviceViolation(devices, branches, row);
      if v.Some? {
        return Err(v.value);
      }
      var devices' := devices + [row];
      UniqueKeysAppend(devices, DeviceKey, row);
      UniqueKeysAppend(devices, DeviceEndpointKey, row);
      ReferencesAppend(devices, DeviceBranchRef, branches, BranchKey, row);
      AppendKeepsKeys(devices, DeviceKey, row);
      ReferencesGrow(deviceStatuses, StatusDeviceRef, devices, devices', DeviceKey);
      ReferencesGrow(logs, LogDeviceRef, devices, devices', DeviceKey);
      devices := devices';
      r := Ok(row);
    }

    method UpdateDevice(d: Device) returns (r: Result<Device, DbError>)
      requires Valid()
      modifies this`devices
      ensures Valid()
      ensures r.Ok? <==> HasKey(old(devices), DeviceKey, d.deviceId) && DeviceFits(old(devices), branches, d)
      ensures r.Ok? ==> r.value == d && devices == old(devices)[IndexOf(old(devices), DeviceKey, d.deviceId) := d]
      ensures r.Err? ==> devices == old(devices)
    {
      var i := IndexOf(devices, DeviceKey, d.deviceId);
      if i == -1 {
        return Err(RowMissing);
      }
      var v := DeviceViolation(devices, branches, d);
      if v.Some? {
        return Err(v.value);
      }
      var devices' := devices[i := d];
      UniqueKeysReplace(devices, DeviceKey, i, d);
      UniqueKeysReplace(devices, DeviceEndpointKey, i, d);
      ReferencesReplace(devices, DeviceBranchRef, branches, BranchKey, i, d);
      ReplaceKeepsKeys(devices, DeviceKey, i, d);
      ReferencesGrow(deviceStatuses, StatusDeviceRef, devices, devices', DeviceKey);
      ReferencesGrow(logs, LogDeviceRef, devices, devices', DeviceKey);
      devices := devices';
      r := Ok(d);
    }

    /** `DeviceStatuses.Add(s)` + `SaveChanges`: both references must resolve. */
    method AddDeviceStatus(s: DeviceStatus) returns (r: Result<DeviceStatus, DbError>)
      requires Valid()
      modifies this`deviceStatuses
      ensures Valid()
      ensures var row := s.(statusId := NextKey(old(deviceStatuses), StatusKey));
              && (r.Ok? <==> HasKey(devices, DeviceKey, s.deviceId) && HasKey(branches, BranchKey, s.branchId))
              && (r.Ok? ==> r.value == row && deviceStatuses == old(deviceStatuses) + [row])
              && (r.Err? ==> deviceStatuses == old(deviceStatuses))
    {
      var row := s.(statusId := NextKey(deviceStatuses, StatusKey));
      if !HasKey(devices, DeviceKey, s.deviceId) {
        return Err(ForeignKeyViolation("FK_DeviceStatuses_Devices_DeviceId"));
      }
      if !HasKey(branches, BranchKey, s.branchId) {
        return Err(ForeignKeyViolation("FK_DeviceStatuses_Branches_BranchId"));
      }
      UniqueKeysAppend(deviceStatuses, StatusKey, row);
      ReferencesAppend(deviceStatuses, StatusDeviceRef, devices, DeviceKey, row);
      ReferencesAppend(deviceStatuses, StatusBranchRef, branches, BranchKey, row);
      deviceStatuses := deviceStatuses + [row];
      r := Ok(row);
    }

    // ----- AttendanceLogs -----

    /**
     * `AttendanceLogs.Add(l)` + `SaveChanges`. `IsSynced` has the store
     * default `true`, and EF Core leaves a `false` (the CLR default) out of
     * the INSERT, so every inserted punch is stored as synced.
     */
    method AddLog(l: AttendanceLog) returns (r: Result<AttendanceLog, DbError>)
      requires Valid()
      modifies this`logs
      ensures Valid()
      ensures var row := l.(logId := NextKey(old(logs), LogKey), isSynced := true);
              && (r.Ok? <==> LogFits(old(logs), employees, devices, branches, row))
              && (r.Ok? ==> r.value == row && logs == old(logs) + [row])
              && (r.Err? ==> logs == old(logs))
    {
      var row := l.(logId := NextKey(logs, LogKey), isSynced := true);
      var v := LogViolation(logs, employees, devices, branches, row);
      if v.Some? {
        return Err(v.value);
      }
      UniqueKeysAppend(logs, LogKey, row);
      UniqueKeysAppend(logs, LogTripleKey, row);
      ReferencesAppend(logs, LogDeviceRef, devices, DeviceKey, row);
      ReferencesAppend(logs, LogBranchRef, branches, BranchKey, row);
      ReferencesAppend(logs, LogEmployeeRef, employees, EmployeeKey, row);
      logs := logs + [row];
      r := Ok(row);
    }
  }
}
