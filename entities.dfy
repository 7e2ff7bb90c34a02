/**
 * The records of the attendance database (one datatype per table row) and
 * the status values the services attach to attendance rows, each with the
 * Arabic label the application displays.
 */
module Entities {
  import opened Wrappers
  import opened Calendar

  /** A punch recorded by a biometric terminal (table `AttendanceLogs`). */
  datatype AttendanceLog = AttendanceLog(
    logId: int,
    biometricUserId: string,
    employeeId: Option<int>,
    deviceId: int,
    branchId: int,
    attendanceTime: Instant,
    attendanceType: Option<string>,
    isSynced: bool,
    syncedDate: Option<Instant>,
    isProcessed: bool,
    processedDate: Option<Instant>)
  {
    /** The key of the unique index on (BiometricUserId, AttendanceTime, DeviceId). */
    function Triple(): (string, Instant, int)
    {
      (biometricUserId, attendanceTime, deviceId)
    }
  }

  /** Table `Employees`; `ssn` is shown as the employee number. */
  datatype Employee = Employee(
    employeeId: int,
    biometricUserId: string,
    employeeName: string,
    ssn: Option<string>,
    phoneNumber: Option<string>,
    departmentId: Option<int>,
    defaultShiftId: Option<int>,
    isActive: bool,
    createdDate: Instant,
    modifiedDate: Option<Instant>)

  /** Table `Departments`, a tree through `parentDepartmentId`. */
  datatype Department = Department(
    departmentId: int,
    departmentName: string,
    departmentCode: Option<string>,
    parentDepartmentId: Option<int>,
    isActive: bool,
    createdDate: Instant,
    modifiedDate: Option<Instant>)

  /** Table `WorkShifts`; times of day are `TimeSpan`s in seconds. */
  datatype WorkShift = WorkShift(
    shiftId: int,
    shiftName: string,
    startTime: int,
    endTime: int,
    lateMinutes: int,
    earlyMinutes: int,
    checkInWindowStart: Option<int>,
    checkOutWindowEnd: Option<int>,
    breakMinutes: int,
    isActive: bool,
    createdDate: Instant,
    modifiedDate: Option<Instant>)

  /** Table `EmployeeShiftAssignments`: a dated override of an employee's default shift. */
  datatype ShiftAssignment = ShiftAssignment(
    assignmentId: int,
    employeeId: int,
    shiftId: int,
    effectiveFrom: Instant,
    effectiveTo: Option<Instant>,
    isActive: bool)

  /** Table `Branches`. */
  datatype Branch = Branch(
    branchId: int,
    branchCode: string,
    branchName: string,
    isActive: bool,
    createdDate: Instant,
    modifiedDate: Option<Instant>)

  /** Table `Devices`: a terminal at a branch, reached at `deviceIp:devicePort`. */
  datatype Device = Device(
    deviceId: int,
    branchId: int,
    deviceName: string,
    deviceIp: string,
    devicePort: int,
    isActive: bool,
    isOnline: bool,
    lastCheckTime: Option<Instant>,
    lastConnectionTime: Option<Instant>,
    connectionStatus: Option<string>,
    createdDate: Instant,
    modifiedDate: Option<Instant>)

  /** Table `DeviceStatuses`: a status snapshot of one device. */
  datatype DeviceStatus = DeviceStatus(
    statusId: int,
    deviceId: int,
    branchId: int,
    isOnline: bool,
    statusTime: Instant,
    lastUpdateTime: Instant,
    createdDate: Instant,
    statusMessage: Option<string>)

  // ----- statuses -----

  /** The day classification of the per-day reconciler. */
  datatype DayStatus = CheckOutOnly | DayAbsent | CheckInOnly | HalfDay | FullAttendance
  {
    function Label(): string
    {
      match this
      case CheckOutOnly => "خروج فقط ⚠"
      case DayAbsent => "غياب"
      case CheckInOnly => "دخول فقط"
      case HalfDay => "نصف يوم"
      case FullAttendance => "حضور كامل"
    }
  }

  /** The three-valued status of a report item. */
  datatype ReportStatus = Present | NoCheckOut | Absent
  {
    function Label(): string
    {
      match this
      case Present => "حاضر"
      case NoCheckOut => "لم يسجل خروج"
      case Absent => "غائب"
    }
  }

  /** The punctuality of a present employee in the daily summary. */
  datatype Punctuality = OnTime | Late
  {
    function Label(): string
    {
      match this
      case OnTime => "في الوقت"
      case Late => "متأخر"
    }
  }

  /** Distinct day statuses are shown with distinct labels. */
  lemma DayStatusLabelInjective(a: DayStatus, b: DayStatus)
    requires a.Label() == b.Label()
    ensures a == b
  {
    assert a.Label()[0] == b.Label()[0];
  }

  /** Distinct report statuses are shown with distinct labels. */
  lemma ReportStatusLabelInjective(a: ReportStatus, b: ReportStatus)
    requires a.Label() == b.Label()
    ensures a == b
  {
    assert a.Label()[0] == b.Label()[0];
  }
}
