/**
 * `WorkShiftService`: the time-window validation, the create and update
 * guarded by the name check, and the delete guarded by the shift's
 * employees.
 */
module WorkShiftService {
  import opened Wrappers
  import opened Seqs
  import opened Text
  import opened Calendar
  import opened Entities
  import opened Tables
  import opened Database
  import opened WorkShiftRepository

  const WindowStartAfterStart: string := "بداية نافذة الدخول يجب أن تكون قبل وقت بداية الشفت"
  const WindowEndBeforeEnd: string := "نهاية نافذة الخروج يجب أن تكون بعد وقت نهاية الشفت"
  const NegativeBreak: string := "وقت الاستراحة لا يمكن أن يكون سالباً"
  const NegativeTolerance: string := "دقائق التأخير والخروج المبكر لا يمكن أن تكون سالبة"
  const ShiftMissing: string := "الشفت غير موجود"

  function DuplicateNameMessage(shiftName: string): string
  {
    "اسم الشفت '" + shiftName + "' موجود مسبقاً"
  }

  function InUseMessage(employeeCount: int): string
  {
    "لا يمكن حذف الشفت لأنه مرتبط بـ " + IntToString(employeeCount) + " موظف"
  }

  /**
   * A shift the service accepts: the check-in window (when set) opens no
   * later than the start, the check-out window (when set) closes no earlier
   * than the end, and the break and tolerances are not negative.
   */
  predicate ShiftTimesValid(s: WorkShift)
  {
    && (s.checkInWindowStart.Some? ==> s.checkInWindowStart.value <= s.startTime)
    && (s.checkOutWindowEnd.Some? ==> s.checkOutWindowEnd.value >= s.endTime)
    && s.breakMinutes >= 0
    && s.lateMinutes >= 0 && s.earlyMinutes >= 0
  }

  /**
   * `ValidateShiftTimes`: `None` when the shift passes, otherwise the
   * message of the first check that fails, in the order the checks run.
   */
  function ValidateShiftTimes(s: WorkShift): (r: Option<string>)
    ensures r.None? <==> ShiftTimesValid(s)
    ensures s.checkInWindowStart.Some? && s.checkInWindowStart.value > s.startTime ==> r == Some(WindowStartAfterStart)
    ensures r == Some(WindowEndBeforeEnd) <==>
              (s.checkInWindowStart.Some? ==> s.checkInWindowStart.value <= s.startTime) &&
              s.checkOutWindowEnd.Some? && s.checkOutWindowEnd.value < s.endTime
    ensures r == Some(NegativeTolerance) ==> s.breakMinutes >= 0
  {
    if s.checkInWindowStart.Some? && s.checkInWindowStart.value > s.startTime then Some(WindowStartAfterStart)
    else if s.checkOutWindowEnd.Some? && s.checkOutWindowEnd.value < s.endTime then Some(WindowEndBeforeEnd)
    else if s.breakMinutes < 0 then Some(NegativeBreak)
    else if s.lateMinutes < 0 || s.earlyMinutes < 0 then Some(NegativeTolerance)
    else None
  }

  /** A window equal to the shift's own start or end is accepted. */
  lemma WindowBoundsInclusive(s: WorkShift)
    requires s.checkInWindowStart == Some(s.startTime) && s.checkOutWindowEnd == Some(s.endTime)
    requires s.breakMinutes >= 0 && s.lateMinutes >= 0 && s.earlyMinutes >= 0
    ensures ValidateShiftTimes(s).None?
  {
  }

  /** The name check with no exclusion asks whether the name is in the table. */
  lemma NameExistsIsHasKey(shifts: seq<WorkShift>, shiftName: string)
    ensures NameExists(shifts, shiftName, None) <==> HasKey(shifts, ShiftNameKey, shiftName)
  {
    if HasKey(shifts, ShiftNameKey, shiftName) {
      var j :| 0 <= j < |shifts| && ShiftNameKey(shifts[j]) == shiftName;
      assert shifts[j].shiftName == shiftName;
    }
  }

  /**
   * `CreateShiftAsync`: refused when any shift, active or not, has the
   * name, then when the times are invalid; otherwise stored active and
   * stamped. Distinct names stay distinct.
   */
  method CreateShift(db: Context, s: WorkShift, now: Instant) returns (r: Result<WorkShift, Failure>)
    requires db.Valid()
    modifies db`shifts
    ensures db.Valid()
    ensures r.Ok? <==> !NameExists(old(db.shifts), s.shiftName, None) && ShiftTimesValid(s)
    ensures NameExists(old(db.shifts), s.shiftName, None) ==> r == Err(Rejected(DuplicateNameMessage(s.shiftName)))
    ensures !NameExists(old(db.shifts), s.shiftName, None) && !ShiftTimesValid(s) ==>
              r == Err(Rejected(ValidateShiftTimes(s).value))
    ensures r.Ok? ==> var row := s.(shiftId := NextKey(old(db.shifts), ShiftKey), isActive := true, createdDate := now);
                      r.value == row && db.shifts == old(db.shifts) + [row]
    ensures r.Err? ==> db.shifts == old(db.shifts)
    ensures UniqueKeys(old(db.shifts), ShiftNameKey) ==> UniqueKeys(db.shifts, ShiftNameKey)
  {
    if NameExists(db.shifts, s.shiftName, None) {
      return Err(Rejected(DuplicateNameMessage(s.shiftName)));
    }
    var invalid := ValidateShiftTimes(s);
    if invalid.Some? {
      return Err(Rejected(invalid.value));
    }
    NameExistsIsHasKey(db.shifts, s.shiftName);
    var row := db.AddShift(s.(isActive := true, createdDate := now));
    UniqueKeysAppend(old(db.shifts), ShiftNameKey, row);
    r := Ok(row);
  }

  /**
   * `UpdateShiftAsync`: refused for a missing shift, then for a name held by
   * another shift, then for invalid times; otherwise the row is replaced,
   * stamped with the modification time. Distinct names stay distinct.
   */
  method UpdateShift(db: Context, s: WorkShift, now: Instant) returns (r: Result<WorkShift, Failure>)
    requires db.Valid()
    modifies db`shifts
    ensures db.Valid()
    ensures !HasKey(old(db.shifts), ShiftKey, s.shiftId) ==> r == Err(Rejected(ShiftMissing))
    ensures HasKey(old(db.shifts), ShiftKey, s.shiftId) && NameExists(old(db.shifts), s.shiftName, Some(s.shiftId)) ==>
              r == Err(Rejected(DuplicateNameMessage(s.shiftName)))
    ensures r.Ok? <==> HasKey(old(db.shifts), ShiftKey, s.shiftId) &&
                       !NameExists(old(db.shifts), s.shiftName, Some(s.shiftId)) && ShiftTimesValid(s)
    ensures r.Ok? ==> var row := s.(modifiedDate := Some(now));
                      r.value == row && db.shifts == old(db.shifts)[IndexOf(old(db.shifts), ShiftKey, s.shiftId) := row]
    ensures r.Err? ==> db.shifts == old(db.shifts)
    ensures UniqueKeys(old(db.shifts), ShiftNameKey) ==> UniqueKeys(db.shifts, ShiftNameKey)
  {
    if !HasKey(db.shifts, ShiftKey, s.shiftId) {
      return Err(Rejected(ShiftMissing));
    }
    if NameExists(db.shifts, s.shiftName, Some(s.shiftId)) {
      return Err(Rejected(DuplicateNameMessage(s.shiftName)));
    }
    var invalid := ValidateShiftTimes(s);
    if invalid.Some? {
      return Err(Rejected(invalid.value));
    }
    var row := s.(modifiedDate := Some(now));
    var i := IndexOf(db.shifts, ShiftKey, s.shiftId);
    if UniqueKeys(db.shifts, ShiftNameKey) {
      NameCheckKeepsNamesUnique(db.shifts, i, row);
    }
    var updated := db.UpdateShift(row);
    match updated
    case Ok(stored) => r := Ok(stored);
    case Err(error) => r := Err(DbFailure(error));
  }

  /** `CanDeleteShiftAsync`: no active employee has the shift as default. */
  function CanDeleteShift(employees: seq<Employee>, shiftId: int): (r: bool)
    ensures r <==> forall j :: 0 <= j < |employees| && employees[j].isActive ==> employees[j].defaultShiftId != Some(shiftId)
  {
    EmployeeCountZero(employees, shiftId);
    GetEmployeeCount(employees, shiftId) == 0
  }

  /**
   * `DeleteShiftAsync`: refused, naming the count, while active employees
   * have the shift as default; otherwise the shift is soft-deleted (a
   * missing id changes nothing and succeeds).
   */
  method DeleteShift(db: Context, shiftId: int, now: Instant) returns (r: Result<(), Failure>)
    requires db.Valid()
    modifies db`shifts
    ensures db.Valid()
    ensures r.Ok? <==> CanDeleteShift(db.employees, shiftId)
    ensures r.Ok? ==> db.shifts == SoftDeleted(old(db.shifts), shiftId, now)
    ensures r.Err? ==> r.error == Rejected(InUseMessage(GetEmployeeCount(db.employees, shiftId))) && db.shifts == old(db.shifts)
  {
    var employeeCount := GetEmployeeCount(db.employees, shiftId);
    if employeeCount > 0 {
      return Err(Rejected(InUseMessage(employeeCount)));
    }
    SoftDelete(db, shiftId, now);
    r := Ok(());
  }
}
