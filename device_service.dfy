/**
 * `DeviceService`: the create that inserts a device and its first status
 * in one transaction, the update guarded by the endpoint check, the soft
 * delete and the connection test.
 */
module DeviceService {
  import opened Wrappers
  import opened Text
  import opened Calendar
  import opened Entities
  import opened Tables
  import opened Database
  import opened DeviceRepository

  const DeviceMissing: string := "الجهاز غير موجود"
  const CreatedStatusMessage: string := "تم إنشاء الجهاز"
  const TestStatusMessage: string := "تم الاتصال بنجاح (اختبار)"
  const TestSucceeded: string := "تم الاتصال بالجهاز بنجاح"

  function EndpointTakenMessage(ip: string, port: int): string
  {
    "يوجد جهاز آخر بنفس عنوان IP (" + ip + ":" + IntToString(port) + ")"
  }

  /** The status row written with a new device: offline, stamped, for the device's own branch. */
  function InitialStatus(device: Device, now: Instant): (s: DeviceStatus)
    ensures s.deviceId == device.deviceId && s.branchId == device.branchId && !s.isOnline
  {
    DeviceStatus(0, device.deviceId, device.branchId, false, now, now, now, Some(CreatedStatusMessage))
  }

  /**
   * `CreateDeviceAsync`: refused when any device, active or not, listens at
   * the endpoint; otherwise the device is stored active and stamped, and
   * its initial status is stored with it. All or nothing: when anything is
   * refused (the endpoint, or the branch the device names), neither row is
   * kept.
   */
  method CreateDevice(db: Context, d: Device, now: Instant) returns (r: Result<Device, Failure>)
    requires db.Valid()
    modifies db`devices, db`deviceStatuses
    ensures db.Valid()
    ensures IpPortExists(old(db.devices), d.deviceIp, d.devicePort, None) ==>
              r == Err(Rejected(EndpointTakenMessage(d.deviceIp, d.devicePort)))
    ensures r.Ok? <==> !IpPortExists(old(db.devices), d.deviceIp, d.devicePort, None) && HasKey(db.branches, BranchKey, d.branchId)
    ensures r.Ok? ==>
              var row := d.(deviceId := NextKey(old(db.devices), DeviceKey), isActive := true, createdDate := now);
              var status := InitialStatus(row, now).(statusId := NextKey(old(db.deviceStatuses), StatusKey));
              && r.value == row
              && db.devices == old(db.devices) + [row]
              && db.deviceStatuses == old(db.deviceStatuses) + [status]
    ensures r.Err? ==> db.devices == old(db.devices) && db.deviceStatuses == old(db.deviceStatuses)
  {
    if IpPortExists(db.devices, d.deviceIp, d.devicePort, None) {
      return Err(Rejected(EndpointTakenMessage(d.deviceIp, d.devicePort)));
    }
    var added := db.AddDevice(d.(isActive := true, createdDate := now));
    if added.Err? {
      return Err(DbFailure(added.error));
    }
    var device := added.value;
    HasKeyAppend(old(db.devices), DeviceKey, device, device.deviceId);
    var status := db.AddDeviceStatus(InitialStatus(device, now));
    assert status.Ok?;
    r := Ok(device);
  }

  /**
   * `UpdateDeviceAsync`: refused for a missing device, then for an endpoint
   * held by another device; otherwise the row is replaced, stamped with the
   * modification time, unless the database refuses the branch it names.
   */
  method UpdateDevice(db: Context, d: Device, now: Instant) returns (r: Result<Device, Failure>)
    requires db.Valid()
    modifies db`devices
    ensures db.Valid()
    ensures !HasKey(old(db.devices), DeviceKey, d.deviceId) ==> r == Err(Rejected(DeviceMissing))
    ensures HasKey(old(db.devices), DeviceKey, d.deviceId) && IpPortExists(old(db.devices), d.deviceIp, d.devicePort, Some(d.deviceId)) ==>
              r == Err(Rejected(EndpointTakenMessage(d.deviceIp, d.devicePort)))
    ensures r.Ok? <==> HasKey(old(db.devices), DeviceKey, d.deviceId) &&
                       !IpPortExists(old(db.devices), d.deviceIp, d.devicePort, Some(d.deviceId)) &&
                       HasKey(db.branches, BranchKey, d.branchId)
    ensures r.Ok? ==> var row := d.(modifiedDate := Some(now));
                      r.value == row && db.devices == old(db.devices)[IndexOf(old(db.devices), DeviceKey, d.deviceId) := row]
    ensures r.Err? ==> db.devices == old(db.devices)
  {
    if !HasKey(db.devices, DeviceKey, d.deviceId) {
      return Err(Rejected(DeviceMissing));
    }
    if IpPortExists(db.devices, d.deviceIp, d.devicePort, Some(d.deviceId)) {
      return Err(Rejected(EndpointTakenMessage(d.deviceIp, d.devicePort)));
    }
    var updated := db.UpdateDevice(d.(modifiedDate := Some(now)));
    match updated
    case Ok(row) => r := Ok(row);
    case Err(error) => r := Err(DbFailure(error));
  }

  /** `DeleteDeviceAsync`: the soft delete, so the row stays. */
  method DeleteDevice(db: Context, deviceId: int, now: Instant)
    requires db.Valid()
    modifies db`devices
    ensures db.Valid()
    ensures db.devices == SoftDeleted(old(db.devices), deviceId, now)
  {
    SoftDelete(db, deviceId, now);
  }

  /**
   * `TestDeviceConnectionAsync(id)`: no terminal is contacted; an unknown
   * device fails, any other is marked online with the test message and
   * the call succeeds.
   */
  method TestDeviceConnection(db: Context, deviceId: int, now: Instant) returns (success: bool, message: string)
    requires db.Valid()
    modifies db`devices
    ensures db.Valid()
    ensures success <==> HasKey(old(db.devices), DeviceKey, deviceId)
    ensures message == (if success then TestSucceeded else DeviceMissing)
    ensures db.devices == ConnectionUpdated(old(db.devices), deviceId, true, Some(TestStatusMessage), now)
  {
    if !HasKey(db.devices, DeviceKey, deviceId) {
      return false, DeviceMissing;
    }
    UpdateConnectionStatus(db, deviceId, true, Some(TestStatusMessage), now);
    return true, TestSucceeded;
  }
}
