/**
 * `DeviceRepository`: the device listings (by name), the endpoint check
 * the service runs before writing, the soft delete, the online and offline
 * lists and the connection-status update.
 */
module DeviceRepository {
  import opened Wrappers
  import opened Seqs
  import opened Text
  import opened Calendar
  import opened Entities
  import opened Tables
  import opened Database

  function DeviceName(d: Device): string { d.deviceName }

  predicate DeviceNameOrdered(s: seq<Device>)
  {
    forall i, j :: 0 <= i < j < |s| ==> LexLe(s[i].deviceName, s[j].deviceName)
  }

  /** `OrderBy(d => d.DeviceName)`, ordinal and stable. */
  function OrderByName(s: seq<Device>): (r: seq<Device>)
    ensures |r| == |s| && multiset(r) == multiset(s)
    ensures DeviceNameOrdered(r)
  {
    ByTextIsPreorder(DeviceName);
    SortBySorted(s, ByText(DeviceName));
    var r := SortBy(s, ByText(DeviceName));
    assert forall i, j :: 0 <= i < j < |r| ==> ByText(DeviceName)(r[i], r[j]) == LexLe(DeviceName(r[i]), DeviceName(r[j]));
    r
  }

  function DeviceListed(includeInactive: bool): Device -> bool
  {
    (d: Device) => includeInactive || d.isActive
  }

  /** `GetAllAsync(includeInactive)`: the active devices (or all of them), by name. */
  function GetAll(devices: seq<Device>, includeInactive: bool): (r: seq<Device>)
    ensures forall i :: 0 <= i < |r| ==> r[i] in devices && (includeInactive || r[i].isActive)
    ensures forall i :: 0 <= i < |devices| && (includeInactive || devices[i].isActive) ==> devices[i] in r
    ensures multiset(r) == multiset(Filter(devices, DeviceListed(includeInactive)))
    ensures DeviceNameOrdered(r)
  {
    SortFilterMembers(devices, DeviceListed(includeInactive), ByText(DeviceName));
    OrderByName(Filter(devices, DeviceListed(includeInactive)))
  }

  function AtBranch(branchId: int): Device -> bool
  {
    (d: Device) => d.branchId == branchId && d.isActive
  }

  /** `GetByBranchIdAsync(branch)`: the branch's active devices, by name. */
  function GetByBranchId(devices: seq<Device>, branchId: int): (r: seq<Device>)
    ensures forall i :: 0 <= i < |r| ==> r[i] in devices && r[i].isActive && r[i].branchId == branchId
    ensures forall i :: 0 <= i < |devices| && devices[i].isActive && devices[i].branchId == branchId ==> devices[i] in r
    ensures multiset(r) == multiset(Filter(devices, AtBranch(branchId)))
    ensures DeviceNameOrdered(r)
  {
    SortFilterMembers(devices, AtBranch(branchId), ByText(DeviceName));
    OrderByName(Filter(devices, AtBranch(branchId)))
  }

  /** `IpPortExistsAsync(ip, port, exclude)`: a device other than the excluded one listens at that endpoint; inactive devices count. */
  function IpPortExists(devices: seq<Device>, ip: string, port: int, excludeDeviceId: Option<int>): (r: bool)
    ensures r <==> exists j :: 0 <= j < |devices| && devices[j].deviceIp == ip && devices[j].devicePort == port &&
                              (excludeDeviceId.Some? ==> devices[j].deviceId != excludeDeviceId.value)
  {
    exists j :: 0 <= j < |devices| && devices[j].deviceIp == ip && devices[j].devicePort == port &&
                (excludeDeviceId.Some? ==> devices[j].deviceId != excludeDeviceId.value)
  }

  /** The check excluding a device's own id asks the unique index's question about writing it. */
  lemma EndpointCheckMatchesIndex(devices: seq<Device>, d: Device)
    ensures !IpPortExists(devices, d.deviceIp, d.devicePort, Some(d.deviceId)) <==>
            forall j :: 0 <= j < |devices| && devices[j].deviceId != d.deviceId ==> DeviceEndpointKey(devices[j]) != DeviceEndpointKey(d)
  {
  }

  /** A stored row rewritten with the same key, endpoint and branch still fits the table. */
  lemma StoredDeviceFits(devices: seq<Device>, branches: seq<Branch>, i: int, row: Device)
    requires DevicesValid(devices, branches) && 0 <= i < |devices|
    requires row.deviceId == devices[i].deviceId && DeviceEndpointKey(row) == DeviceEndpointKey(devices[i])
    requires row.branchId == devices[i].branchId
    ensures DeviceFits(devices, branches, row)
  {
    forall j | 0 <= j < |devices| && devices[j].deviceId != row.deviceId
      ensures DeviceEndpointKey(devices[j]) != DeviceEndpointKey(row)
    {
      if j < i {
        assert DeviceEndpointKey(devices[j]) != DeviceEndpointKey(devices[i]);
      } else {
        assert DeviceEndpointKey(devices[i]) != DeviceEndpointKey(devices[j]);
      }
    }
    assert DeviceBranchRef(devices[i]).Some?;
  }

  /** The table after `SoftDeleteAsync(id)` at time `now`: the row stays, inactive and stamped. */
  function SoftDeleted(devices: seq<Device>, deviceId: int, now: Instant): (r: seq<Device>)
    ensures |r| == |devices|
    ensures forall j :: 0 <= j < |r| ==> r[j].deviceId == devices[j].deviceId && DeviceEndpointKey(r[j]) == DeviceEndpointKey(devices[j])
    ensures forall j :: 0 <= j < |r| && devices[j].deviceId != deviceId ==> r[j] == devices[j]
    ensures HasKey(devices, DeviceKey, deviceId) ==>
              var i := IndexOf(devices, DeviceKey, deviceId);
              !r[i].isActive && r[i].modifiedDate == Some(now) &&
              r[i].(isActive := devices[i].isActive, modifiedDate := devices[i].modifiedDate) == devices[i]
    ensures !HasKey(devices, DeviceKey, deviceId) ==> r == devices
  {
    var i := IndexOf(devices, DeviceKey, deviceId);
    if i == -1 then devices
    else devices[i := devices[i].(isActive := false, modifiedDate := Some(now))]
  }

  /** `SoftDeleteAsync(id)`; a missing id changes nothing. */
  method SoftDelete(db: Context, deviceId: int, now: Instant)
    requires db.Valid()
    modifies db`devices
    ensures db.Valid()
    ensures db.devices == SoftDeleted(old(db.devices), deviceId, now)
  {
    var i := IndexOf(db.devices, DeviceKey, deviceId);
    if i >= 0 {
      var row := db.devices[i].(isActive := false, modifiedDate := Some(now));
      StoredDeviceFits(db.devices, db.branches, i, row);
      var r := db.UpdateDevice(row);
      assert r.Ok?;
    }
  }

  function IsActiveDevice(d: Device): bool { d.isActive }
  function IsOnline(d: Device): bool { d.isOnline }
  function IsOffline(d: Device): bool { !d.isOnline }
  function ActiveOnline(d: Device): bool { d.isActive && d.isOnline }
  function ActiveOffline(d: Device): bool { d.isActive && !d.isOnline }

  /** `GetOnlineDevicesAsync`: the active devices marked online, in table order. */
  function GetOnlineDevices(devices: seq<Device>): (r: seq<Device>)
    ensures forall i :: 0 <= i < |r| ==> r[i] in devices && r[i].isActive && r[i].isOnline
    ensures forall i :: 0 <= i < |devices| && devices[i].isActive && devices[i].isOnline ==> devices[i] in r
    ensures forall d :: multiset(r)[d] == if d.isActive && d.isOnline then multiset(devices)[d] else 0
  {
    forall d
      ensures multiset(Filter(devices, ActiveOnline))[d] == if d.isActive && d.isOnline then multiset(devices)[d] else 0
    {
      FilterMultiplicity(devices, ActiveOnline, d);
    }
    Filter(devices, ActiveOnline)
  }

  /** `GetOfflineDevicesAsync`: the active devices marked offline, in table order. */
  function GetOfflineDevices(devices: seq<Device>): (r: seq<Device>)
    ensures forall i :: 0 <= i < |r| ==> r[i] in devices && r[i].isActive && !r[i].isOnline
    ensures forall i :: 0 <= i < |devices| && devices[i].isActive && !devices[i].isOnline ==> devices[i] in r
    ensures forall d :: multiset(r)[d] == if d.isActive && !d.isOnline then multiset(devices)[d] else 0
  {
    forall d
      ensures multiset(Filter(devices, ActiveOffline))[d] == if d.isActive && !d.isOnline then multiset(devices)[d] else 0
    {
      FilterMultiplicity(devices, ActiveOffline, d);
    }
    Filter(devices, ActiveOffline)
  }

  /**
   * The two lists split the active devices: together they are as long as
   * the active listing, and no device is on both.
   */
  lemma OnlineOfflinePartition(devices: seq<Device>)
    ensures |GetOnlineDevices(devices)| + |GetOfflineDevices(devices)| == |Filter(devices, IsActiveDevice)|
    ensures forall x :: x in GetOnlineDevices(devices) ==> x !in GetOfflineDevices(devices)
  {
    var active := Filter(devices, IsActiveDevice);
    FilterFilter(devices, IsActiveDevice, IsOnline, ActiveOnline);
    FilterFilter(devices, IsActiveDevice, IsOffline, ActiveOffline);
    FilterSplit(active, IsOnline, IsOffline);
    forall x | x in GetOnlineDevices(devices)
      ensures x !in GetOfflineDevices(devices)
    {
      var on := GetOnlineDevices(devices);
      var i :| 0 <= i < |on| && on[i] == x;
    }
  }

  /**
   * The table after `UpdateConnectionStatusAsync(id, isOnline, message)` at
   * time `now`: that device gets the flag, the check time and the message
   * (a `null` message clears it); its last connection time moves only when
   * it is online. A missing id changes nothing.
   */
  function ConnectionUpdated(devices: seq<Device>, deviceId: int, isOnline: bool, statusMessage: Option<string>, now: Instant): (r: seq<Device>)
    ensures |r| == |devices|
    ensures forall j :: 0 <= j < |r| && devices[j].deviceId != deviceId ==> r[j] == devices[j]
    ensures HasKey(devices, DeviceKey, deviceId) ==>
              var i := IndexOf(devices, DeviceKey, deviceId);
              && r[i].isOnline == isOnline && r[i].lastCheckTime == Some(now) && r[i].connectionStatus == statusMessage
              && r[i].lastConnectionTime == (if isOnline then Some(now) else devices[i].lastConnectionTime)
              && r[i].(isOnline := devices[i].isOnline, lastCheckTime := devices[i].lastCheckTime,
                       connectionStatus := devices[i].connectionStatus, lastConnectionTime := devices[i].lastConnectionTime) == devices[i]
    ensures !HasKey(devices, DeviceKey, deviceId) ==> r == devices
  {
    var i := IndexOf(devices, DeviceKey, deviceId);
    if i == -1 then devices
    else
      var d := devices[i];
      var stamped := d.(isOnline := isOnline, lastCheckTime := Some(now), connectionStatus := statusMessage);
      devices[i := if isOnline then stamped.(lastConnectionTime := Some(now)) else stamped]
  }

  /** `UpdateConnectionStatusAsync(id, isOnline, message)`. */
  method UpdateConnectionStatus(db: Context, deviceId: int, isOnline: bool, statusMessage: Option<string>, now: Instant)
    requires db.Valid()
    modifies db`devices
    ensures db.Valid()
    ensures db.devices == ConnectionUpdated(old(db.devices), deviceId, isOnline, statusMessage, now)
  {
    var i := IndexOf(db.devices, DeviceKey, deviceId);
    if i >= 0 {
      var row := db.devices[i].(isOnline := isOnline, lastCheckTime := Some(now), connectionStatus := statusMessage);
      if isOnline {
        row := row.(lastConnectionTime := Some(now));
      }
      StoredDeviceFits(db.devices, db.branches, i, row);
      var r := db.UpdateDevice(row);
      assert r.Ok?;
    }
  }

  /** Marking an active device online moves it from the offline list to the online list. */
  lemma MarkedOnlineIsListedOnline(devices: seq<Device>, deviceId: int, statusMessage: Option<string>, now: Instant)
    requires HasKey(devices, DeviceKey, deviceId)
    requires devices[IndexOf(devices, DeviceKey, deviceId)].isActive
    ensures var r := ConnectionUpdated(devices, deviceId, true, statusMessage, now);
            var d := r[IndexOf(devices, DeviceKey, deviceId)];
            d in GetOnlineDevices(r) && d !in GetOfflineDevices(r)
  {
    var r := ConnectionUpdated(devices, deviceId, true, statusMessage, now);
    OnlineOfflinePartition(r);
  }
}
