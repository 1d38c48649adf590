/** The bridged `Device` of examples/bridge-app/esp32/main/Device.cpp as an immutable value.

    Every mutator returns the updated device together with the callback invocations it made.
    A mutator calls the registered callback at most once, passing one change kind, and only when
    the value it writes differs from the value it replaces. */
module Devices {
  import opened CStrings
  import opened Wrappers

  /** Capacity of `mName` (Device.h is not part of this model; 32 is its value there). */
  const DeviceNameSize: nat := 32
  /** Capacity of `mLocation`. */
  const DeviceLocationSize: nat := 32

  /** `char mName[kDeviceNameSize]`, only ever written by `strncpy`. */
  type NameBuffer = s: seq<byte> | |s| == DeviceNameSize && Padded(s)
    witness seq(DeviceNameSize, _ => NUL)

  /** `char mLocation[kDeviceLocationSize]`, only ever written by `strncpy`. */
  type LocationBuffer = s: seq<byte> | |s| == DeviceLocationSize && Padded(s)
    witness seq(DeviceLocationSize, _ => NUL)

  /** `chip::EndpointId`, a 16-bit identifier assigned by the host. */
  type EndpointId = x: int | 0 <= x < 0x1_0000

  /** `kState_On` / `kState_Off`. */
  datatype PowerState = Off | On

  /** The four `kChanged_*` kinds a callback is told about. */
  datatype ChangeKind = ChangedReachable | ChangedState | ChangedLocation | ChangedName

  /** The identity of a registered `DeviceCallback_fn`; a null pointer is `None`. */
  datatype Callback = Callback(id: nat)

  /** One call `mChanged_CB(this, kind)`. */
  datatype ChangeEvent = ChangeEvent(callback: Callback, kind: ChangeKind)

  datatype Device = Device(
    name: NameBuffer,
    location: LocationBuffer,
    state: PowerState,
    reachable: bool,
    endpointId: EndpointId,
    changeCallback: Option<Callback>)

  /** The device after a mutator returns, and the callback calls it made, in order. */
  datatype Mutation = Mutation(device: Device, events: seq<ChangeEvent>)

  function IsOn(d: Device): bool {
    d.state == On
  }

  function IsReachable(d: Device): bool {
    d.reachable
  }

  function GetName(d: Device): seq<byte> {
    d.name
  }

  function GetLocation(d: Device): seq<byte> {
    d.location
  }

  function GetEndpointId(d: Device): EndpointId {
    d.endpointId
  }

  /** The callback call a mutator makes: one event of `kind` when the value changed and a
      callback is registered, none otherwise. */
  function Notify(d: Device, kind: ChangeKind, changed: bool): (events: seq<ChangeEvent>)
    ensures |events| <= 1
    ensures events != [] <==> changed && d.changeCallback != None
    ensures forall e :: e in events ==> Some(e.callback) == d.changeCallback && e.kind == kind
  {
    if changed && d.changeCallback.Some? then [ChangeEvent(d.changeCallback.value, kind)] else []
  }

  /** `Device::Device(szDeviceName, szLocation)`. */
  function NewDevice(deviceName: seq<byte>, location: seq<byte>): (d: Device)
    ensures !IsOn(d) && !IsReachable(d)
    ensures d.endpointId == 0 && d.changeCallback == None
    ensures Text(d.name) == Truncated(deviceName, DeviceNameSize)
    ensures Text(d.location) == Truncated(location, DeviceLocationSize)
  {
    StrNCpyText(deviceName, DeviceNameSize);
    StrNCpyText(location, DeviceLocationSize);
    Device(StrNCpy(deviceName, DeviceNameSize), StrNCpy(location, DeviceLocationSize),
           Off, false, 0, None)
  }

  /** `Device::SetOnOff`. */
  function SetOnOff(d: Device, aOn: bool): (m: Mutation)
    ensures IsOn(m.device) == aOn
    ensures m.device == d.(state := m.device.state)
    ensures |m.events| <= 1
    ensures m.events != [] <==> IsOn(d) != aOn && d.changeCallback.Some?
    ensures m.events != [] ==> m.events[0] == ChangeEvent(d.changeCallback.value, ChangedState)
  {
    var changed := if aOn then d.state != On else d.state != Off;
    var d' := d.(state := if aOn then On else Off);
    Mutation(d', Notify(d', ChangedState, changed))
  }

  /** `Device::SetReachable`. */
  function SetReachable(d: Device, aReachable: bool): (m: Mutation)
    ensures IsReachable(m.device) == aReachable
    ensures m.device == d.(reachable := aReachable)
    ensures |m.events| <= 1
    ensures m.events != [] <==> IsReachable(d) != aReachable && d.changeCallback.Some?
    ensures m.events != [] ==> m.events[0] == ChangeEvent(d.changeCallback.value, ChangedReachable)
  {
    var changed := d.reachable != aReachable;
    var d' := d.(reachable := aReachable);
    Mutation(d', Notify(d', ChangedReachable, changed))
  }

  /** `Device::SetName`: `strncmp` against the stored name decides whether anything changed,
      then `strncpy` stores the new name. */
  function SetName(d: Device, szName: seq<byte>): (m: Mutation)
    ensures Text(m.device.name) == Truncated(szName, DeviceNameSize)
    ensures m.device == d.(name := m.device.name)
    ensures |m.events| <= 1
    ensures m.events != [] <==> d.name != m.device.name && d.changeCallback.Some?
    ensures m.events != [] ==> m.events[0] == ChangeEvent(d.changeCallback.value, ChangedName)
  {
    var changed := StrNCmp(d.name, szName, DeviceNameSize) != 0;
    StoredCompare(d.name, szName);
    StrNCpyText(szName, DeviceNameSize);
    var d' := d.(name := StrNCpy(szName, DeviceNameSize));
    Mutation(d', Notify(d', ChangedName, changed))
  }

  /** `Device::SetLocation`: the same protocol as `SetName`, on `mLocation`. */
  function SetLocation(d: Device, szLocation: seq<byte>): (m: Mutation)
    ensures Text(m.device.location) == Truncated(szLocation, DeviceLocationSize)
    ensures m.device == d.(location := m.device.location)
    ensures |m.events| <= 1
    ensures m.events != [] <==> d.location != m.device.location && d.changeCallback.Some?
    ensures m.events != [] ==> m.events[0] == ChangeEvent(d.changeCallback.value, ChangedLocation)
  {
    var changed := StrNCmp(d.location, szLocation, DeviceLocationSize) != 0;
    StoredCompare(d.location, szLocation);
    StrNCpyText(szLocation, DeviceLocationSize);
    var d' := d.(location := StrNCpy(szLocation, DeviceLocationSize));
    Mutation(d', Notify(d', ChangedLocation, changed))
  }

  /** `Device::SetChangeCallback`: the single observer slot is overwritten. */
  function SetChangeCallback(d: Device, aChangedCallback: Option<Callback>): (r: Device)
    ensures r.changeCallback == aChangedCallback
    ensures r.name == d.name && r.location == d.location && r.state == d.state
    ensures r.reachable == d.reachable && r.endpointId == d.endpointId
  {
    d.(changeCallback := aChangedCallback)
  }

  /** `IsOn` and `IsReachable` read back what the last `SetOnOff` and `SetReachable` wrote, and
      no other mutator disturbs them. */
  lemma StatusReadsBack(d: Device, b: bool, s: seq<byte>, cb: Option<Callback>)
    ensures IsOn(SetOnOff(d, b).device) == b && IsReachable(SetReachable(d, b).device) == b
    ensures IsOn(SetReachable(d, b).device) == IsOn(d) && IsReachable(SetOnOff(d, b).device) == IsReachable(d)
    ensures IsOn(SetName(d, s).device) == IsOn(d) && IsReachable(SetName(d, s).device) == IsReachable(d)
    ensures IsOn(SetLocation(d, s).device) == IsOn(d)
    ensures IsReachable(SetLocation(d, s).device) == IsReachable(d)
    ensures IsOn(SetChangeCallback(d, cb)) == IsOn(d) && IsReachable(SetChangeCallback(d, cb)) == IsReachable(d)
  {
  }

  /** The stored name is exactly what `strncpy` makes of the last name given. */
  lemma SetNameStores(d: Device, szName: seq<byte>)
    ensures SetName(d, szName).device.name == StrNCpy(szName, DeviceNameSize)
    ensures StrLen(szName) < DeviceNameSize ==> Text(SetName(d, szName).device.name) == Text(szName)
    ensures StrLen(szName) >= DeviceNameSize ==>
              SetName(d, szName).device.name == szName[..DeviceNameSize]
    ensures StrLen(szName) >= DeviceNameSize ==> NUL !in SetName(d, szName).device.name
  {
    var stored := SetName(d, szName).device.name;
    StrNCpyText(szName, DeviceNameSize);
    if StrLen(szName) >= DeviceNameSize {
      assert forall i :: 0 <= i < DeviceNameSize ==> stored[i] == szName[i] != NUL;
    }
  }

  /** `SetOnOff(b)` twice: the second call changes nothing and calls nobody, so the pair makes
      at most one callback call. */
  lemma SetOnOffIdempotent(d: Device, b: bool)
    ensures SetOnOff(SetOnOff(d, b).device, b).events == []
    ensures SetOnOff(SetOnOff(d, b).device, b).device == SetOnOff(d, b).device
    ensures |SetOnOff(d, b).events + SetOnOff(SetOnOff(d, b).device, b).events| <= 1
  {
  }

  /** `SetReachable(r)` twice: the second call changes nothing and calls nobody. */
  lemma SetReachableIdempotent(d: Device, r: bool)
    ensures SetReachable(SetReachable(d, r).device, r).events == []
    ensures SetReachable(SetReachable(d, r).device, r).device == SetReachable(d, r).device
    ensures |SetReachable(d, r).events + SetReachable(SetReachable(d, r).device, r).events| <= 1
  {
  }

  /** `SetName(s)` twice: the second call finds the bounded copy already stored. */
  lemma SetNameIdempotent(d: Device, s: seq<byte>)
    ensures SetName(SetName(d, s).device, s).events == []
    ensures SetName(SetName(d, s).device, s).device == SetName(d, s).device
  {
    SetNameStores(d, s);
    SetNameStores(SetName(d, s).device, s);
  }

  /** `SetLocation(s)` twice: the second call finds the bounded copy already stored. */
  lemma SetLocationIdempotent(d: Device, s: seq<byte>)
    ensures SetLocation(SetLocation(d, s).device, s).events == []
    ensures SetLocation(SetLocation(d, s).device, s).device == SetLocation(d, s).device
  {
    var m := SetLocation(d, s);
    StrNCpyText(s, DeviceLocationSize);
    StoredCompare(d.location, s);
    StoredCompare(m.device.location, s);
  }

  /** Two names that agree on their first `DeviceNameSize` bytes store the same array, so
      replacing one by the other calls nobody: differences past the capacity are invisible. */
  lemma SetNameBeyondCapacity(d: Device, s: seq<byte>, t: seq<byte>)
    requires |s| >= DeviceNameSize && |t| >= DeviceNameSize
    requires s[..DeviceNameSize] == t[..DeviceNameSize]
    ensures SetName(d, s).device == SetName(d, t).device
    ensures SetName(SetName(d, s).device, t).events == []
  {
    StrNCpyPrefix(s, DeviceNameSize);
    StrNCpyPrefix(t, DeviceNameSize);
    SetNameStores(d, s);
    SetNameStores(d, t);
    SetNameStores(SetName(d, s).device, t);
  }

  /** The last registered callback wins; the one before it is forgotten. */
  lemma LastCallbackWins(d: Device, first: Option<Callback>, second: Option<Callback>, b: bool)
    ensures SetChangeCallback(SetChangeCallback(d, first), second) == SetChangeCallback(d, second)
    ensures forall i :: 0 <= i < |SetOnOff(SetChangeCallback(SetChangeCallback(d, first), second), b).events| ==>
              Some(SetOnOff(SetChangeCallback(SetChangeCallback(d, first), second), b).events[i].callback) == second
  {
  }

  /** With no callback registered every mutator still writes its field but calls nobody. */
  lemma NoCallbackNoEvents(d: Device, b: bool, s: seq<byte>)
    requires d.changeCallback == None
    ensures SetOnOff(d, b).events == [] && IsOn(SetOnOff(d, b).device) == b
    ensures SetReachable(d, b).events == [] && IsReachable(SetReachable(d, b).device) == b
    ensures SetName(d, s).events == [] && SetName(d, s).device.name == StrNCpy(s, DeviceNameSize)
    ensures SetLocation(d, s).events == []
    ensures SetLocation(d, s).device.location == StrNCpy(s, DeviceLocationSize)
  {
    SetNameStores(d, s);
    StoredCompare(d.location, s);
  }
}
