/** End-to-end behaviour of the bridge as `app_main` sets it up: devices built with a name and a
    location, `HandleDeviceStatusChanged` registered as every device's callback, and mutators
    whose callback calls turn into attribute reports. */
module Scenarios {
  import opened CStrings
  import opened Wrappers
  import opened Devices
  import opened Zcl
  import opened Bridge

  /** A device as `app_main` prepares it: constructed and given the bridge's callback. The
      endpoint is a parameter standing for a registration with the host that this `app_main`
      does not perform; with `endpoint` 0 the device is exactly the one `app_main` builds. */
  function Bridged(deviceName: seq<byte>, location: seq<byte>, cb: Callback, endpoint: EndpointId): (d: Device)
    ensures d.changeCallback == Some(cb) && d.endpointId == endpoint
    ensures !IsOn(d) && !IsReachable(d)
    ensures Text(d.name) == Truncated(deviceName, DeviceNameSize)
    ensures Text(d.location) == Truncated(location, DeviceLocationSize)
  {
    SetChangeCallback(NewDevice(deviceName, location), Some(cb)).(endpointId := endpoint)
  }

  /** Moving a device with the bridge's callback to a location whose bounded text differs from
      the stored one calls the callback once, with the Location kind, and the bridge reports the
      LabelList of FixedLabel on the device's endpoint: one entry, "room" and the new location
      as given, each cut to 16 bytes and zero-padded. */
  lemma LocationChangeReport(d: Device, szLocation: seq<byte>, cb: Callback)
    requires d.changeCallback == Some(cb)
    requires Text(d.location) != Truncated(szLocation, DeviceLocationSize)
    ensures SetLocation(d, szLocation).events == [ChangeEvent(cb, ChangedLocation)]
    ensures Dispatch(SetLocation(d, szLocation).device, SetLocation(d, szLocation).events)
              == [Report(d.endpointId, FixedLabelCluster, LabelListAttribute, ArrayType,
                         Labels(LabelListValue(szLocation)))]
  {
    var m := SetLocation(d, szLocation);
    assert |m.events| == 1;
    assert Dispatch(m.device, m.events) == [ReportFor(m.device, ChangedLocation)];
    StoredLocationReport(m.device, szLocation);
  }

  /** A device holding the bounded copy of a location reports that location's label list. */
  lemma StoredLocationReport(dev: Device, szLocation: seq<byte>)
    requires Text(dev.location) == Truncated(szLocation, DeviceLocationSize)
    ensures ReportFor(dev, ChangedLocation)
              == Report(dev.endpointId, FixedLabelCluster, LabelListAttribute, ArrayType,
                        Labels(LabelListValue(szLocation)))
  {
    ShorterBoundKeepsText(dev.location, szLocation, DeviceLocationSize, FixedLabelElementsOctetStringSize);
  }

  /** Cutting a stored copy to a shorter bound is the same as cutting the original source. */
  lemma ShorterBoundKeepsText(stored: seq<byte>, src: seq<byte>, n: nat, m: nat)
    requires m <= n
    requires Text(stored) == Truncated(src, n)
    ensures Truncated(stored, m) == Truncated(src, m)
  {
  }

  /** The example of a device built in "Office" and moved to "Den". */
  lemma MoveToDen(deviceName: seq<byte>, office: seq<byte>, den: seq<byte>, cb: Callback, endpoint: EndpointId)
    requires Text(office) == [79, 102, 102, 105, 99, 101]
    requires Text(den) == [68, 101, 110]
    ensures SetLocation(Bridged(deviceName, office, cb, endpoint), den).events
              == [ChangeEvent(cb, ChangedLocation)]
    ensures Dispatch(SetLocation(Bridged(deviceName, office, cb, endpoint), den).device,
                     SetLocation(Bridged(deviceName, office, cb, endpoint), den).events)
              == [Report(endpoint, FixedLabelCluster, LabelListAttribute, ArrayType,
                         Labels(LabelList(1, [LabelStruct(ZeroPad(Text(RoomLiteral), 16),
                                                          ZeroPad([68, 101, 110], 16))])))]
  {
    var d := Bridged(deviceName, office, cb, endpoint);
    assert StrLen(office) == 6 && StrLen(den) == 3;
    assert |Text(d.location)| == 6;
    assert |Truncated(den, DeviceLocationSize)| == 3;
    assert Truncated(den, FixedLabelElementsOctetStringSize) == Text(den);
    LocationChangeReport(d, den, cb);
  }

  /** `app_main` marks each freshly built device reachable: that calls the callback once and
      reports Reachable of BridgedDeviceBasic as the single byte 1. Doing it again reports
      nothing. */
  lemma ReachableAtStartup(deviceName: seq<byte>, location: seq<byte>, cb: Callback, endpoint: EndpointId)
    ensures SetReachable(Bridged(deviceName, location, cb, endpoint), true).events
              == [ChangeEvent(cb, ChangedReachable)]
    ensures Dispatch(SetReachable(Bridged(deviceName, location, cb, endpoint), true).device,
                     SetReachable(Bridged(deviceName, location, cb, endpoint), true).events)
              == [Report(endpoint, BridgedDeviceBasicCluster, ReachableAttribute, BooleanType, Octets([1]))]
    ensures SetReachable(SetReachable(Bridged(deviceName, location, cb, endpoint), true).device, true).events == []
  {
    var m := SetReachable(Bridged(deviceName, location, cb, endpoint), true);
    assert |m.events| == 1;
    assert Dispatch(m.device, m.events)[0] == ReportFor(m.device, ChangedReachable);
  }

  /** The label struct for "Kitchen": the value span starts with the seven characters and is
      zero up to 16 bytes; the list holds that one entry. */
  lemma KitchenLabel(kitchen: seq<byte>)
    requires Text(kitchen) == [75, 105, 116, 99, 104, 101, 110]
    ensures EncodeFixedLabel(RoomLiteral, kitchen).count == 1
    ensures EncodeFixedLabel(RoomLiteral, kitchen).entries[0].valueSpan
              == [75, 105, 116, 99, 104, 101, 110] + seq(9, _ => NUL)
  {
    assert StrLen(kitchen) == 7;
    assert Truncated(kitchen, 16) == Text(kitchen);
    StrNCpyIsZeroPad(kitchen, 16);
  }

  /** The Name report of "Light 1" is the character string 7, 'L', 'i', 'g', 'h', 't', ' ', '1'. */
  lemma LightOneNameReport(light: seq<byte>, location: seq<byte>, cb: Callback, endpoint: EndpointId)
    requires Text(light) == [76, 105, 103, 104, 116, 32, 49]
    ensures HandleDeviceStatusChanged(Bridged(light, location, cb, endpoint), KindBit(ChangedName))
              == [Report(endpoint, BridgedDeviceBasicCluster, UserLabelAttribute, CharStringType,
                         Octets([7, 76, 105, 103, 104, 116, 32, 49]))]
  {
    var d := Bridged(light, location, cb, endpoint);
    SingleKindReport(d, ChangedName);
    assert StrLen(light) == 7;
    LightOneLabel(d.name);
  }

  /** A stored name whose characters are "Light 1" has the character string 7 followed by them. */
  lemma LightOneLabel(name: seq<byte>)
    requires Text(name) == [76, 105, 103, 104, 116, 32, 49]
    ensures UserLabelValue(name) == [7, 76, 105, 103, 104, 116, 32, 49]
  {
    assert Truncated(name, UserLabelSize - 1) == Text(name);
  }
}
