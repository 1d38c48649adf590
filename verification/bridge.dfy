/** `HandleDeviceStatusChanged` of examples/bridge-app/esp32/main/main.cpp: the callback the bridge
    registers on every device. It turns a change mask into attribute reports. The external call
    `emberAfReportingAttributeChangeCallback` becomes a `Report` record appended to the output. */
module Bridge {
  import opened CStrings
  import opened Wrappers
  import opened Devices
  import opened Zcl

  datatype ClusterId = BridgedDeviceBasicCluster | OnOffCluster | FixedLabelCluster

  datatype AttributeId = ReachableAttribute | OnOffAttribute | UserLabelAttribute | LabelListAttribute

  datatype AttributeType = BooleanType | CharStringType | ArrayType

  /** The value buffer of a report: raw octets, or the label list `emberAfCopyList` serialises. */
  datatype AttributeValue = Octets(bytes: seq<byte>) | Labels(list: LabelList)

  /** One call `emberAfReportingAttributeChangeCallback(endpoint, cluster, attribute,
      CLUSTER_MASK_SERVER, 0, type, value)`. */
  datatype Report = Report(
    endpoint: EndpointId,
    cluster: ClusterId,
    attribute: AttributeId,
    attributeType: AttributeType,
    value: AttributeValue)

  /** `Device::Changed_t`: a bit mask of change kinds. */
  type ChangedMask = bv8

  /** The `kChanged_*` bit of each kind (Device.h is not part of this model; these are its values). */
  function KindBit(k: ChangeKind): ChangedMask {
    match k
    case ChangedReachable => 0x01
    case ChangedState => 0x02
    case ChangedLocation => 0x04
    case ChangedName => 0x08
  }

  /** `itemChangedMask & kChanged_k` is non-zero. */
  predicate HasBit(mask: ChangedMask, k: ChangeKind) {
    mask & KindBit(k) != 0
  }

  /** The order in which `HandleDeviceStatusChanged` tests the bits. */
  const DispatchOrder: seq<ChangeKind> := [ChangedReachable, ChangedState, ChangedName, ChangedLocation]

  /** `[k]` when the bit of `k` is set in `mask`, `[]` otherwise. */
  function KindIfSet(mask: ChangedMask, k: ChangeKind): seq<ChangeKind> {
    if HasBit(mask, k) then [k] else []
  }

  /** The position of each kind in the dispatch order. */
  function DispatchIndex(k: ChangeKind): (i: nat)
    ensures i < |DispatchOrder| && DispatchOrder[i] == k
  {
    match k
    case ChangedReachable => 0
    case ChangedState => 1
    case ChangedName => 2
    case ChangedLocation => 3
  }

  /** The kinds of `kinds` whose bit is set in `mask`, in the order of `kinds`. */
  function KindsIn(kinds: seq<ChangeKind>, mask: ChangedMask): (r: seq<ChangeKind>)
    ensures forall k :: k in r <==> k in kinds && HasBit(mask, k)
    ensures |r| <= |kinds|
  {
    if kinds == [] then []
    else KindIfSet(mask, kinds[0]) + KindsIn(kinds[1..], mask)
  }

  /** The encoded boolean: one byte, 1 for true and 0 for false. */
  function BoolOctet(b: bool): byte {
    if b then 1 else 0
  }

  /** The ZCL character string of a stored name: its length, then its characters, at most
      `UserLabelSize - 1` of them. */
  function UserLabelValue(name: seq<byte>): seq<byte> {
    var shown := Truncated(name, UserLabelSize - 1);
    [|shown|] + shown
  }

  /** The one-entry label list of a stored location: "room" and the location, each cut to
      16 bytes and zero-padded. */
  function LabelListValue(location: seq<byte>): LabelList {
    LabelList(1, [LabelStruct(
      ZeroPad(Text(RoomLiteral), FixedLabelElementsOctetStringSize),
      ZeroPad(Truncated(location, FixedLabelElementsOctetStringSize), FixedLabelElementsOctetStringSize))])
  }

  /** The reporting table, stated on the device's values: which cluster and attribute each kind
      reports, with which type, and the bytes that make up the value. */
  function ReportFor(dev: Device, k: ChangeKind): (r: Report)
    ensures r.endpoint == GetEndpointId(dev)
  {
    match k
    case ChangedReachable =>
      Report(dev.endpointId, BridgedDeviceBasicCluster, ReachableAttribute, BooleanType,
             Octets([BoolOctet(dev.reachable)]))
    case ChangedState =>
      Report(dev.endpointId, OnOffCluster, OnOffAttribute, BooleanType,
             Octets([BoolOctet(dev.state == On)]))
    case ChangedName =>
      Report(dev.endpointId, BridgedDeviceBasicCluster, UserLabelAttribute, CharStringType,
             Octets(UserLabelValue(dev.name)))
    case ChangedLocation =>
      Report(dev.endpointId, FixedLabelCluster, LabelListAttribute, ArrayType,
             Labels(LabelListValue(dev.location)))
  }

  /** The Name report: `ToZclCharString` into the 32-byte `zclName` with at most 31 characters.
      The call never overflows `zclName`. The report carries the bytes the call wrote; the rest of
      `zclName` is uninitialised stack memory that a character-string reader does not look at. */
  function NameOctets(dev: Device): (r: seq<byte>)
    ensures |r| <= UserLabelSize
    ensures FromZclCharString(r) == Some(Truncated(GetName(dev), UserLabelSize - 1))
  {
    var zclName := ToZclCharString(seq(UserLabelSize, _ => NUL), GetName(dev), UserLabelSize - 1);
    var r := zclName[..1 + zclName[0]];
    assert r[1..1 + r[0]] == zclName[1..1 + zclName[0]];
    assert Text(dev.name)[..zclName[0]] == Truncated(dev.name, UserLabelSize - 1);
    r
  }

  /** The reporting table applied to each kind of `kinds`, in order. */
  function ReportsFor(dev: Device, kinds: seq<ChangeKind>): (r: seq<Report>)
    ensures |r| == |kinds|
    ensures forall i :: 0 <= i < |kinds| ==> r[i] == ReportFor(dev, kinds[i])
  {
    if kinds == [] then [] else [ReportFor(dev, kinds[0])] + ReportsFor(dev, kinds[1..])
  }

  /** The report sent for kind `k` when its bit is set in `mask`, and nothing otherwise. */
  function ReportIfSet(dev: Device, mask: ChangedMask, k: ChangeKind): seq<Report> {
    if HasBit(mask, k) then [ReportFor(dev, k)] else []
  }

  /** `HandleDeviceStatusChanged(dev, itemChangedMask)`: one report per set bit among Reachable,
      State, Name and Location, in that order, each as the reporting table prescribes. */
  function HandleDeviceStatusChanged(dev: Device, itemChangedMask: ChangedMask): (reports: seq<Report>)
    ensures reports == ReportsFor(dev, KindsIn(DispatchOrder, itemChangedMask))
  {
    var reachable :=
      if HasBit(itemChangedMask, ChangedReachable) then
        [Report(GetEndpointId(dev), BridgedDeviceBasicCluster, ReachableAttribute, BooleanType,
                Octets([if IsReachable(dev) then 1 else 0]))]
      else [];
    var state :=
      if HasBit(itemChangedMask, ChangedState) then
        [Report(GetEndpointId(dev), OnOffCluster, OnOffAttribute, BooleanType,
                Octets([if IsOn(dev) then 1 else 0]))]
      else [];
    var name :=
      if HasBit(itemChangedMask, ChangedName) then
        [Report(GetEndpointId(dev), BridgedDeviceBasicCluster, UserLabelAttribute, CharStringType,
                Octets(NameOctets(dev)))]
      else [];
    var location :=
      if HasBit(itemChangedMask, ChangedLocation) then
        [Report(GetEndpointId(dev), FixedLabelCluster, LabelListAttribute, ArrayType,
                Labels(EncodeFixedLabel(RoomLiteral, GetLocation(dev))))]
      else [];
    assert reachable == ReportIfSet(dev, itemChangedMask, ChangedReachable);
    assert state == ReportIfSet(dev, itemChangedMask, ChangedState);
    assert name == ReportIfSet(dev, itemChangedMask, ChangedName) by {
      NameReportMatches(dev);
    }
    assert location == ReportIfSet(dev, itemChangedMask, ChangedLocation) by {
      LocationReportMatches(dev);
    }
    TableInDispatchOrder(dev, itemChangedMask);
    reachable + (state + (name + location))
  }

  /** Applying the table to the kinds set in `mask`, in dispatch order, is the same as testing
      the four bits one after the other. */
  lemma TableInDispatchOrder(dev: Device, mask: ChangedMask)
    ensures ReportsFor(dev, KindsIn(DispatchOrder, mask))
              == ReportIfSet(dev, mask, ChangedReachable) + (ReportIfSet(dev, mask, ChangedState)
               + (ReportIfSet(dev, mask, ChangedName) + ReportIfSet(dev, mask, ChangedLocation)))
  {
    var k1 := KindIfSet(mask, ChangedReachable);
    var k2 := KindIfSet(mask, ChangedState);
    var k3 := KindIfSet(mask, ChangedName);
    var k4 := KindIfSet(mask, ChangedLocation);
    KindsInDispatchOrder(mask);
    ReportsForAppend(dev, k1, k2 + (k3 + k4));
    ReportsForAppend(dev, k2, k3 + k4);
    ReportsForAppend(dev, k3, k4);
    ReportsForKindIfSet(dev, mask, ChangedReachable);
    ReportsForKindIfSet(dev, mask, ChangedState);
    ReportsForKindIfSet(dev, mask, ChangedName);
    ReportsForKindIfSet(dev, mask, ChangedLocation);
  }

  lemma KindsInDispatchOrder(mask: ChangedMask)
    ensures KindsIn(DispatchOrder, mask)
              == KindIfSet(mask, ChangedReachable) + (KindIfSet(mask, ChangedState)
               + (KindIfSet(mask, ChangedName) + KindIfSet(mask, ChangedLocation)))
  {
    var o := DispatchOrder;
    assert KindsIn([ChangedLocation], mask) == KindIfSet(mask, ChangedLocation) + KindsIn([], mask);
    assert KindsIn([ChangedName, ChangedLocation], mask)
             == KindIfSet(mask, ChangedName) + KindsIn([ChangedLocation], mask);
    assert KindsIn([ChangedState, ChangedName, ChangedLocation], mask)
             == KindIfSet(mask, ChangedState) + KindsIn([ChangedName, ChangedLocation], mask);
    assert KindsIn(o, mask)
             == KindIfSet(mask, ChangedReachable) + KindsIn([ChangedState, ChangedName, ChangedLocation], mask);
  }

  lemma ReportsForKindIfSet(dev: Device, mask: ChangedMask, k: ChangeKind)
    ensures ReportsFor(dev, KindIfSet(mask, k)) == ReportIfSet(dev, mask, k)
  {
  }

  /** The table applied to a concatenation is the concatenation of the tables. */
  lemma ReportsForAppend(dev: Device, a: seq<ChangeKind>, b: seq<ChangeKind>)
    ensures ReportsFor(dev, a + b) == ReportsFor(dev, a) + ReportsFor(dev, b)
  {
    var l := ReportsFor(dev, a + b);
    var r := ReportsFor(dev, a) + ReportsFor(dev, b);
    assert forall i :: 0 <= i < |l| ==> l[i] == r[i];
  }

  /** The Name report's octets are the table's character string of the name. */
  lemma NameReportMatches(dev: Device)
    ensures ReportFor(dev, ChangedName)
              == Report(GetEndpointId(dev), BridgedDeviceBasicCluster, UserLabelAttribute,
                        CharStringType, Octets(NameOctets(dev)))
  {
    var r := NameOctets(dev);
    assert r == [r[0]] + r[1..1 + r[0]];
    assert r == UserLabelValue(dev.name);
  }

  /** The Location report's label list is the table's: "room" and the location, each cut to
      16 bytes and zero-padded. */
  lemma LocationReportMatches(dev: Device)
    ensures ReportFor(dev, ChangedLocation)
              == Report(GetEndpointId(dev), FixedLabelCluster, LabelListAttribute, ArrayType,
                        Labels(EncodeFixedLabel(RoomLiteral, GetLocation(dev))))
  {
    RoomLabelSpan();
    StrNCpyIsZeroPad(dev.location, FixedLabelElementsOctetStringSize);
  }

  /** The label span of "room" is its four characters followed by twelve zeros. */
  lemma RoomLabelSpan()
    ensures StrNCpy(RoomLiteral, FixedLabelElementsOctetStringSize)
              == ZeroPad(Text(RoomLiteral), FixedLabelElementsOctetStringSize)
  {
    RoomText();
    assert Truncated(RoomLiteral, FixedLabelElementsOctetStringSize) == Text(RoomLiteral);
    StrNCpyIsZeroPad(RoomLiteral, FixedLabelElementsOctetStringSize);
  }

  /** A mask with no bit set reports nothing. */
  lemma ZeroMaskReportsNothing(dev: Device)
    ensures HandleDeviceStatusChanged(dev, 0) == []
  {
    KindsInDispatchOrder(0);
  }

  /** The mask a single mutator passes, one `kChanged_*` bit, yields exactly the table's report
      for that kind. */
  lemma SingleKindReport(dev: Device, k: ChangeKind)
    ensures HandleDeviceStatusChanged(dev, KindBit(k)) == [ReportFor(dev, k)]
  {
    TableInDispatchOrder(dev, KindBit(k));
    forall j: ChangeKind
      ensures HasBit(KindBit(k), j) <==> j == k
    {
      BitsDistinct(k, j);
    }
  }

  /** The four `kChanged_*` bits are distinct single bits. */
  lemma BitsDistinct(k: ChangeKind, j: ChangeKind)
    ensures HasBit(KindBit(k), j) <==> j == k
  {
  }

  /** With all four bits set (a mask such as 0x0F), the reports come in the fixed order Reachable, State, Name,
      Location. */
  lemma AllKindsReport(dev: Device, mask: ChangedMask)
    requires forall k :: HasBit(mask, k)
    ensures HandleDeviceStatusChanged(dev, mask)
              == [ReportFor(dev, ChangedReachable), ReportFor(dev, ChangedState),
                  ReportFor(dev, ChangedName), ReportFor(dev, ChangedLocation)]
  {
    var pieces := ReportIfSet(dev, mask, ChangedReachable) + (ReportIfSet(dev, mask, ChangedState)
                  + (ReportIfSet(dev, mask, ChangedName) + ReportIfSet(dev, mask, ChangedLocation)));
    assert HandleDeviceStatusChanged(dev, mask) == pieces by {
      TableInDispatchOrder(dev, mask);
    }
    ReportIfSetHolds(dev, mask, ChangedReachable);
    ReportIfSetHolds(dev, mask, ChangedState);
    ReportIfSetHolds(dev, mask, ChangedName);
    ReportIfSetHolds(dev, mask, ChangedLocation);
    ConcatFour(ReportFor(dev, ChangedReachable), ReportFor(dev, ChangedState),
               ReportFor(dev, ChangedName), ReportFor(dev, ChangedLocation));
  }

  lemma ConcatFour<T>(a: T, b: T, c: T, d: T)
    ensures [a] + ([b] + ([c] + [d])) == [a, b, c, d]
  {
  }

  lemma ReportIfSetHolds(dev: Device, mask: ChangedMask, k: ChangeKind)
    requires HasBit(mask, k)
    ensures ReportIfSet(dev, mask, k) == [ReportFor(dev, k)]
  {
  }

  /** Filtering a list without repetitions keeps it without repetitions. */
  lemma {:induction false} KindsInDistinct(kinds: seq<ChangeKind>, mask: ChangedMask)
    requires forall i, j :: 0 <= i < j < |kinds| ==> kinds[i] != kinds[j]
    ensures forall i, j :: 0 <= i < j < |KindsIn(kinds, mask)| ==>
              KindsIn(kinds, mask)[i] != KindsIn(kinds, mask)[j]
  {
    if kinds != [] {
      KindsInDistinct(kinds[1..], mask);
      assert kinds[0] !in kinds[1..];
    }
  }

  /** Each kind reports a different attribute. */
  lemma AttributeIdentifiesKind(dev: Device, k: ChangeKind, j: ChangeKind)
    requires ReportFor(dev, k).attribute == ReportFor(dev, j).attribute
    ensures k == j
  {
  }

  /** The table's report for `k` is among the reports for `kinds` exactly when `k` is. */
  lemma ReportsForMembership(dev: Device, kinds: seq<ChangeKind>, k: ChangeKind)
    ensures ReportFor(dev, k) in ReportsFor(dev, kinds) <==> k in kinds
  {
    var r := ReportsFor(dev, kinds);
    if k in kinds {
      var i :| 0 <= i < |kinds| && kinds[i] == k;
      assert r[i] == ReportFor(dev, k);
    }
    if ReportFor(dev, k) in r {
      var i :| 0 <= i < |r| && r[i] == ReportFor(dev, k);
      AttributeIdentifiesKind(dev, k, kinds[i]);
    }
  }

  /** Reports for kinds without repetition never report an attribute twice. */
  lemma ReportsForDistinct(dev: Device, kinds: seq<ChangeKind>)
    requires forall i, j :: 0 <= i < j < |kinds| ==> kinds[i] != kinds[j]
    ensures forall i, j :: 0 <= i < j < |ReportsFor(dev, kinds)| ==>
              ReportsFor(dev, kinds)[i].attribute != ReportsFor(dev, kinds)[j].attribute
  {
    var r := ReportsFor(dev, kinds);
    forall i, j | 0 <= i < j < |r|
      ensures r[i].attribute != r[j].attribute
    {
      if r[i].attribute == r[j].attribute {
        AttributeIdentifiesKind(dev, kinds[i], kinds[j]);
      }
    }
  }

  /** Exactly one report per set bit: the table's report for `k` is among the reports iff the
      bit of `k` is set, no attribute is reported twice, and every report names the device's
      endpoint. */
  lemma OneReportPerSetBit(dev: Device, mask: ChangedMask)
    ensures forall k :: ReportFor(dev, k) in HandleDeviceStatusChanged(dev, mask) <==> HasBit(mask, k)
    ensures forall i, j :: 0 <= i < j < |HandleDeviceStatusChanged(dev, mask)| ==>
              HandleDeviceStatusChanged(dev, mask)[i].attribute
                != HandleDeviceStatusChanged(dev, mask)[j].attribute
    ensures forall i :: 0 <= i < |HandleDeviceStatusChanged(dev, mask)| ==>
              HandleDeviceStatusChanged(dev, mask)[i].endpoint == GetEndpointId(dev)
  {
    var kinds := KindsIn(DispatchOrder, mask);
    KindsInDistinct(DispatchOrder, mask);
    ReportsForDistinct(dev, kinds);
    forall k
      ensures ReportFor(dev, k) in ReportsFor(dev, kinds) <==> HasBit(mask, k)
    {
      ReportsForMembership(dev, kinds, k);
      assert k == DispatchOrder[DispatchIndex(k)];
    }
  }

  /** The bridge's reaction to the callback calls a mutator made: every device in the bridge
      registers `HandleDeviceStatusChanged`, which receives the device as the mutator left it and
      the one bit of the event's kind. */
  function Dispatch(dev: Device, events: seq<ChangeEvent>): (reports: seq<Report>)
    ensures |reports| == |events|
    ensures forall i :: 0 <= i < |events| ==> reports[i] == ReportFor(dev, events[i].kind)
  {
    if events == [] then []
    else
      SingleKindReport(dev, events[0].kind);
      HandleDeviceStatusChanged(dev, KindBit(events[0].kind)) + Dispatch(dev, events[1..])
  }

  /** `strlen(dev->GetName())` as `HandleDeviceStatusChanged` performs it: defined only while the
      32-byte `mName` holds a NUL. A name of 32 or more characters is stored without one, and
      `strlen` then reads past the end of the array. */
  function NameOctetsAsWritten(dev: Device): (r: Option<seq<byte>>)
    ensures r.Some? <==> NUL in GetName(dev)
  {
    if NUL in GetName(dev) then
      var len := Min(StrLen(GetName(dev)), UserLabelSize - 1);
      Some([len] + GetName(dev)[..len])
    else None
  }

  /** Setting a name of at least `DeviceNameSize` characters leaves `mName` unterminated, so the
      Name report as written is undefined. */
  lemma LongNameReadsPastArray(d: Device, szName: seq<byte>)
    requires StrLen(szName) >= DeviceNameSize
    ensures NameOctetsAsWritten(SetName(d, szName).device) == None
  {
    SetNameStores(d, szName);
  }

  /** The name octets bounded by the array are defined for every device, and agree with the
      original ones whenever those are defined. */
  lemma NameOctetsAgree(dev: Device)
    ensures NameOctetsAsWritten(dev).Some? <==> StrLen(GetName(dev)) < DeviceNameSize
    ensures NameOctetsAsWritten(dev).Some? ==> NameOctetsAsWritten(dev).value == NameOctets(dev)
  {
    if StrLen(dev.name) < DeviceNameSize {
      assert dev.name[StrLen(dev.name)] == NUL;
      var r := NameOctets(dev);
      assert r == [r[0]] + r[1..1 + r[0]];
    }
  }

  /** `HandleDeviceStatusChanged` with the Name and Location blocks exactly as main.cpp builds
      them: the Name block measures `mName` with `strlen` (`NameOctetsAsWritten`) and the
      Location block takes a 16-byte span over the literal "room" (`FixedLabelStructAsWritten`).
      `None` when a block reads past the end of an object. Where it is defined it agrees with
      `HandleDeviceStatusChanged`; the Location block is defined for no device. */
  function HandleDeviceStatusChangedAsWritten(dev: Device, itemChangedMask: ChangedMask): (r: Option<seq<Report>>)
    ensures r.Some? <==> !HasBit(itemChangedMask, ChangedLocation)
                         && (HasBit(itemChangedMask, ChangedName) ==> StrLen(GetName(dev)) < DeviceNameSize)
    ensures r.Some? ==> r.value == HandleDeviceStatusChanged(dev, itemChangedMask)
  {
    var reachable := ReportIfSet(dev, itemChangedMask, ChangedReachable);
    var state := ReportIfSet(dev, itemChangedMask, ChangedState);
    var name: Option<seq<Report>> :=
      if HasBit(itemChangedMask, ChangedName) then
        match NameOctetsAsWritten(dev)
        case None => None
        case Some(zclName) =>
          Some([Report(GetEndpointId(dev), BridgedDeviceBasicCluster, UserLabelAttribute, CharStringType,
                       Octets(zclName))])
      else Some([]);
    var location: Option<seq<Report>> :=
      if HasBit(itemChangedMask, ChangedLocation) then
        match FixedLabelStructAsWritten(RoomLiteral, GetLocation(dev))
        case None => None
        case Some(labelStruct) =>
          Some([Report(GetEndpointId(dev), FixedLabelCluster, LabelListAttribute, ArrayType,
                       Labels(LabelList(1, [labelStruct])))])
      else Some([]);
    NameOctetsAgree(dev);
    RoomLabelReadsPastLiteral(GetLocation(dev));
    if name.None? || location.None? then None
    else
      assert name.value == ReportIfSet(dev, itemChangedMask, ChangedName) by {
        NameReportMatches(dev);
      }
      TableInDispatchOrder(dev, itemChangedMask);
      Some(reachable + (state + (name.value + location.value)))
  }

  /** A Location change is never reported as written: the label span is undefined for every
      device, so the bridge can only report the corrected label. */
  lemma LocationChangeUndefinedAsWritten(dev: Device)
    ensures HandleDeviceStatusChangedAsWritten(dev, KindBit(ChangedLocation)) == None
    ensures HandleDeviceStatusChangedAsWritten(dev, KindBit(ChangedReachable))
              == Some([ReportFor(dev, ChangedReachable)])
  {
    SingleKindReport(dev, ChangedReachable);
  }
}
