# Bridged devices of the ESP32 bridge app

This project models the dynamic-endpoint bridge of `examples/bridge-app/esp32` in Dafny. It covers two parts.

- **`Device`.** A bridged light holds a name, a location, an on/off state and a reachability flag. It also holds an endpoint id and one change callback. Its mutators compare the new value with the stored one and store it. When the value changed, they call the callback with one `kChanged_*` kind.
- **`HandleDeviceStatusChanged`.** This is the callback the bridge registers on every device. For each bit set in the change mask it emits one attribute report:
  - Reachable of BridgedDeviceBasic, as a boolean byte;
  - OnOff of OnOff, as a boolean byte;
  - UserLabel of BridgedDeviceBasic, as a length-prefixed ZCL character string (`ToZclCharString`);
  - LabelList of FixedLabel, as a one-entry list of (label, value) octet spans (`EncodeFixedLabel`).

The C string routines the code relies on are modelled byte by byte in `cstrings.dfy`: `strlen`, `strncpy` with its zero fill and missing terminator at capacity, and `strncmp`. A C string is a `seq<byte>`. It ends at its first NUL, or at the end of the sequence.

A device is an immutable value. Each mutator returns the new device together with the callback calls it made. `HandleDeviceStatusChanged` returns the reports in the order it makes the `emberAfReportingAttributeChangeCallback` calls. The bridge's reaction to a mutator is `Bridge.Dispatch`: every callback call passes the device and the single bit of its kind to the handler.

Each operation has a partner definition it is proved against:
- `strncmp` is proved against equality of the `strncpy` copies.
- `ToZclCharString` is proved against its decoder, in both directions.
- The handler's four `if` blocks are proved equal to a reporting table (`Bridge.ReportFor`) applied to the set bits in dispatch order.
- The as-written constructions of the two findings are proved against corrected ones, and the handler as written (`Bridge.HandleDeviceStatusChangedAsWritten`) is proved equal to the corrected handler wherever it is defined.

Files:
- `wrappers.dfy`: `Option`.
- `cstrings.dfy`: the byte-level C string routines.
- `device.dfy`: `Device` and its mutators.
- `zcl.dfy`: the ZCL character string, the label struct and the constants of main.cpp.
- `bridge.dfy`: the handler, the reporting table and the dispatch of callback calls.
- `scenarios.dfy`: the devices `app_main` builds.

Device.h is not part of this model. Its values are taken as follows:
- `kDeviceNameSize` and `kDeviceLocationSize` are 32.
- The change bits are `kChanged_Reachable` 0x01, `kChanged_State` 0x02, `kChanged_Location` 0x04 and `kChanged_Name` 0x08.

`strncpy` zero-fills the 16-byte value buffer of the label struct after the copied characters, so the value span's tail is zero, never stack contents (`Zcl.EncodeFixedLabel`, `Scenarios.KitchenLabel`).

A name of 32 or more characters is stored as its first 32 bytes with no terminator (`Devices.SetNameStores`).

Two blocks of `HandleDeviceStatusChanged` read past the end of an object (see "## Findings"). The handler `Bridge.HandleDeviceStatusChanged`, which the rest of the model uses, is the corrected one: its Name block bounds the name by the array (`Bridge.NameOctets`), and its Location block builds the label span as a 16-byte `strncpy` copy of "room" (`Zcl.FixedLabelStruct`). `Bridge.HandleDeviceStatusChangedAsWritten` keeps both blocks as written.

## Model

| member | source | states |
|---|---|---|
| CStrings.StrLen | examples/bridge-app/esp32/main/main.cpp:27 | `strlen` is the index of the first NUL: every earlier byte is non-zero and the byte there is NUL, or the string ends |
| CStrings.StrNCpy | examples/bridge-app/esp32/main/Device.cpp:8-9 | `strncpy(dst, src, n)` writes exactly `n` bytes: the source bytes before its first NUL, then zeros |
| CStrings.StrNCpyText | examples/bridge-app/esp32/main/Device.cpp:76 | the copy holds the source cut at its first NUL or at `n` bytes, is zero after it, and has a NUL only when the source is shorter than `n` |
| CStrings.StrNCpyIsZeroPad | examples/bridge-app/esp32/main/main.cpp:46 | `strncpy` into an `n`-byte buffer is the bounded prefix of the source followed by zeros up to `n` |
| CStrings.StrNCpyPrefix | examples/bridge-app/esp32/main/Device.cpp:76 | `strncpy` bounded by `n` reads nothing of its source past byte `n` |
| CStrings.StrNCmp | examples/bridge-app/esp32/main/Device.cpp:72 | `strncmp` compares at most `n` bytes as unsigned values; the result lies between −255 and 255 and is zero when `n` is 0 (when it is zero in general is stated by `CStrings.StrNCmpZeroIff`) |
| CStrings.StrNCmpAntisymmetric | examples/bridge-app/esp32/main/Device.cpp:86 | swapping the two strings negates the result of `strncmp` |
| CStrings.StrNCmpZeroIff | examples/bridge-app/esp32/main/Device.cpp:72 | `strncmp(a, b, n)` is zero exactly when the `n`-byte `strncpy` copies of `a` and `b` are equal |
| CStrings.StoredCompare | examples/bridge-app/esp32/main/Device.cpp:72-76 | for a zero-padded array, `strncmp` against a source is zero exactly when the array already holds what `strncpy` of that source would store |
| Devices.StatusReadsBack | examples/bridge-app/esp32/main/Device.cpp:16-24 | `IsOn` and `IsReachable` read back what the last `SetOnOff` and `SetReachable` wrote, and no other mutator or callback registration changes them |
| Devices.Notify | examples/bridge-app/esp32/main/Device.cpp:43-46 | a mutator calls the callback at most once, exactly when the value changed and a callback is registered, passing that callback and its own kind |
| Devices.NewDevice | examples/bridge-app/esp32/main/Device.cpp:6-14 | a new device is off, unreachable, on endpoint 0, without a callback, and holds its name and location each cut to 32 bytes |
| Devices.SetOnOff | examples/bridge-app/esp32/main/Device.cpp:26-47 | sets the state and changes nothing else; calls the callback once with the State kind exactly when the state changed and a callback is registered |
| Devices.SetReachable | examples/bridge-app/esp32/main/Device.cpp:49-68 | sets reachability and changes nothing else; calls the callback once with the Reachable kind exactly when the flag changed and a callback is registered |
| Devices.SetName | examples/bridge-app/esp32/main/Device.cpp:70-82 | stores the name cut to 32 bytes and changes nothing else; calls the callback with the Name kind exactly when the stored array changed and a callback is registered |
| Devices.SetLocation | examples/bridge-app/esp32/main/Device.cpp:84-96 | stores the location cut to 32 bytes and changes nothing else; calls the callback with the Location kind exactly when the stored array changed and a callback is registered |
| Devices.SetChangeCallback | examples/bridge-app/esp32/main/Device.cpp:98-101 | replaces the callback and leaves every other field as it was |
| Devices.SetNameStores | examples/bridge-app/esp32/main/Device.cpp:76 | a name shorter than 32 is stored with its text intact; a name of 32 or more is stored as its first 32 bytes with no NUL in the array |
| Devices.SetOnOffIdempotent | examples/bridge-app/esp32/main/Device.cpp:30-46 | setting the same state twice calls the callback at most once; the second call changes and reports nothing |
| Devices.SetReachableIdempotent | examples/bridge-app/esp32/main/Device.cpp:51-67 | setting the same reachability twice calls the callback at most once; the second call changes and reports nothing |
| Devices.SetNameIdempotent | examples/bridge-app/esp32/main/Device.cpp:72-81 | setting the same name twice: the second `strncmp` finds the copy already stored and calls nobody |
| Devices.SetLocationIdempotent | examples/bridge-app/esp32/main/Device.cpp:86-95 | setting the same location twice: the second call finds the copy already stored and calls nobody |
| Devices.SetNameBeyondCapacity | examples/bridge-app/esp32/main/Device.cpp:72-76 | names that agree on their first 32 bytes store the same array, and replacing one by the other calls nobody |
| Devices.LastCallbackWins | examples/bridge-app/esp32/main/Device.cpp:98-101 | a second registration replaces the first, and later callback calls go only to the second |
| Devices.NoCallbackNoEvents | examples/bridge-app/esp32/main/Device.cpp:43-45 | with no callback registered every mutator still writes its field but calls nobody |
| Zcl.ToZclCharString | examples/bridge-app/esp32/main/main.cpp:25-35 | writes the length clamped to `maxLength` into byte 0, then exactly that many characters of the string, and leaves the rest of the buffer alone |
| Zcl.ZclCharStringRoundTrip | examples/bridge-app/esp32/main/main.cpp:25-35 | reading the length-prefixed string back yields the string cut to `maxLength`, and the whole string when it fits |
| Zcl.ZclCharStringReencode | examples/bridge-app/esp32/main/main.cpp:25-35 | a well-formed character string of at most `maxLength` NUL-free characters is reproduced by encoding its characters |
| Zcl.LightOneEncoding | examples/bridge-app/esp32/main/main.cpp:72-73 | "Light 1" with maximum 31 encodes as 7 followed by its seven characters, with no terminator |
| Zcl.ByteSpanOver | examples/bridge-app/esp32/main/main.cpp:44 | a byte span over an object is defined only when it stays inside the object, and then it is a prefix of that length |
| Zcl.FixedLabelStructAsWritten | examples/bridge-app/esp32/main/main.cpp:38-48 | the label span is the first 16 bytes of the label's object and is undefined when that object is shorter; the value span is the 16-byte `strncpy` copy of the value |
| Zcl.RoomLabelReadsPastLiteral | examples/bridge-app/esp32/main/main.cpp:44 | the 5-byte literal "room" is shorter than the 16-byte label span, so the label struct as written is undefined for every location |
| Zcl.FixedLabelStruct | examples/bridge-app/esp32/main/main.cpp:40-47 | both spans are 16 bytes, each holds its string cut at its first NUL or 16 bytes, and is zero after that |
| Zcl.FixedLabelStructAgrees | examples/bridge-app/esp32/main/main.cpp:44-47 | where the original construction is defined it has the corrected value span, and the corrected label span too when the label's first 16 bytes are already zero-padded |
| Zcl.RoomText | examples/bridge-app/esp32/main/main.cpp:85 | the characters of the literal "room" |
| Zcl.EncodeFixedLabel | examples/bridge-app/esp32/main/main.cpp:38-51 | the list holds exactly one element and its count is 1; both spans are 16 bytes, hold the label and the value cut to 16 bytes, and are zero after them; the label span is the corrected copy (see "## Left out") |
| Bridge.KindsIn | examples/bridge-app/esp32/main/main.cpp:55-78 | a kind is kept exactly when it is in the input and its bit is set in the mask, and no more kinds are kept than the input holds (the order is stated by `Bridge.KindsInDispatchOrder`) |
| Bridge.KindsInDispatchOrder | examples/bridge-app/esp32/main/main.cpp:55-78 | the kinds a mask selects come in the order the handler tests the bits: Reachable, State, Name, Location, each present exactly when its bit is set |
| Bridge.NameOctets | examples/bridge-app/esp32/main/main.cpp:70-77 | the Name report's bytes fit in the 32-byte `zclName` and read back as the stored name cut to 31 characters |
| Bridge.HandleDeviceStatusChanged | examples/bridge-app/esp32/main/main.cpp:53-90 | the reports are the reporting table's entries for the set bits, in the order Reachable, State, Name, Location, with the corrected Name and Location blocks (see "## Left out") |
| Bridge.HandleDeviceStatusChangedAsWritten | examples/bridge-app/esp32/main/main.cpp:53-90 | the handler as written is defined exactly when the Location bit is clear and, if the Name bit is set, the stored name is shorter than 32; where defined it equals the corrected handler |
| Bridge.LocationChangeUndefinedAsWritten | examples/bridge-app/esp32/main/main.cpp:78-89 | as written, a Location change is undefined for every device, while a Reachable change reports the table's entry |
| Bridge.NameReportMatches | examples/bridge-app/esp32/main/main.cpp:70-77 | the Name report built by `ToZclCharString` is the table's: the length, then at most 31 characters of the name |
| Bridge.LocationReportMatches | examples/bridge-app/esp32/main/main.cpp:78-89 | the corrected Location block's list is the table's: "room" and the location, each cut to 16 bytes and zero-padded |
| Bridge.RoomLabelSpan | examples/bridge-app/esp32/main/main.cpp:85 | the corrected label span for "room", a 16-byte `strncpy` copy, is its four characters followed by twelve zero bytes |
| Bridge.ZeroMaskReportsNothing | examples/bridge-app/esp32/main/main.cpp:53-90 | a mask with no bit set reports nothing |
| Bridge.SingleKindReport | examples/bridge-app/esp32/main/main.cpp:53-90 | a mask holding one kind's bit yields exactly that kind's report |
| Bridge.AllKindsReport | examples/bridge-app/esp32/main/main.cpp:53-90 | with all four bits set, the four reports come in the order Reachable, State, Name, Location |
| Bridge.KindsInDistinct | examples/bridge-app/esp32/main/main.cpp:55-78 | each bit is examined once, so no kind is selected twice |
| Bridge.ReportsForMembership | examples/bridge-app/esp32/main/main.cpp:53-90 | a kind's report is among the reports for a list of kinds exactly when the kind is in the list |
| Bridge.OneReportPerSetBit | examples/bridge-app/esp32/main/main.cpp:53-90 | a kind's report is sent exactly when its bit is set, no attribute is reported twice, and every report names the device's endpoint |
| Bridge.Dispatch | examples/bridge-app/esp32/main/Device.cpp:43-45 | each callback call a mutator makes yields exactly one report: the table's entry for the call's kind on the updated device |
| Bridge.NameOctetsAsWritten | examples/bridge-app/esp32/main/main.cpp:27 | `strlen` of the 32-byte `mName` is defined only when the array holds a NUL |
| Bridge.LongNameReadsPastArray | examples/bridge-app/esp32/main/Device.cpp:76 | after a name of 32 or more characters is set, the name report as written is undefined |
| Bridge.NameOctetsAgree | examples/bridge-app/esp32/main/main.cpp:70-77 | the report as written is defined exactly for names shorter than 32, and then it equals the bounded one |
| Scenarios.Bridged | examples/bridge-app/esp32/main/main.cpp:111-120 | a device as `app_main` prepares it is off and unreachable, carries the bridge's callback, and holds its name and location cut to 32 bytes; the endpoint is a parameter for a registration this `app_main` does not perform |
| Scenarios.ReachableAtStartup | examples/bridge-app/esp32/main/main.cpp:122-125 | marking a new device reachable calls the callback once and reports Reachable as the byte 1; doing it again calls nobody |
| Scenarios.LocationChangeReport | examples/bridge-app/esp32/main/Device.cpp:84-96 | moving a device to a different location calls the callback once and reports the corrected label "room" and the new location, each zero-padded to 16 bytes, on the device's endpoint |
| Scenarios.MoveToDen | examples/bridge-app/esp32/main/main.cpp:111-114 | moving a light from "Office" to "Den" reports the corrected label "room" and "Den", each zero-padded to 16 bytes |
| Scenarios.StoredLocationReport | examples/bridge-app/esp32/main/main.cpp:78-89 | a device holding the bounded copy of a location reports the corrected label "room" and that location cut to 16 bytes, both zero-padded |
| Scenarios.KitchenLabel | examples/bridge-app/esp32/main/main.cpp:113 | the label list for "Kitchen" has count 1 and the value span "Kitchen" followed by nine zero bytes |
| Scenarios.LightOneLabel | examples/bridge-app/esp32/main/main.cpp:72-73 | a stored name reading "Light 1" has the character string 7 followed by its seven characters |
| Scenarios.LightOneNameReport | examples/bridge-app/esp32/main/main.cpp:111 | the Name report of "Light 1" is the character string 7, 'L', 'i', 'g', 'h', 't', ' ', '1' |

## Left out

- `app_main`: NVS initialisation with its error path, and the `gDevices` table. These are platform I/O and bookkeeping, not device or report logic. The server start-up at the end of `app_main` is commented out. The scenarios reproduce only its device set-up.
- `ChipLogProgress` and `ESP_LOGE`: logging has no effect on the modelled state.
- `emberAfReportingAttributeChangeCallback`: it is foreign code. Each call is recorded as a `Report` value. Its constant arguments `CLUSTER_MASK_SERVER` and manufacturer code 0 are not carried.
- `emberAfCopyList`: the serialisation of the label list into the 254-byte buffer is foreign code. The report carries the list count and the label struct handed to it.
- Cluster, attribute and type ids: these are symbolic values. The generated headers that number them are not part of this model.
- Device.h is not part of this model. `IsOn`, `IsReachable`, `GetName`, `GetLocation` and `GetEndpointId` are modelled as plain field reads; what `IsOn` and `IsReachable` return after each mutator is stated by `Devices.StatusReadsBack`. The `app_main` shown never assigns an endpoint, so its devices keep endpoint 0. `Scenarios.Bridged` takes the endpoint as a parameter, standing for a registration with the host.
- Bridge.NameOctets: only the written prefix of `zclName` is carried. The remaining bytes of the stack array are uninitialised, and a character-string reader never looks at them.
- Zcl.EncodeFixedLabel: the label span is the corrected 16-byte `strncpy` copy of the label, not `ByteSpan(label, 16)` over the label's object, because that span is undefined for the one label passed, "room" (`Zcl.RoomLabelReadsPastLiteral`). The span as written is `Zcl.FixedLabelStructAsWritten`.
- Bridge.HandleDeviceStatusChanged: the Location entry carries the corrected "room" label span, four characters and twelve zeros, because the span as written is undefined (`Zcl.RoomLabelReadsPastLiteral`). The Name entry uses the bounded `Bridge.NameOctets`, not `Bridge.NameOctetsAsWritten`, because the latter is undefined for names of 32 or more characters. `Bridge.HandleDeviceStatusChangedAsWritten` keeps both blocks as written.
- Bridge.LocationReportMatches: states the corrected "room" label span, which main.cpp does not build, because the span it builds is undefined.
- Bridge.RoomLabelSpan: four characters and twelve zeros is the corrected label span; the span main.cpp:85 builds covers 16 bytes over the 5-byte literal and is undefined.
- Scenarios.LocationChangeReport: the reported label is the corrected "room" span, because the span as written is undefined (`Bridge.LocationChangeUndefinedAsWritten`).
- Scenarios.MoveToDen: the reported label is the corrected "room" span, because the span as written is undefined (`Bridge.LocationChangeUndefinedAsWritten`).
- Scenarios.StoredLocationReport: reports the corrected "room" label span, for the same reason.
- scripts/flashing/k32w_firmware_utils.py: a flashing utility, unrelated to the bridge logic.
- Threads: the callbacks run synchronously on the caller's thread.

## Findings

| source | as written | input that shows it | evidently intended | confidence | as-written member | corrected member |
|---|---|---|---|---|---|---|
| examples/bridge-app/esp32/main/main.cpp:44 | The label span is `ByteSpan(label, 16)` over the caller's string. Line 85 passes the 5-byte literal `"room"`. | Any location change: `EncodeFixedLabel("room", …)` reads 11 bytes past the literal. | The label is copied into a 16-byte zero-filled buffer, as the value is on line 46. | high; not executed | Zcl.FixedLabelStructAsWritten (shown by Zcl.RoomLabelReadsPastLiteral; in the handler, Bridge.HandleDeviceStatusChangedAsWritten) | Zcl.FixedLabelStruct (used by Zcl.EncodeFixedLabel and Bridge.HandleDeviceStatusChanged) |
| examples/bridge-app/esp32/main/main.cpp:73 | `ToZclCharString` calls `strlen` on `mName`, and `strncpy` in Device.cpp:76 leaves `mName` unterminated when the name has 32 or more characters. | `SetName` with a 32-character name, then the Name report: `strlen` reads past `mName`. | The length is bounded by the array, at most 31 characters of the 32 bytes. | medium (Device.h, which fixes the capacity, is not part of this model); not executed | Bridge.NameOctetsAsWritten (shown by Bridge.LongNameReadsPastArray; in the handler, Bridge.HandleDeviceStatusChangedAsWritten) | Bridge.NameOctets (used by Bridge.HandleDeviceStatusChanged) |
