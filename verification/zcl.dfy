/** The attribute encoders of examples/bridge-app/esp32/main/main.cpp: the length-prefixed ZCL
    character string and the label struct built for the FixedLabel cluster's LabelList. */
module Zcl {
  import opened CStrings
  import opened Wrappers

  /** `kUserLabelSize`: the size of the buffer the Name report is encoded into. */
  const UserLabelSize: nat := 32
  /** `kFixedLabelElementsOctetStringSize`: the span length of each labelString-struct field. */
  const FixedLabelElementsOctetStringSize: nat := 16

  /** `ToZclCharString(zclString, cString, maxLength)`: writes the clamped length into byte 0 and
      copies that many characters after it, with no terminator. Bytes past the copied ones keep
      what they held. The caller must supply room for the length byte and the copied characters. */
  function ToZclCharString(zclString: seq<byte>, cString: seq<byte>, maxLength: byte): (r: seq<byte>)
    requires 1 + Min(StrLen(cString), maxLength) <= |zclString|
    ensures |r| == |zclString| && r[0] == Min(StrLen(cString), maxLength) <= maxLength
            && r[1..1 + r[0]] == Truncated(cString, maxLength)
            && r[1 + r[0]..] == zclString[1 + r[0]..]
  {
    var len := Min(StrLen(cString), maxLength);
    [len] + cString[..len] + zclString[1 + len..]
  }

  /** Reads a ZCL character string: a length byte followed by that many characters. */
  function FromZclCharString(bytes: seq<byte>): Option<seq<byte>> {
    if |bytes| == 0 || |bytes| - 1 < bytes[0] then None else Some(bytes[1..1 + bytes[0] as int])
  }

  /** Reading back what `ToZclCharString` wrote yields the string bounded by `maxLength`, and
      the whole string whenever it fits. */
  lemma ZclCharStringRoundTrip(zclString: seq<byte>, cString: seq<byte>, maxLength: byte)
    requires 1 + Min(StrLen(cString), maxLength) <= |zclString|
    ensures FromZclCharString(ToZclCharString(zclString, cString, maxLength))
              == Some(Truncated(cString, maxLength))
    ensures StrLen(cString) <= maxLength ==>
              FromZclCharString(ToZclCharString(zclString, cString, maxLength)) == Some(Text(cString))
  {
  }

  /** Conversely, a well-formed ZCL character string whose characters hold no NUL and that is no
      longer than `maxLength` is reproduced by encoding its characters into it. */
  lemma ZclCharStringReencode(bytes: seq<byte>, maxLength: byte)
    requires FromZclCharString(bytes).Some?
    requires NUL !in FromZclCharString(bytes).value
    requires bytes[0] <= maxLength
    ensures ToZclCharString(bytes, FromZclCharString(bytes).value, maxLength) == bytes
  {
    var p := FromZclCharString(bytes).value;
    StrLenIs(p, |p|);
    var r := ToZclCharString(bytes, p, maxLength);
    assert r[0] == bytes[0];
    assert r[1..1 + |p|] == bytes[1..1 + |p|];
    assert forall i :: 1 <= i <= |p| ==> r[i] == r[1..1 + |p|][i - 1];
  }

  /** "Light 1" bounded by 31 encodes as the length 7 followed by its seven characters. */
  lemma LightOneEncoding(zclName: seq<byte>)
    requires |zclName| == UserLabelSize
    ensures ToZclCharString(zclName, [76, 105, 103, 104, 116, 32, 49, 0], 31)[..8]
              == [7, 76, 105, 103, 104, 116, 32, 49]
  {
    var light1: seq<byte> := [76, 105, 103, 104, 116, 32, 49, 0];
    StrLenIs(light1, 7);
  }

  /** `chip::ByteSpan(data, length)` over a C object holding the bytes `obj`: the span is only
      defined while it stays inside the object; reading further is undefined behaviour. */
  function ByteSpanOver(obj: seq<byte>, length: nat): (r: Option<seq<byte>>)
    ensures r.Some? <==> length <= |obj|
    ensures r.Some? ==> |r.value| == length && r.value <= obj
  {
    if length <= |obj| then Some(obj[..length]) else None
  }

  /** `_LabelStruct`: a (label, value) pair of octet spans. */
  datatype LabelStruct = LabelStruct(labelSpan: seq<byte>, valueSpan: seq<byte>)

  /** The LabelList attribute handed to `emberAfCopyList`: the element count and the elements. */
  datatype LabelList = LabelList(count: nat, entries: seq<LabelStruct>)

  /** The label struct as `EncodeFixedLabel` builds it: the label span is 16 bytes read straight
      from the label string, and the value span is the 16-byte `strncpy` copy of the value string
      in the local `zclOctetStrBuf`. `None` when the label span reads past the end of the label
      string's object. */
  function FixedLabelStructAsWritten(labelString: seq<byte>, valueString: seq<byte>): (r: Option<LabelStruct>)
    ensures r.Some? <==> |labelString| >= FixedLabelElementsOctetStringSize
    ensures r.Some? ==> r.value.labelSpan == labelString[..FixedLabelElementsOctetStringSize]
    ensures r.Some? ==> r.value.valueSpan == StrNCpy(valueString, FixedLabelElementsOctetStringSize)
  {
    var zclOctetStrBuf := StrNCpy(valueString, FixedLabelElementsOctetStringSize);
    match ByteSpanOver(labelString, FixedLabelElementsOctetStringSize)
    case None => None
    case Some(labelSpan) =>
      match ByteSpanOver(zclOctetStrBuf, |zclOctetStrBuf|)
      case None => None
      case Some(valueSpan) => Some(LabelStruct(labelSpan, valueSpan))
  }

  /** The label struct with the label given the same bounded copy as the value: both spans are
      16 bytes, each holds its string cut at the first NUL or at 16 bytes, and the rest of each
      span is zero, never uninitialised stack contents. */
  function FixedLabelStruct(labelString: seq<byte>, valueString: seq<byte>): (r: LabelStruct)
    ensures |r.labelSpan| == FixedLabelElementsOctetStringSize
    ensures |r.valueSpan| == FixedLabelElementsOctetStringSize
    ensures Text(r.labelSpan) == Truncated(labelString, FixedLabelElementsOctetStringSize)
    ensures Text(r.valueSpan) == Truncated(valueString, FixedLabelElementsOctetStringSize)
    ensures Padded(r.labelSpan) && Padded(r.valueSpan)
  {
    StrNCpyText(labelString, FixedLabelElementsOctetStringSize);
    StrNCpyText(valueString, FixedLabelElementsOctetStringSize);
    LabelStruct(StrNCpy(labelString, FixedLabelElementsOctetStringSize),
                StrNCpy(valueString, FixedLabelElementsOctetStringSize))
  }

  /** Where the original construction is defined, it builds the same value span as the corrected
      one, and the same label span whenever the label's first 16 bytes are already zero-padded. */
  lemma FixedLabelStructAgrees(labelString: seq<byte>, valueString: seq<byte>)
    requires |labelString| >= FixedLabelElementsOctetStringSize
    ensures FixedLabelStructAsWritten(labelString, valueString).Some?
    ensures FixedLabelStructAsWritten(labelString, valueString).value.valueSpan
              == FixedLabelStruct(labelString, valueString).valueSpan
    ensures Padded(labelString[..FixedLabelElementsOctetStringSize]) ==>
              FixedLabelStructAsWritten(labelString, valueString)
                == Some(FixedLabelStruct(labelString, valueString))
  {
    if Padded(labelString[..FixedLabelElementsOctetStringSize]) {
      StrNCpyOfPadded(labelString[..FixedLabelElementsOctetStringSize]);
      StrNCpyPrefix(labelString, FixedLabelElementsOctetStringSize);
    }
  }

  /** The string literal `"room"`: four characters and its terminator, five bytes in all. */
  const RoomLiteral: seq<byte> := [114, 111, 111, 109, 0]

  /** The characters of the literal "room". */
  lemma RoomText()
    ensures Text(RoomLiteral) == [114, 111, 111, 109]
  {
    StrLenIs(RoomLiteral, 4);
  }

  /** The label `EncodeFixedLabel` is called with is shorter than the 16-byte span built over
      it, so the original construction is undefined for every location value. */
  lemma RoomLabelReadsPastLiteral(valueString: seq<byte>)
    ensures |RoomLiteral| < FixedLabelElementsOctetStringSize
    ensures FixedLabelStructAsWritten(RoomLiteral, valueString) == None
  {
  }

  /** `EncodeFixedLabel(label, value, ...)` up to what it hands to `emberAfCopyList`: a list of
      exactly one element, whose count is written separately as 1. The element is the corrected
      label struct: the label span is the bounded copy, since the original 16-byte span over the
      label is undefined for the one label the bridge passes (`RoomLabelReadsPastLiteral`). */
  function EncodeFixedLabel(labelString: seq<byte>, valueString: seq<byte>): (r: LabelList)
    ensures r.count == |r.entries| == 1
    ensures |r.entries[0].labelSpan| == FixedLabelElementsOctetStringSize
    ensures |r.entries[0].valueSpan| == FixedLabelElementsOctetStringSize
    ensures Text(r.entries[0].labelSpan) == Truncated(labelString, FixedLabelElementsOctetStringSize)
    ensures Text(r.entries[0].valueSpan) == Truncated(valueString, FixedLabelElementsOctetStringSize)
    ensures Padded(r.entries[0].labelSpan) && Padded(r.entries[0].valueSpan)
  {
    LabelList(1, [FixedLabelStruct(labelString, valueString)])
  }
}
