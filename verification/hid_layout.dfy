/** Identifiers and value layouts of the HID Service: UUIDs, report types,
    protocol modes, HID Information and Report Reference.

    Two values are stored through C enum types, whose size the compiler picks
    (4 bytes with GCC's default, 1 with -fshort-enums). That width is a
    parameter here, and the enum's value is stored little-endian in it. */
module HidLayout {
  import opened Bytes
  import opened Wrappers

  const DefaultReportId: uint8 := 0x01

  const ServiceUuid: uint16 := 0x1812
  const InfoUuid: uint16 := 0x2A4A
  const ReportMapUuid: uint16 := 0x2A4B
  const ControlPointUuid: uint16 := 0x2A4C
  const ReportUuid: uint16 := 0x2A4D
  const ProtocolModeUuid: uint16 := 0x2A4E
  const ReportReferenceUuid: uint16 := 0x2908

  /** The size in bytes of an enum-typed object. */
  type EnumWidth = w: nat | 1 <= w witness 1

  datatype ReportType = Input | Output | Feature

  function ReportTypeCode(t: ReportType): (c: uint8)
    ensures 1 <= c <= 3
  {
    match t
    case Input => 0x01
    case Output => 0x02
    case Feature => 0x03
  }

  /** The report type an enum value names, if any. */
  function ReportTypeOf(c: nat): (t: Option<ReportType>)
    ensures t.Some? <==> 1 <= c <= 3
    ensures t.Some? ==> ReportTypeCode(t.value) == c
  {
    if c == 0x01 then Some(Input)
    else if c == 0x02 then Some(Output)
    else if c == 0x03 then Some(Feature)
    else None
  }

  datatype ProtocolMode = BootMode | ReportMode

  function ProtocolModeCode(m: ProtocolMode): (c: uint8)
    ensures c <= 1
  {
    match m
    case BootMode => 0x00
    case ReportMode => 0x01
  }

  function ProtocolModeOf(c: nat): (m: Option<ProtocolMode>)
    ensures m.Some? <==> c <= 1
    ensures m.Some? ==> ProtocolModeCode(m.value) == c
  {
    if c == 0x00 then Some(BootMode) else if c == 0x01 then Some(ReportMode) else None
  }

  /** The enum-typed protocol mode as stored in memory. */
  function EncodeProtocolMode(m: ProtocolMode, w: EnumWidth): (r: seq<uint8>)
    ensures |r| == w
    ensures r[0] == ProtocolModeCode(m)
    ensures forall i :: 1 <= i < w ==> r[i] == 0
  {
    LeBytesOfByte(ProtocolModeCode(m), w);
    LeBytes(ProtocolModeCode(m), w)
  }

  function DecodeProtocolMode(b: seq<uint8>): (m: Option<ProtocolMode>)
    requires |b| >= 1
    ensures m.Some? ==> EncodeProtocolMode(m.value, |b|) == b
    ensures m.Some? <==> ProtocolModeOf(LeValue(b)).Some?
  {
    LeBytesOfLeValue(b);
    ProtocolModeOf(LeValue(b))
  }

  lemma DecodeEncodeProtocolMode(m: ProtocolMode, w: EnumWidth)
    ensures DecodeProtocolMode(EncodeProtocolMode(m, w)) == Some(m)
  {
    LeValueOfLeBytes(ProtocolModeCode(m), w);
  }

  type Pair = s: seq<uint8> | |s| == 2 witness [0, 0]

  /** HID Information (ble_hid_info_data_t): the bcdHID version as two raw
      bytes, the country code, the flags. */
  datatype HidInformation = HidInformation(version: Pair, countryCode: uint8, flags: uint8)

  function EncodeInfo(h: HidInformation): (r: seq<uint8>)
    ensures |r| == 4
    ensures r[0..2] == h.version && r[2] == h.countryCode && r[3] == h.flags
  {
    h.version + [h.countryCode, h.flags]
  }

  function DecodeInfo(b: seq<uint8>): (h: HidInformation)
    requires |b| == 4
    ensures EncodeInfo(h) == b
  {
    HidInformation(b[0..2], b[2], b[3])
  }

  lemma DecodeEncodeInfo(h: HidInformation)
    ensures DecodeInfo(EncodeInfo(h)) == h
  {}

  /** Report Reference (ble_hid_report_descriptor_t): a report id byte, then
      the enum-typed report type. */
  datatype ReportReference = ReportReference(reportId: uint8, reportType: ReportType)

  function EncodeReference(rr: ReportReference, w: EnumWidth): (r: seq<uint8>)
    ensures |r| == 1 + w
    ensures r[0] == rr.reportId && r[1] == ReportTypeCode(rr.reportType)
    ensures forall i :: 2 <= i < |r| ==> r[i] == 0
  {
    LeBytesOfByte(ReportTypeCode(rr.reportType), w);
    [rr.reportId] + LeBytes(ReportTypeCode(rr.reportType), w)
  }

  /** The Report Reference a (1 + w)-byte image stands for; none when the
      enum part holds no report type. */
  function DecodeReference(b: seq<uint8>): (rr: Option<ReportReference>)
    requires |b| >= 2
    ensures rr.Some? <==> ReportTypeOf(LeValue(b[1..])).Some?
    ensures rr.Some? ==> EncodeReference(rr.value, |b| - 1) == b
  {
    LeBytesOfLeValue(b[1..]);
    match ReportTypeOf(LeValue(b[1..]))
    case None => None
    case Some(t) => Some(ReportReference(b[0], t))
  }

  lemma DecodeEncodeReference(rr: ReportReference, w: EnumWidth)
    ensures DecodeReference(EncodeReference(rr, w)) == Some(rr)
  {
    var b := EncodeReference(rr, w);
    assert b[1..] == LeBytes(ReportTypeCode(rr.reportType), w);
    LeValueOfLeBytes(ReportTypeCode(rr.reportType), w);
  }

  /** No two of the HID identifiers coincide, so a handler that branches on a
      descriptor UUID reaches at most one branch. */
  lemma UuidsDistinct()
    ensures |{ServiceUuid, InfoUuid, ReportMapUuid, ControlPointUuid, ReportUuid, ProtocolModeUuid, ReportReferenceUuid}| == 7
  {}
}
