/** The HID Service's access callbacks and registration (ble_hid.c). Every
    read callback passes a failed append's status straight through. The input
    report's CCCD is the one piece of state the service owns. */
module HidService {
  import opened Bytes
  import opened Att
  import opened HidLayout
  import BleCccd
  import ReportMap
  import Stack

  /** HID version 1.11 (bytes 0x11 0x01), no country code, flags 0x02. */
  const Info: HidInformation := HidInformation([0x11, 0x01], 0x00, 0x02)

  const Mode: ProtocolMode := ReportMode

  const InputDescriptor: ReportReference := ReportReference(0x01, Input)
  const OutputDescriptor: ReportReference := ReportReference(0x01, Output)

  /** The input report's CCCD before any write. */
  const InitialInputCccd: BleCccd.Cccd := BleCccd.Disabled

  /** HID Information: a characteristic read appends the four-byte value. */
  function InfoAccess(a: Access): (r: Response)
    ensures a.op == ReadChr && a.appendRc == 0 ==> r == Response(0, [0x11, 0x01, 0x00, 0x02])
    ensures a.op == ReadChr && a.appendRc != 0 ==> r == Response(a.appendRc, [])
    ensures a.op != ReadChr ==> r == Rejected
    ensures r.rc == 0 ==> DecodeInfo(r.appended) == Info
  {
    if a.op == ReadChr then AppendRaw(a.appendRc, EncodeInfo(Info)) else Rejected
  }

  /** Report Map: a characteristic read appends the whole report descriptor,
      which parses into the items of the keyboard report. */
  function ReportMapAccess(a: Access): (r: Response)
    ensures a.op == ReadChr ==> r.rc == a.appendRc
    ensures r.rc == 0 ==> r.appended == ReportMap.Descriptor && |r.appended| == 65
    ensures r.rc == 0 ==> ReportMap.ParseItems(r.appended) == Wrappers.Some(ReportMap.Items)
    ensures r.rc != 0 ==> r.appended == []
    ensures a.op != ReadChr ==> r == Rejected
  {
    ReportMap.ParsesToItems();
    if a.op == ReadChr then AppendRaw(a.appendRc, ReportMap.Descriptor) else Rejected
  }

  /** HID Control Point: every access succeeds and nothing is appended. */
  function ControlPointAccess(a: Access): Response
  {
    Response(0, [])
  }

  /** Input report characteristic: every access succeeds and nothing is appended. */
  function InputReportAccess(a: Access): Response
  {
    Response(0, [])
  }

  /** The input report's descriptors, told apart by UUID: the Report Reference
      (read only) and the CCCD (read and write). */
  function InputReportDscAccess(a: Access, uuid: uint16, cccd: BleCccd.Cccd, w: EnumWidth): (h: Handled<BleCccd.Cccd>)
    ensures uuid == ReportReferenceUuid && a.op == ReadDsc ==>
      && h.state == cccd
      && h.response.rc == a.appendRc
      && (a.appendRc == 0 ==> h.response.appended == [0x01, 0x01] + Zeros(w - 1))
    ensures uuid == BleCccd.CccdUuid && a.op == ReadDsc ==>
      && h.state == cccd
      && h.response.rc == a.appendRc
      && (a.appendRc == 0 ==> h.response.appended == BleCccd.Encode(cccd))
    ensures uuid == BleCccd.CccdUuid && a.op == WriteDsc ==>
      && h.response.appended == []
      && (h.response.rc == 0 <==> |a.written| >= 2)
      && (|a.written| >= 2 ==> BleCccd.Encode(h.state) == a.written[..2])
      && (|a.written| < 2 ==> h.response.rc == CopyShort)
    ensures uuid != ReportReferenceUuid && uuid != BleCccd.CccdUuid ==> h == Handled(Rejected, cccd)
    ensures a.op == ReadChr || a.op == WriteChr ==> h == Handled(Rejected, cccd)
    ensures uuid == ReportReferenceUuid && a.op == WriteDsc ==> h == Handled(Rejected, cccd)
    ensures h.response.rc != 0 ==> h.response.appended == []
  {
    if uuid == ReportReferenceUuid && a.op == ReadDsc then
      LeBytesOfByte(1, w);
      Handled(AppendRaw(a.appendRc, EncodeReference(InputDescriptor, w)), cccd)
    else if uuid == BleCccd.CccdUuid && a.op == ReadDsc then
      Handled(AppendRaw(a.appendRc, BleCccd.Encode(cccd)), cccd)
    else if uuid == BleCccd.CccdUuid && a.op == WriteDsc then
      var c := CopyData(a.written, 2);
      // The copy goes straight into the struct, so a short buffer still
      // overwrites the bytes it has.
      var image := c.copied + BleCccd.Encode(cccd)[|c.copied|..];
      Handled(Response(c.rc, []), BleCccd.Decode(image))
    else
      Handled(Rejected, cccd)
  }

  /** Output report characteristic: a write is accepted and ignored; anything
      else, a read included, is rejected. */
  function OutputReportAccess(a: Access): (r: Response)
    ensures r.appended == []
    ensures r.rc == 0 <==> a.op == WriteChr
    ensures r.rc != 0 ==> r == Rejected
  {
    if a.op == WriteChr then Response(0, []) else Rejected
  }

  /** The output report's Report Reference: only a descriptor read of that UUID
      is served. */
  function OutputReportDscAccess(a: Access, uuid: uint16, w: EnumWidth): (r: Response)
    ensures uuid == ReportReferenceUuid && a.op == ReadDsc ==>
      && r.rc == a.appendRc
      && (a.appendRc == 0 ==> r.appended == [0x01, 0x02] + Zeros(w - 1))
    ensures !(uuid == ReportReferenceUuid && a.op == ReadDsc) ==> r == Rejected
    ensures r.rc != 0 ==> r.appended == []
    ensures r.rc == 0 ==> DecodeReference(r.appended) == Wrappers.Some(OutputDescriptor)
  {
    if uuid == ReportReferenceUuid && a.op == ReadDsc then
      LeBytesOfByte(2, w);
      DecodeEncodeReference(OutputDescriptor, w);
      AppendRaw(a.appendRc, EncodeReference(OutputDescriptor, w))
    else Rejected
  }

  /** Protocol Mode: a characteristic read appends the enum-typed mode, whose
      first byte says Report mode. */
  function ProtocolModeAccess(a: Access, w: EnumWidth): (r: Response)
    ensures a.op == ReadChr ==> r.rc == a.appendRc
    ensures r.rc == 0 ==>
      && |r.appended| == w
      && r.appended[0] == 0x01
      && DecodeProtocolMode(r.appended) == Wrappers.Some(ReportMode)
    ensures a.op != ReadChr ==> r == Rejected
    ensures r.rc != 0 ==> r.appended == []
  {
    DecodeEncodeProtocolMode(Mode, w);
    if a.op == ReadChr then AppendRaw(a.appendRc, EncodeProtocolMode(Mode, w)) else Rejected
  }

  /** ble_hid_init: count the service table's configuration, then register it. */
  const InitSteps: seq<Stack.Step> := [Stack.Checked(Stack.CountConfig(Stack.Hid)), Stack.Checked(Stack.AddServices(Stack.Hid))]

  function Init(stack: Stack.Command -> int): (r: Stack.Run)
    ensures r.rc == 0 <==> stack(Stack.CountConfig(Stack.Hid)) == 0 && stack(Stack.AddServices(Stack.Hid)) == 0
    ensures stack(Stack.CountConfig(Stack.Hid)) != 0 ==>
      r == Stack.Run(stack(Stack.CountConfig(Stack.Hid)), [Stack.CountConfig(Stack.Hid)])
    ensures stack(Stack.CountConfig(Stack.Hid)) == 0 ==>
      r == Stack.Run(stack(Stack.AddServices(Stack.Hid)), [Stack.CountConfig(Stack.Hid), Stack.AddServices(Stack.Hid)])
  {
    Stack.Sequence(InitSteps, stack)
  }
}
