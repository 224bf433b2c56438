/** The attribute space the three services register, with each attribute's
    access routed to the callback the service tables attach to it. The two
    CCCD values, which the firmware keeps in static variables, are the
    server's whole state. */
module GattServer {
  import opened Bytes
  import opened Att
  import BleCccd
  import BleUnit
  import HidLayout
  import HidService
  import BatteryService
  import DeviceInfoService

  datatype Attribute =
    | HidInformation
    | HidReportMap
    | HidControlPoint
    | HidInputReport
    | HidInputReportReference
    | HidInputReportCccd
    | HidOutputReport
    | HidOutputReportReference
    | HidProtocolMode
    | BatteryLevel
    | BatteryLevelCccd
    | BatteryLevelFormat
    | Manufacturer
    | PnpId

  /** The UUID a descriptor is registered under; the shared descriptor
      callbacks branch on it. */
  function DescriptorUuid(attr: Attribute): uint16
  {
    match attr
    case HidInputReportReference => HidLayout.ReportReferenceUuid
    case HidOutputReportReference => HidLayout.ReportReferenceUuid
    case HidInputReportCccd => BleCccd.CccdUuid
    case BatteryLevelCccd => BleCccd.CccdUuid
    case BatteryLevelFormat => BleUnit.UnitUuid
    case _ => 0
  }

  datatype Server = Server(inputCccd: BleCccd.Cccd, batteryCcc: uint8)

  /** The state at boot. */
  const Boot: Server := Server(HidService.InitialInputCccd, BatteryService.InitialCcc)

  /** One access to `attr`. `w` is the size the compiler gives enums. */
  function Handle(s: Server, attr: Attribute, a: Access, w: HidLayout.EnumWidth): (h: Handled<Server>)
    ensures attr != HidInputReportCccd ==> h.state.inputCccd == s.inputCccd
    ensures attr != BatteryLevelCccd ==> h.state.batteryCcc == s.batteryCcc
    ensures a.op != WriteDsc ==> h.state == s
  {
    var uuid := DescriptorUuid(attr);
    match attr
    case HidInformation => Handled(HidService.InfoAccess(a), s)
    case HidReportMap => Handled(HidService.ReportMapAccess(a), s)
    case HidControlPoint => Handled(HidService.ControlPointAccess(a), s)
    case HidInputReport => Handled(HidService.InputReportAccess(a), s)
    case HidInputReportReference =>
      var h := HidService.InputReportDscAccess(a, uuid, s.inputCccd, w);
      Handled(h.response, s.(inputCccd := h.state))
    case HidInputReportCccd =>
      var h := HidService.InputReportDscAccess(a, uuid, s.inputCccd, w);
      Handled(h.response, s.(inputCccd := h.state))
    case HidOutputReport => Handled(HidService.OutputReportAccess(a), s)
    case HidOutputReportReference => Handled(HidService.OutputReportDscAccess(a, uuid, w), s)
    case HidProtocolMode => Handled(HidService.ProtocolModeAccess(a, w), s)
    case BatteryLevel => Handled(BatteryService.LevelAccess(a), s)
    case BatteryLevelCccd =>
      var h := BatteryService.LevelDscAccess(a, uuid, s.batteryCcc);
      Handled(h.response, s.(batteryCcc := h.state))
    case BatteryLevelFormat =>
      var h := BatteryService.LevelDscAccess(a, uuid, s.batteryCcc);
      Handled(h.response, s.(batteryCcc := h.state))
    case Manufacturer => Handled(DeviceInfoService.ManufacturerAccess(a), s)
    case PnpId => Handled(DeviceInfoService.PnpIdAccess(a), s)
  }

  /** Only a descriptor write to one of the two CCCDs changes the server. */
  lemma OnlyCccdWritesChangeState(s: Server, attr: Attribute, a: Access, w: HidLayout.EnumWidth)
    requires attr != HidInputReportCccd && attr != BatteryLevelCccd
    ensures Handle(s, attr, a, w).state == s
  {}

  /** The control point and input report characteristic succeed on every
      access, append nothing and change nothing. */
  lemma NoOpCharacteristics(s: Server, a: Access, w: HidLayout.EnumWidth)
    ensures Handle(s, HidControlPoint, a, w) == Handled(Response(0, []), s)
    ensures Handle(s, HidInputReport, a, w) == Handled(Response(0, []), s)
  {}

  /** The output report declares read permission, but its callback turns reads away. */
  lemma OutputReportReadRejected(s: Server, a: Access, w: HidLayout.EnumWidth)
    requires a.op == ReadChr
    ensures Handle(s, HidOutputReport, a, w) == Handled(Rejected, s)
  {}

  /** A read of the input report's Report Reference gives report id 1, type Input. */
  lemma InputReportReferenceRead(s: Server, a: Access, w: HidLayout.EnumWidth)
    requires a.op == ReadDsc && a.appendRc == 0
    ensures Handle(s, HidInputReportReference, a, w).response.rc == 0
    ensures Handle(s, HidInputReportReference, a, w).response.appended[..2] == [HidLayout.DefaultReportId, 0x01]
  {}

  /** The Report Reference descriptors are read only. */
  lemma ReportReferenceWriteRejected(s: Server, a: Access, w: HidLayout.EnumWidth)
    requires a.op == WriteDsc
    ensures Handle(s, HidInputReportReference, a, w) == Handled(Rejected, s)
    ensures Handle(s, HidOutputReportReference, a, w) == Handled(Rejected, s)
  {}

  /** After a successful write of two bytes to the input report's CCCD, a read
      of it returns exactly those bytes. */
  lemma HidCccdWriteThenRead(s: Server, value: seq<uint8>, w: HidLayout.EnumWidth)
    requires |value| == 2
    ensures var written := Handle(s, HidInputReportCccd, Access(WriteDsc, value, 0), w);
      && written.response == Response(0, [])
      && Handle(written.state, HidInputReportCccd, Access(ReadDsc, [], 0), w).response == Response(0, value)
  {
    assert value[..2] == value;
  }

  /** Writing {0x01, 0x00} to the input report's CCCD turns notifications on,
      and a read returns {0x01, 0x00}. */
  lemma HidCccdEnableNotifications(s: Server, w: HidLayout.EnumWidth)
    ensures var written := Handle(s, HidInputReportCccd, Access(WriteDsc, [0x01, 0x00], 0), w);
      && written.response.rc == 0
      && written.state.inputCccd.notify && !written.state.inputCccd.indicate
      && Handle(written.state, HidInputReportCccd, Access(ReadDsc, [], 0), w).response == Response(0, [0x01, 0x00])
  {
    HidCccdWriteThenRead(s, [0x01, 0x00], w);
  }

  /** After a successful write to the battery level's CCCD, a read returns one
      byte: the low byte of what was written. */
  lemma BatteryCccdWriteThenRead(s: Server, value: seq<uint8>, w: HidLayout.EnumWidth)
    requires |value| >= 2
    ensures var written := Handle(s, BatteryLevelCccd, Access(WriteDsc, value, 0), w);
      && written.response == Response(0, [])
      && Handle(written.state, BatteryLevelCccd, Access(ReadDsc, [], 0), w).response == Response(0, [value[0]])
  {}

  /** A write of fewer than two bytes to the battery level's CCCD is rejected
      and leaves the server as it was. */
  lemma BatteryCccdShortWrite(s: Server, value: seq<uint8>, w: HidLayout.EnumWidth)
    requires |value| < 2
    ensures Handle(s, BatteryLevelCccd, Access(WriteDsc, value, 0), w) == Handled(Rejected, s)
  {}
}
