/** The Battery Service's access callbacks and registration (ble_battery.c).
    Failed appends become "insufficient resources". The battery level's CCCD
    is kept in one byte: a read returns that byte alone, and a write keeps
    the low byte of the 16-bit value written. */
module BatteryService {
  import opened Bytes
  import opened Att
  import BleCccd
  import BleUnit
  import Stack

  /** The reported battery level, in percent. */
  const Level: uint8 := 100

  /** The level's Presentation Format: unsigned 8-bit, exponent 0, percentage,
      Bluetooth SIG name space, no description. */
  const LevelFormat: BleUnit.PresentationFormat := BleUnit.PresentationFormat(0x04, 0x00, BleUnit.Percentage, 0x01, 0x0000)

  /** The seven bytes the Presentation Format descriptor holds. */
  lemma LevelFormatBytes()
    ensures BleUnit.Encode(LevelFormat) == [0x04, 0x00, 0xAD, 0x27, 0x01, 0x00, 0x00]
  {
    assert Le16(BleUnit.Percentage) == [0xAD, 0x27];
  }

  /** The CCCD byte before any write. */
  const InitialCcc: uint8 := 0

  /** Battery Level: a characteristic read appends the one-byte level. */
  function LevelAccess(a: Access): (r: Response)
    ensures a.op == ReadChr && a.appendRc == 0 ==> r == Response(0, [0x64])
    ensures a.op == ReadChr && a.appendRc != 0 ==> r == Response(ErrInsufficientResources, [])
    ensures a.op != ReadChr ==> r == Rejected
  {
    if a.op == ReadChr then AppendOrInsufficient(a.appendRc, [Level]) else Rejected
  }

  /** The little-endian uint16_t written to the CCCD, narrowed to the uint8_t
      it is stored in. */
  function StoredCcc(lo: uint8, hi: uint8): (v: uint8)
    ensures v == lo
  {
    FromLe16(lo, hi) % 0x100
  }

  /** The level's descriptors, told apart by UUID: the CCCD (read and write)
      and the Presentation Format (read only). */
  function LevelDscAccess(a: Access, uuid: uint16, ccc: uint8): (h: Handled<uint8>)
    ensures uuid == BleCccd.CccdUuid && a.op == ReadDsc ==>
      && h.state == ccc
      && h.response == (if a.appendRc == 0 then Response(0, [ccc]) else Response(ErrInsufficientResources, []))
    ensures uuid == BleCccd.CccdUuid && a.op == WriteDsc && |a.written| >= 2 ==>
      h == Handled(Response(0, []), a.written[0])
    ensures uuid == BleCccd.CccdUuid && a.op == WriteDsc && |a.written| < 2 ==>
      h == Handled(Rejected, ccc)
    ensures uuid == BleUnit.UnitUuid && a.op == ReadDsc ==>
      && h.state == ccc
      && h.response == (if a.appendRc == 0 then Response(0, [0x04, 0x00, 0xAD, 0x27, 0x01, 0x00, 0x00])
                        else Response(ErrInsufficientResources, []))
    ensures uuid == BleUnit.UnitUuid && a.op != ReadDsc ==> h == Handled(Rejected, ccc)
    ensures uuid != BleCccd.CccdUuid && uuid != BleUnit.UnitUuid ==> h == Handled(Rejected, ccc)
    ensures a.op == ReadChr || a.op == WriteChr ==> h == Handled(Rejected, ccc)
  {
    if uuid == BleCccd.CccdUuid && a.op == ReadDsc then
      Handled(AppendOrInsufficient(a.appendRc, [ccc]), ccc)
    else if uuid == BleCccd.CccdUuid && a.op == WriteDsc then
      var c := CopyData(a.written, 2);
      if c.rc != 0 then Handled(Rejected, ccc)
      else Handled(Response(0, []), StoredCcc(c.copied[0], c.copied[1]))
    else if uuid == BleUnit.UnitUuid && a.op == ReadDsc then
      LevelFormatBytes();
      Handled(AppendOrInsufficient(a.appendRc, BleUnit.Encode(LevelFormat)), ccc)
    else
      Handled(Rejected, ccc)
  }

  /** ble_battery_init: count the service table's configuration, then register it. */
  const InitSteps: seq<Stack.Step> :=
    [Stack.Checked(Stack.CountConfig(Stack.Battery)), Stack.Checked(Stack.AddServices(Stack.Battery))]

  function Init(stack: Stack.Command -> int): (r: Stack.Run)
    ensures r.rc == 0 <==> stack(Stack.CountConfig(Stack.Battery)) == 0 && stack(Stack.AddServices(Stack.Battery)) == 0
    ensures stack(Stack.CountConfig(Stack.Battery)) != 0 ==>
      r == Stack.Run(stack(Stack.CountConfig(Stack.Battery)), [Stack.CountConfig(Stack.Battery)])
    ensures stack(Stack.CountConfig(Stack.Battery)) == 0 ==>
      r == Stack.Run(stack(Stack.AddServices(Stack.Battery)), [Stack.CountConfig(Stack.Battery), Stack.AddServices(Stack.Battery)])
  {
    Stack.Sequence(InitSteps, stack)
  }
}
