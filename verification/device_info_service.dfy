/** The Device Information Service's access callbacks and registration
    (ble_device_info.c). Both characteristics are read only; failed appends
    become "insufficient resources". */
module DeviceInfoService {
  import opened Bytes
  import opened Att
  import opened DeviceInfoLayout
  import Stack

  /** strlen and the bytes it measures: a C string's bytes up to, not
      including, its first NUL. */
  function CStringBytes(buf: seq<uint8>): (b: seq<uint8>)
    requires 0 in buf
    ensures |b| < |buf| && buf[|b|] == 0
    ensures b == buf[..|b|] && 0 !in b
  {
    if buf[0] == 0 then [] else [buf[0]] + CStringBytes(buf[1..])
  }

  /** The manufacturer name "X" as the firmware stores it, NUL included. */
  const ManufacturerName: seq<uint8> := [0x58, 0x00]

  const Pnp: PnpId := PnpId(0x02, 0xE502, 0xA111, 0x0210)

  /** Manufacturer Name: a read appends the name's characters, without the NUL. */
  function ManufacturerAccess(a: Access): (r: Response)
    ensures a.op == ReadChr && a.appendRc == 0 ==> r == Response(0, [0x58])
    ensures a.op == ReadChr && a.appendRc != 0 ==> r == Response(ErrInsufficientResources, [])
    ensures a.op != ReadChr ==> r == Rejected
  {
    if a.op == ReadChr then AppendOrInsufficient(a.appendRc, CStringBytes(ManufacturerName)) else Rejected
  }

  /** PnP ID: a read appends the seven-byte value. */
  function PnpIdAccess(a: Access): (r: Response)
    ensures a.op == ReadChr && a.appendRc == 0 ==> r == Response(0, [0x02, 0x02, 0xE5, 0x11, 0xA1, 0x10, 0x02])
    ensures a.op == ReadChr && a.appendRc != 0 ==> r == Response(ErrInsufficientResources, [])
    ensures a.op != ReadChr ==> r == Rejected
    ensures r.rc == 0 ==> Decode(r.appended) == Pnp
  {
    if a.op == ReadChr then AppendOrInsufficient(a.appendRc, Encode(Pnp)) else Rejected
  }

  /** ble_device_info_init: count the service table's configuration, then register it. */
  const InitSteps: seq<Stack.Step> :=
    [Stack.Checked(Stack.CountConfig(Stack.DeviceInformation)), Stack.Checked(Stack.AddServices(Stack.DeviceInformation))]

  function Init(stack: Stack.Command -> int): (r: Stack.Run)
    ensures r.rc == 0 <==>
      stack(Stack.CountConfig(Stack.DeviceInformation)) == 0 && stack(Stack.AddServices(Stack.DeviceInformation)) == 0
    ensures stack(Stack.CountConfig(Stack.DeviceInformation)) != 0 ==>
      r == Stack.Run(stack(Stack.CountConfig(Stack.DeviceInformation)), [Stack.CountConfig(Stack.DeviceInformation)])
    ensures stack(Stack.CountConfig(Stack.DeviceInformation)) == 0 ==>
      r == Stack.Run(stack(Stack.AddServices(Stack.DeviceInformation)),
                     [Stack.CountConfig(Stack.DeviceInformation), Stack.AddServices(Stack.DeviceInformation)])
  {
    Stack.Sequence(InitSteps, stack)
  }
}
