/** The Client Characteristic Configuration descriptor value (ble_cccd_data_t),
    section 3.3.3.3 of Bluetooth Core Vol 3 Part G: two bytes, notifications
    enabled in bit 0, indications enabled in bit 1, everything else reserved.
    The struct's bitfields are allocated from the least significant bit of
    byte 0, as GCC does on a little-endian target. */
module BleCccd {
  import opened Bytes

  const CccdUuid: uint16 := 0x2902

  type uint6 = x: int | 0 <= x < 0x40

  datatype Cccd = Cccd(notify: bool, indicate: bool, reserved: uint6, reserved2: uint8)

  /** The value both CCCD variables start from: nothing enabled, reserved bits clear. */
  const Disabled: Cccd := Cccd(false, false, 0, 0)

  function BitValue(b: bool): nat
  {
    if b then 1 else 0
  }

  /** The two bytes the struct occupies in memory. */
  function Encode(c: Cccd): (r: seq<uint8>)
    ensures |r| == 2
    ensures r[0] % 2 == BitValue(c.notify)
    ensures r[0] / 2 % 2 == BitValue(c.indicate)
    ensures r[0] / 4 == c.reserved
    ensures r[1] == c.reserved2
  {
    [BitValue(c.notify) + 2 * BitValue(c.indicate) + 4 * c.reserved, c.reserved2]
  }

  /** The struct a 2-byte memory image stands for. Every image is some value:
      re-encoding gives back exactly the bytes. */
  function Decode(b: seq<uint8>): (c: Cccd)
    requires |b| == 2
    ensures Encode(c) == b
  {
    var b0 := b[0];
    assert b0 == b0 % 2 + 2 * (b0 / 2 % 2) + 4 * (b0 / 4);
    Cccd(b0 % 2 == 1, b0 / 2 % 2 == 1, b0 / 4, b[1])
  }

  lemma DecodeEncode(c: Cccd)
    ensures Decode(Encode(c)) == c
  {}
}
