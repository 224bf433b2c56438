/** The boot-style keyboard input report (ble_keyboard_report_t): modifier
    bits, a reserved byte, six key codes; eight bytes, packed. */
module KeyboardReport {
  import opened Bytes

  type KeyCodes = s: seq<uint8> | |s| == 6 witness [0, 0, 0, 0, 0, 0]

  datatype Report = Report(modifier: uint8, reserved: uint8, keycode: KeyCodes)

  function Encode(r: Report): (b: seq<uint8>)
    ensures |b| == 8
    ensures b[0] == r.modifier && b[1] == r.reserved
    ensures forall i :: 0 <= i < 6 ==> b[2 + i] == r.keycode[i]
  {
    [r.modifier, r.reserved] + r.keycode
  }

  function Decode(b: seq<uint8>): (r: Report)
    requires |b| == 8
    ensures Encode(r) == b
  {
    Report(b[0], b[1], b[2..])
  }

  lemma DecodeEncode(r: Report)
    ensures Decode(Encode(r)) == r
  {
    assert Encode(r)[2..] == r.keycode;
  }
}
