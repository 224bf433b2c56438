/** The Characteristic Presentation Format descriptor value (ble_unit_data_t),
    section 3.3.3.5 of Bluetooth Core Vol 3 Part G, as the packed struct lays
    it out: format, exponent, unit (uint16), name space, description (uint16),
    seven bytes with no padding. */
module BleUnit {
  import opened Bytes

  const UnitUuid: uint16 := 0x2904

  /** The Bluetooth unit "percentage". */
  const Percentage: uint16 := 0x27AD

  datatype PresentationFormat = PresentationFormat(
    format: uint8,
    exponent: uint8,
    unit: uint16,
    namespace: uint8,
    description: uint16)

  function Encode(p: PresentationFormat): (r: seq<uint8>)
    ensures |r| == 7
    ensures r[0] == p.format && r[1] == p.exponent && r[4] == p.namespace
    ensures r[2..4] == Le16(p.unit) && r[5..7] == Le16(p.description)
  {
    [p.format, p.exponent] + Le16(p.unit) + [p.namespace] + Le16(p.description)
  }

  function Decode(b: seq<uint8>): (p: PresentationFormat)
    requires |b| == 7
    ensures Encode(p) == b
  {
    Le16OfFromLe16(b[2], b[3]);
    Le16OfFromLe16(b[5], b[6]);
    PresentationFormat(b[0], b[1], FromLe16(b[2], b[3]), b[4], FromLe16(b[5], b[6]))
  }

  lemma DecodeEncode(p: PresentationFormat)
    ensures Decode(Encode(p)) == p
  {}
}
