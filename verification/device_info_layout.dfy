/** The Device Information Service identifiers and the PnP ID value
    (pnp_id_data_t): vendor id source, vendor id, product id, version, packed
    into seven bytes with the 16-bit fields little-endian. */
module DeviceInfoLayout {
  import opened Bytes

  const ServiceUuid: uint16 := 0x180A
  const ManufacturerUuid: uint16 := 0x2A29
  const PnpUuid: uint16 := 0x2A50

  datatype PnpId = PnpId(vidSource: uint8, vid: uint16, pid: uint16, version: uint16)

  function Encode(p: PnpId): (r: seq<uint8>)
    ensures |r| == 7
    ensures r[0] == p.vidSource
    ensures r[1..3] == Le16(p.vid)
    ensures r[3..5] == Le16(p.pid)
    ensures r[5..7] == Le16(p.version)
  {
    [p.vidSource] + Le16(p.vid) + Le16(p.pid) + Le16(p.version)
  }

  function Decode(b: seq<uint8>): (p: PnpId)
    requires |b| == 7
    ensures Encode(p) == b
  {
    Le16OfFromLe16(b[1], b[2]);
    Le16OfFromLe16(b[3], b[4]);
    Le16OfFromLe16(b[5], b[6]);
    PnpId(b[0], FromLe16(b[1], b[2]), FromLe16(b[3], b[4]), FromLe16(b[5], b[6]))
  }

  lemma DecodeEncode(p: PnpId)
    ensures Decode(Encode(p)) == p
  {}

  lemma UuidsDistinct()
    ensures ServiceUuid != ManufacturerUuid && ServiceUuid != PnpUuid && ManufacturerUuid != PnpUuid
  {}
}
