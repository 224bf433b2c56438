/** The stand-alone keyboard firmware of idf-ble-keyboard.c: its own GAP
    set-up, an advertiser that is discoverable but not connectable and puts
    the device address and a URI in the scan response, and the formatter
    that renders the device address for the log. */
module KeyboardApp {
  import opened Bytes
  import opened Wrappers
  import opened Stack

  const DeviceName: string := "BLE KEYBOARD"

  /** GAP Appearance "Generic Tag". */
  const Appearance: uint16 := 0x0200

  /** Scheme-name code for "https:" in the URI data type. */
  const UriPrefixHttps: uint8 := 0x17

  /** LE Role data type: only the peripheral role is supported. */
  const LeRolePeripheral: uint8 := 0x00

  /** The URI advertised in the scan response: the https scheme code
      followed by "//espressif.com". */
  const EspUri: seq<uint8> :=
    [0x17, 0x2F, 0x2F, 0x65, 0x73, 0x70, 0x72, 0x65, 0x73, 0x73, 0x69, 0x66, 0x2E, 0x63, 0x6F, 0x6D]

  lemma EspUriIsEspressifHttps()
    ensures |EspUri| == 16 && EspUri[0] == UriPrefixHttps
    ensures forall i :: 1 <= i < 16 ==> EspUri[i] == "//espressif.com"[i - 1] as int
  {}

  /** A six-byte device address, least significant byte first as the stack
      stores it. */
  type Address = a: seq<uint8> | |a| == 6 witness [0, 0, 0, 0, 0, 0]

  // ---- format_addr -------------------------------------------------------

  /** The upper-case hexadecimal digit for `d`. */
  function HexDigit(d: nat): (c: char)
    requires d < 16
    ensures IsHexDigit(c) && HexValue(c) == d
  {
    if d < 10 then (48 + d) as char else (55 + d) as char
  }

  predicate IsHexDigit(c: char)
  {
    '0' <= c <= '9' || 'A' <= c <= 'F'
  }

  function HexValue(c: char): (d: nat)
    requires IsHexDigit(c)
    ensures d < 16
  {
    if c <= '9' then c as int - 48 else c as int - 55
  }

  /** Each digit is the digit of its value: reading and writing a digit are
      inverse. */
  lemma HexDigitOfValue(c: char)
    requires IsHexDigit(c)
    ensures HexDigit(HexValue(c)) == c
  {}

  /** "%02X" of one byte. */
  function ByteHex(b: uint8): (s: string)
    ensures |s| == 2 && IsHexDigit(s[0]) && IsHexDigit(s[1])
    ensures HexValue(s[0]) * 16 + HexValue(s[1]) == b
  {
    [HexDigit(b / 16), HexDigit(b % 16)]
  }

  /** The bytes rendered as "%02X" each, joined by ':'. */
  function Join(bs: seq<uint8>): (s: string)
    requires 1 <= |bs|
    ensures |s| == 3 * |bs| - 1
    ensures forall j :: 0 <= j < |s| ==> (s[j] == ':' <==> j % 3 == 2)
    ensures forall j :: 0 <= j < |s| && j % 3 != 2 ==> IsHexDigit(s[j])
    ensures forall i :: 0 <= i < |bs| ==> s[3 * i..3 * i + 2] == ByteHex(bs[i])
  {
    if |bs| == 1 then ByteHex(bs[0])
    else
      var rest := Join(bs[1..]);
      var s := ByteHex(bs[0]) + ":" + rest;
      assert forall i :: 1 <= i < |bs| ==> s[3 * i..3 * i + 2] == rest[3 * (i - 1)..3 * (i - 1) + 2];
      s
  }

  /** format_addr: "XX:XX:XX:XX:XX:XX" with addr[0] first. */
  function FormatAddr(addr: Address): (s: string)
    ensures |s| == 17
    ensures |s| + 1 <= 18 // the text and its NUL fit the caller's buffer
    ensures forall j :: 0 <= j < 17 ==> (s[j] == ':' <==> j % 3 == 2)
    ensures forall i :: 0 <= i < 6 ==> s[3 * i..3 * i + 2] == ByteHex(addr[i])
  {
    Join(addr)
  }

  /** Reads back what FormatAddr writes: six colon-separated pairs of
      upper-case hexadecimal digits; anything else is None. */
  function ParseAddr(s: string): (r: Option<Address>)
  {
    if |s| == 17
      && (forall j :: 0 <= j < 17 && j % 3 == 2 ==> s[j] == ':')
      && (forall j :: 0 <= j < 17 && j % 3 != 2 ==> IsHexDigit(s[j]))
    then Some(seq(6, i requires 0 <= i < 6 => HexValue(s[3 * i]) * 16 + HexValue(s[3 * i + 1]) as int))
    else None
  }

  /** The formatted address determines the address. */
  lemma ParseFormatAddr(addr: Address)
    ensures ParseAddr(FormatAddr(addr)) == Some(addr)
  {
    var s := FormatAddr(addr);
    forall j | 0 <= j < 17 && j % 3 != 2
      ensures IsHexDigit(s[j])
    {
      var i := j / 3;
      assert s[3 * i..3 * i + 2] == ByteHex(addr[i]);
      assert s[j] == s[3 * i..3 * i + 2][j % 3];
    }
    var read := seq(6, i requires 0 <= i < 6 => HexValue(s[3 * i]) * 16 + HexValue(s[3 * i + 1]) as int);
    forall i | 0 <= i < 6
      ensures read[i] == addr[i]
    {
      assert s[3 * i..3 * i + 2] == ByteHex(addr[i]);
      assert s[3 * i] == s[3 * i..3 * i + 2][0];
      assert s[3 * i + 1] == s[3 * i..3 * i + 2][1];
    }
    assert read == addr;
  }

  /** Every string the parser accepts is the formatting of what it reads. */
  lemma FormatParseAddr(s: string)
    requires ParseAddr(s).Some?
    ensures FormatAddr(ParseAddr(s).value) == s
  {
    var addr := ParseAddr(s).value;
    var t := FormatAddr(addr);
    forall j | 0 <= j < 17
      ensures t[j] == s[j]
    {
      var i := j / 3;
      if j % 3 != 2 {
        assert t[3 * i..3 * i + 2] == ByteHex(addr[i]);
        var b := addr[i];
        assert b == HexValue(s[3 * i]) * 16 + HexValue(s[3 * i + 1]);
        assert b / 16 == HexValue(s[3 * i]) && b % 16 == HexValue(s[3 * i + 1]);
        HexDigitOfValue(s[3 * i]);
        HexDigitOfValue(s[3 * i + 1]);
        if j % 3 == 0 {
          assert t[j] == t[3 * i..3 * i + 2][0];
        } else {
          assert t[j] == t[3 * i..3 * i + 2][1];
        }
      }
    }
  }

  /** Two addresses print alike only if they are equal. */
  lemma FormatAddrInjective(a: Address, b: Address)
    requires FormatAddr(a) == FormatAddr(b)
    ensures a == b
  {
    ParseFormatAddr(a);
    ParseFormatAddr(b);
  }

  // ---- gap_init, adv_init, start_advertising ------------------------------

  const GapInitSteps: seq<Step> :=
    [Unchecked(GapServiceInit), Checked(SetDeviceName(DeviceName)), Checked(SetAppearance(Appearance))]

  /** gap_init: the GAP service, the name, then the appearance; the first
      nonzero status is returned and stops the rest. */
  function GapInit(stack: Command -> int): (r: Run)
    ensures r.rc == 0 <==> stack(SetDeviceName(DeviceName)) == 0 && stack(SetAppearance(Appearance)) == 0
    ensures stack(SetDeviceName(DeviceName)) != 0 ==>
      r == Run(stack(SetDeviceName(DeviceName)), [GapServiceInit, SetDeviceName(DeviceName)])
    ensures stack(SetDeviceName(DeviceName)) == 0 ==>
      r == Run(stack(SetAppearance(Appearance)), [GapServiceInit, SetDeviceName(DeviceName), SetAppearance(Appearance)])
  {
    var gap, setName, setLook := GapServiceInit, SetDeviceName(DeviceName), SetAppearance(Appearance);
    if stack(setName) != 0 then Run(stack(setName), [gap, setName])
    else Run(stack(setLook), [gap, setName, setLook])
  }

  lemma {:induction false} GapInitIsSequence(stack: Command -> int)
    ensures GapInit(stack) == Sequence(GapInitSteps, stack)
  {
    var steps := GapInitSteps;
    SequenceThree(steps[0], steps[1], steps[2], stack);
  }

  /** The advertising data: flags, the complete device name, automatic TX
      power, the Generic Tag appearance and the peripheral role. */
  function AdvData(name: string): AdvFields
  {
    NoFields.(flags := FlagDiscGeneral + FlagBrEdrUnsupported, name := Some(name), nameComplete := true,
              txPower := Some(TxPowerAuto), appearance := Some(Appearance), leRole := Some(LeRolePeripheral))
  }

  /** The scan response: the device address with its type, and the URI. */
  function ScanResponse(ownAddrType: uint8, addr: Address): AdvFields
  {
    NoFields.(deviceAddr := Some(DeviceAddr(ownAddrType, addr)), uri := EspUri)
  }

  /** Non-connectable, general discoverable, no timeout, no event callback. */
  function Params(ownAddrType: uint8): AdvParams
  {
    AdvParams(ownAddrType, NonConnectable, GeneralDiscoverable, Forever, NoCallback)
  }

  /** With this firmware's name both payloads take 27 of their 31 bytes. */
  lemma PayloadsFit(ownAddrType: uint8, addr: Address)
    ensures AdLength(AdvData(DeviceName)) == 27 <= LegacyPayloadMax
    ensures AdLength(ScanResponse(ownAddrType, addr)) == 27 <= LegacyPayloadMax
  {}

  /** What a call made while advertising says about the device: a
      discoverable beacon that cannot be connected to. */
  ghost predicate Beacon(c: Command, name: string, ownAddrType: uint8, addr: Address)
  {
    && (c.AdvSetFields? ==>
          && c.fields.flags == FlagDiscGeneral + FlagBrEdrUnsupported
          && c.fields.name == Some(name) && c.fields.nameComplete
          && c.fields.txPower == Some(TxPowerAuto)
          && c.fields.appearance == Some(0x0200)
          && c.fields.leRole == Some(0x00))
    && (c.AdvSetResponseFields? ==>
          && c.fields.deviceAddr == Some(DeviceAddr(ownAddrType, addr))
          && |c.fields.uri| == 16 && c.fields.uri[0] == 0x17)
    && (c.AdvStart? ==>
          && c.params.ownAddrType == ownAddrType
          && c.params.connMode == NonConnectable
          && c.params.discMode == GeneralDiscoverable
          && c.params.duration == Forever
          && c.params.callback == NoCallback)
  }

  function StartSteps(name: string, ownAddrType: uint8, addr: Address): seq<Step>
  {
    [Checked(AdvSetFields(AdvData(name))), Checked(AdvSetResponseFields(ScanResponse(ownAddrType, addr))),
     Checked(AdvStart(Params(ownAddrType)))]
  }

  /** start_advertising: payload, scan response, start; each call is made
      only when the one before it returned 0. The source returns nothing;
      the status says which calls were made. */
  function StartAdvertising(name: string, ownAddrType: uint8, addr: Address, stack: Command -> int): (r: Run)
    ensures forall i :: 0 <= i < |r.trace| ==> Beacon(r.trace[i], name, ownAddrType, addr)
    ensures 1 <= |r.trace| <= 3 && r.trace[0] == AdvSetFields(AdvData(name))
    ensures stack(AdvSetFields(AdvData(name))) != 0 ==> r == Run(stack(AdvSetFields(AdvData(name))), [AdvSetFields(AdvData(name))])
    ensures AdvSetResponseFields(ScanResponse(ownAddrType, addr)) in r.trace <==> stack(AdvSetFields(AdvData(name))) == 0
    ensures |r.trace| >= 2 ==> r.trace[1] == AdvSetResponseFields(ScanResponse(ownAddrType, addr))
    ensures |r.trace| == 3 ==> r.trace[2] == AdvStart(Params(ownAddrType))
    ensures AdvStart(Params(ownAddrType)) in r.trace <==>
      stack(AdvSetFields(AdvData(name))) == 0 && stack(AdvSetResponseFields(ScanResponse(ownAddrType, addr))) == 0
    ensures r.rc == 0 <==> |r.trace| == 3 && stack(AdvStart(Params(ownAddrType))) == 0
  {
    var fields, response, start :=
      AdvSetFields(AdvData(name)), AdvSetResponseFields(ScanResponse(ownAddrType, addr)), AdvStart(Params(ownAddrType));
    if stack(fields) != 0 then Run(stack(fields), [fields])
    else if stack(response) != 0 then Run(stack(response), [fields, response])
    else Run(stack(start), [fields, response, start])
  }

  /** start_advertising is the "stop at the first failure" pattern over its
      three calls. */
  lemma {:induction false} StartAdvertisingIsSequence(name: string, ownAddrType: uint8, addr: Address, stack: Command -> int)
    ensures StartAdvertising(name, ownAddrType, addr, stack) == Sequence(StartSteps(name, ownAddrType, addr), stack)
  {
    var steps := StartSteps(name, ownAddrType, addr);
    SequenceThree(steps[0], steps[1], steps[2], stack);
  }

  /** The answers adv_init receives besides statuses: the address type
      ble_hs_id_infer_auto picks and the address ble_hs_id_copy_addr copies. */
  datatype Identity = Identity(ownAddrType: uint8, addr: Address)

  /** adv_init: make sure an address exists, find its type, copy it, then
      advertise; the first failure stops everything after it. Formatting the
      address only feeds the log. */
  function AdvInit(name: string, id: Identity, stack: Command -> int): (r: Run)
    ensures 1 <= |r.trace| && r.trace[0] == EnsureAddress(false)
    ensures stack(EnsureAddress(false)) != 0 ==> r == Run(stack(EnsureAddress(false)), [EnsureAddress(false)])
    ensures stack(EnsureAddress(false)) == 0 && stack(InferAddressType(false)) != 0 ==>
      r == Run(stack(InferAddressType(false)), [EnsureAddress(false), InferAddressType(false)])
    ensures stack(EnsureAddress(false)) == 0 && stack(InferAddressType(false)) == 0 && stack(CopyAddress(id.ownAddrType)) != 0 ==>
      r == Run(stack(CopyAddress(id.ownAddrType)), [EnsureAddress(false), InferAddressType(false), CopyAddress(id.ownAddrType)])
    ensures (exists c :: c in r.trace && c.AdvSetFields?) <==>
      stack(EnsureAddress(false)) == 0 && stack(InferAddressType(false)) == 0 && stack(CopyAddress(id.ownAddrType)) == 0
    ensures stack(EnsureAddress(false)) == 0 && stack(InferAddressType(false)) == 0 && stack(CopyAddress(id.ownAddrType)) == 0 ==>
      var adv := StartAdvertising(name, id.ownAddrType, id.addr, stack);
      r == Run(adv.rc, [EnsureAddress(false), InferAddressType(false), CopyAddress(id.ownAddrType)] + adv.trace)
    ensures forall i :: 3 <= i < |r.trace| ==> Beacon(r.trace[i], name, id.ownAddrType, id.addr)
  {
    var prepare := PrepareSteps(id.ownAddrType);
    PrepareRun(id.ownAddrType, stack);
    var ready := Sequence(prepare, stack);
    var adv := StartAdvertising(name, id.ownAddrType, id.addr, stack);
    var r := Then(ready, adv);
    assert ready.rc == 0 ==> r.trace[3] == adv.trace[0];
    r
  }

  /** The three preparatory calls, one case per first failure. */
  lemma {:induction false} PrepareRun(ownAddrType: uint8, stack: Command -> int)
    ensures var r := Sequence([Checked(EnsureAddress(false)), Checked(InferAddressType(false)), Checked(CopyAddress(ownAddrType))], stack);
      && (stack(EnsureAddress(false)) != 0 ==> r == Run(stack(EnsureAddress(false)), [EnsureAddress(false)]))
      && (stack(EnsureAddress(false)) == 0 && stack(InferAddressType(false)) != 0 ==>
            r == Run(stack(InferAddressType(false)), [EnsureAddress(false), InferAddressType(false)]))
      && (stack(EnsureAddress(false)) == 0 && stack(InferAddressType(false)) == 0 ==>
            r == Run(stack(CopyAddress(ownAddrType)), [EnsureAddress(false), InferAddressType(false), CopyAddress(ownAddrType)]))
  {
    SequenceThree(Checked(EnsureAddress(false)), Checked(InferAddressType(false)), Checked(CopyAddress(ownAddrType)), stack);
  }

  function PrepareSteps(ownAddrType: uint8): seq<Step>
  {
    [Checked(EnsureAddress(false)), Checked(InferAddressType(false)), Checked(CopyAddress(ownAddrType))]
  }

  /** adv_init is the "stop at the first failure" pattern over its three
      preparatory calls followed by start_advertising's three. */
  lemma {:induction false} AdvInitIsSequence(name: string, id: Identity, stack: Command -> int)
    ensures AdvInit(name, id, stack) == Sequence(PrepareSteps(id.ownAddrType) + StartSteps(name, id.ownAddrType, id.addr), stack)
  {
    SequenceAppend(PrepareSteps(id.ownAddrType), StartSteps(name, id.ownAddrType, id.addr), stack);
    StartAdvertisingIsSequence(name, id.ownAddrType, id.addr, stack);
  }
}
