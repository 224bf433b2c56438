/** The host-stack interface the firmware drives: the commands it issues, the
    advertising payloads it hands over, and a runner for the firmware's
    recurring pattern "issue calls in order, stop at the first nonzero status
    and return it". What the stack answers is an input: an oracle giving the
    status of each command. */
module Stack {
  import opened Bytes
  import opened Wrappers

  datatype Service = DeviceInformation | Battery | Hid

  datatype ConnMode = NonConnectable | DirectedConnectable | UndirectedConnectable
  datatype DiscMode = NonDiscoverable | LimitedDiscoverable | GeneralDiscoverable
  datatype Duration = Forever | Millis(ms: nat)

  /** The GAP event callback passed when advertising starts. */
  datatype Callback = NoCallback | GapEventHandler

  /** Advertising flags (BLE_HS_ADV_F_*). */
  const FlagDiscGeneral: uint8 := 0x02
  const FlagBrEdrUnsupported: uint8 := 0x04

  /** BLE_HS_ADV_TX_PWR_LVL_AUTO: let the stack fill in the TX power. */
  const TxPowerAuto: int := -128

  /** A device address with its type, as carried in a payload or bond record. */
  datatype DeviceAddr = DeviceAddr(addrType: uint8, addr: seq<uint8>)

  /** The fields of an advertising or scan-response payload
      (ble_hs_adv_fields); a field not set is None, empty or false. */
  datatype AdvFields = AdvFields(
    flags: uint8,
    txPower: Option<int>,
    appearance: Option<uint16>,
    uuids16: seq<uint16>,
    uuids16Complete: bool,
    name: Option<string>,
    nameComplete: bool,
    leRole: Option<uint8>,
    deviceAddr: Option<DeviceAddr>,
    uri: seq<uint8>)

  /** A zero-initialised ble_hs_adv_fields. */
  const NoFields: AdvFields := AdvFields(0, None, None, [], false, None, false, None, None, [])

  /** Legacy advertising data and scan response data hold at most 31 bytes. */
  const LegacyPayloadMax: nat := 31

  /** The bytes one character takes in UTF-8 (RFC 3629, section 3). */
  function Utf8Width(c: char): nat
  {
    if c as int < 0x80 then 1 else if c as int < 0x800 then 2 else if c as int < 0x10000 then 3 else 4
  }

  /** What strlen reports for a name held as a C string: the bytes of its
      UTF-8 encoding, not its characters. */
  function Utf8Length(s: string): (n: nat)
    ensures |s| <= n <= 4 * |s|
    ensures (forall i :: 0 <= i < |s| ==> s[i] as int < 0x80) <==> n == |s|
  {
    if s == [] then 0
    else
      var n := Utf8Width(s[0]) + Utf8Length(s[1..]);
      assert forall i :: 1 <= i < |s| ==> s[i] == s[1..][i - 1];
      n
  }

  /** The bytes the fields take once encoded: each present field is one AD
      structure of a length byte, a type byte and its data (Core
      Specification Supplement, Part A, section 1). The name counts in
      bytes, as strlen measures it. The LE Bluetooth Device Address carries
      six address bytes and the address type. */
  function AdLength(f: AdvFields): nat
  {
    (if f.flags != 0 then 3 else 0)
    + (if f.uuids16 != [] then 2 + 2 * |f.uuids16| else 0)
    + (if f.name.Some? then 2 + Utf8Length(f.name.value) else 0)
    + (if f.txPower.Some? then 3 else 0)
    + (if f.appearance.Some? then 4 else 0)
    + (if f.leRole.Some? then 3 else 0)
    + (if f.deviceAddr.Some? then 9 else 0)
    + (if f.uri != [] then 2 + |f.uri| else 0)
  }

  datatype AdvParams = AdvParams(
    ownAddrType: uint8,
    connMode: ConnMode,
    discMode: DiscMode,
    duration: Duration,
    callback: Callback)

  datatype Command =
    | GapServiceInit
    | GattServiceInit
    | SetDeviceName(name: string)
    | SetAppearance(appearance: uint16)
    | CountConfig(service: Service)
    | AddServices(service: Service)
    | EnsureAddress(preferRandom: bool)
    | InferAddressType(privacy: bool)
    | CopyAddress(addrType: uint8)
    | AdvSetFields(fields: AdvFields)
    | AdvSetResponseFields(fields: AdvFields)
    | AdvStart(params: AdvParams)
    | InitiateSecurity(conn: uint16)
    | FindConnection(conn: uint16)
    | DeletePeer(peer: DeviceAddr)

  /** A call the firmware makes: its status is either checked or ignored. */
  datatype Step = Checked(cmd: Command) | Unchecked(cmd: Command)

  /** What a sequence of calls did: the status it ends with and the commands
      issued, in order. */
  datatype Run = Run(rc: int, trace: seq<Command>)

  predicate Succeeds(s: Step, stack: Command -> int)
  {
    s.Unchecked? || stack(s.cmd) == 0
  }

  function Commands(steps: seq<Step>): (cs: seq<Command>)
    ensures |cs| == |steps|
    ensures forall i :: 0 <= i < |steps| ==> cs[i] == steps[i].cmd
  {
    if steps == [] then [] else [steps[0].cmd] + Commands(steps[1..])
  }

  /** Issues `steps` in order until a checked call fails; the status is that
      call's, or 0 when none fails. */
  function Issue(steps: seq<Step>, stack: Command -> int): Run
  {
    if steps == [] then Run(0, [])
    else if !Succeeds(steps[0], stack) then Run(stack(steps[0].cmd), [steps[0].cmd])
    else
      var rest := Issue(steps[1..], stack);
      Run(rest.rc, [steps[0].cmd] + rest.trace)
  }

  /** The status is 0 exactly when every checked call succeeded, and then
      every command was issued; otherwise it is the status of the first
      failing call, which is the last command issued, and nothing after it
      was issued. */
  ghost predicate StopsAtFirstFailure(steps: seq<Step>, stack: Command -> int, r: Run)
  {
    && |r.trace| <= |steps| && r.trace == Commands(steps)[..|r.trace|]
    && (r.rc == 0 <==> forall i :: 0 <= i < |steps| ==> Succeeds(steps[i], stack))
    && (r.rc == 0 ==> r.trace == Commands(steps))
    && (r.rc != 0 ==>
          && 1 <= |r.trace|
          && !Succeeds(steps[|r.trace| - 1], stack)
          && r.rc == stack(steps[|r.trace| - 1].cmd)
          && forall i :: 0 <= i < |r.trace| - 1 ==> Succeeds(steps[i], stack))
  }

  lemma {:induction false} IssueStopsAtFirstFailure(steps: seq<Step>, stack: Command -> int)
    ensures StopsAtFirstFailure(steps, stack, Issue(steps, stack))
  {
    IssuePrefix(steps, stack);
    IssueSucceeds(steps, stack);
    IssueFails(steps, stack);
  }

  lemma {:induction false} IssuePrefix(steps: seq<Step>, stack: Command -> int)
    ensures var r := Issue(steps, stack); |r.trace| <= |steps| && r.trace == Commands(steps)[..|r.trace|]
  {
    if steps != [] {
      assert Commands(steps) == [steps[0].cmd] + Commands(steps[1..]);
      if Succeeds(steps[0], stack) {
        IssuePrefix(steps[1..], stack);
      }
    }
  }

  lemma {:induction false} IssueSucceeds(steps: seq<Step>, stack: Command -> int)
    ensures var r := Issue(steps, stack);
      && (r.rc == 0 <==> forall i :: 0 <= i < |steps| ==> Succeeds(steps[i], stack))
      && (r.rc == 0 ==> r.trace == Commands(steps))
  {
    if steps != [] {
      assert Commands(steps) == [steps[0].cmd] + Commands(steps[1..]);
      if Succeeds(steps[0], stack) {
        IssueSucceeds(steps[1..], stack);
        assert forall i :: 1 <= i < |steps| ==> steps[i] == steps[1..][i - 1];
      }
    }
  }

  lemma {:induction false} IssueFails(steps: seq<Step>, stack: Command -> int)
    ensures var r := Issue(steps, stack);
      r.rc != 0 ==>
        && 1 <= |r.trace| <= |steps|
        && !Succeeds(steps[|r.trace| - 1], stack)
        && r.rc == stack(steps[|r.trace| - 1].cmd)
        && forall i :: 0 <= i < |r.trace| - 1 ==> Succeeds(steps[i], stack)
  {
    if steps != [] && Succeeds(steps[0], stack) {
      IssueFails(steps[1..], stack);
      assert forall i :: 1 <= i < |steps| ==> steps[i] == steps[1..][i - 1];
    }
  }

  /** The firmware's "call in order, stop at the first nonzero status" pattern. */
  function Sequence(steps: seq<Step>, stack: Command -> int): (r: Run)
    ensures StopsAtFirstFailure(steps, stack, r)
  {
    IssueStopsAtFirstFailure(steps, stack);
    Issue(steps, stack)
  }

  /** Runs `b` after `a` unless `a` failed: one function calling two others in turn. */
  function Then(a: Run, b: Run): Run
  {
    if a.rc != 0 then a else Run(b.rc, a.trace + b.trace)
  }

  /** Running two lists of calls one after the other is running their concatenation. */
  lemma {:induction false} SequenceAppend(a: seq<Step>, b: seq<Step>, stack: Command -> int)
    ensures Sequence(a + b, stack) == Then(Sequence(a, stack), Sequence(b, stack))
  {
    IssueAppend(a, b, stack);
  }

  lemma {:induction false} IssueAppend(a: seq<Step>, b: seq<Step>, stack: Command -> int)
    ensures Issue(a + b, stack) == Then(Issue(a, stack), Issue(b, stack))
  {
    if a == [] {
      assert a + b == b;
    } else {
      assert (a + b)[1..] == a[1..] + b;
      if Succeeds(a[0], stack) {
        IssueAppend(a[1..], b, stack);
        var ra := Issue(a[1..], stack);
        var rb := Issue(b, stack);
        if ra.rc == 0 {
          assert [a[0].cmd] + (ra.trace + rb.trace) == ([a[0].cmd] + ra.trace) + rb.trace;
        }
      }
    }
  }

  /** One call alone. */
  lemma SequenceSingle(s: Step, stack: Command -> int)
    ensures Sequence([s], stack) == if Succeeds(s, stack) then Run(0, [s.cmd]) else Run(stack(s.cmd), [s.cmd])
  {
    assert [s][1..] == [];
  }

  /** Three calls: the run ends at the first of them that fails. */
  lemma {:induction false} SequenceThree(s0: Step, s1: Step, s2: Step, stack: Command -> int)
    ensures Sequence([s0, s1, s2], stack) ==
      if !Succeeds(s0, stack) then Run(stack(s0.cmd), [s0.cmd])
      else if !Succeeds(s1, stack) then Run(stack(s1.cmd), [s0.cmd, s1.cmd])
      else if !Succeeds(s2, stack) then Run(stack(s2.cmd), [s0.cmd, s1.cmd, s2.cmd])
      else Run(0, [s0.cmd, s1.cmd, s2.cmd])
  {
    assert [s2][1..] == [];
    assert Issue([], stack) == Run(0, []);
    assert [s2.cmd] + [] == [s2.cmd];
    var r2 := Issue([s2], stack);
    assert r2 == if Succeeds(s2, stack) then Run(0, [s2.cmd]) else Run(stack(s2.cmd), [s2.cmd]);
    assert [s1, s2][1..] == [s2];
    var r1 := Issue([s1, s2], stack);
    assert r1 == if Succeeds(s1, stack) then Run(r2.rc, [s1.cmd] + r2.trace) else Run(stack(s1.cmd), [s1.cmd]);
    assert [s0, s1, s2][1..] == [s1, s2];
    var r0 := Issue([s0, s1, s2], stack);
    assert r0 == if Succeeds(s0, stack) then Run(r1.rc, [s0.cmd] + r1.trace) else Run(stack(s0.cmd), [s0.cmd]);
    assert Sequence([s0, s1, s2], stack) == r0;
  }
}
