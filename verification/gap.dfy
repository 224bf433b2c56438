/** The GAP layer of gap.c: bringing up the GAP and GATT services and the
    three application services, advertising as a connectable HID device,
    and the GAP event handler with the one piece of state it keeps, the
    current connection handle. The stack's answers are inputs: an oracle for
    each command's status and a table of connection descriptors. */
module Gap {
  import opened Bytes
  import opened Wrappers
  import opened Stack
  import HidLayout
  import HidService
  import BatteryService
  import DeviceInfoService

  /** BLE_HS_CONN_HANDLE_NONE: no connection. */
  const ConnHandleNone: uint16 := 0xFFFF

  /** BLE_GAP_REPEAT_PAIRING_RETRY: ask the stack to retry pairing. */
  const RepeatPairingRetry: int := 1

  /** GAP Appearance advertised by this variant. */
  const Appearance: uint16 := 0x03C1

  /** BLE_ADDR_PUBLIC. */
  const PublicAddress: uint8 := 0

  /** gap_init, first part: the GAP and GATT services, whose status is not
      looked at, around the device name, whose status is. */
  function CoreSteps(name: string): seq<Step>
  {
    [Unchecked(GapServiceInit), Checked(SetDeviceName(name)), Unchecked(GattServiceInit)]
  }

  /** Every call gap_init makes, in order. */
  function InitSteps(name: string): seq<Step>
  {
    CoreSteps(name) + (DeviceInfoService.InitSteps + (BatteryService.InitSteps + HidService.InitSteps))
  }

  /** gap_init, first part: the device name's status decides whether the
      rest runs. */
  function CoreInit(name: string, stack: Command -> int): (r: Run)
    ensures stack(SetDeviceName(name)) != 0 ==> r == Run(stack(SetDeviceName(name)), [GapServiceInit, SetDeviceName(name)])
    ensures stack(SetDeviceName(name)) == 0 ==> r == Run(0, [GapServiceInit, SetDeviceName(name), GattServiceInit])
  {
    var gap, setName, gatt := GapServiceInit, SetDeviceName(name), GattServiceInit;
    if stack(setName) != 0 then Run(stack(setName), [gap, setName])
    else Run(0, [gap, setName, gatt])
  }

  /** The first part is the "stop at the first failure" pattern over its
      three calls, two of them unchecked. */
  lemma {:induction false} CoreInitIsSequence(name: string, stack: Command -> int)
    ensures CoreInit(name, stack) == Sequence(CoreSteps(name), stack)
  {
    var steps := CoreSteps(name);
    SequenceThree(steps[0], steps[1], steps[2], stack);
  }

  /** gap_init: each stage returns the first nonzero status it meets, and
      the next stage runs only when the previous one returned 0. */
  function Init(name: string, stack: Command -> int): (r: Run)
    ensures stack(SetDeviceName(name)) != 0 ==>
      r == Run(stack(SetDeviceName(name)), [GapServiceInit, SetDeviceName(name)])
    ensures r.rc == 0 <==>
      && stack(SetDeviceName(name)) == 0
      && stack(CountConfig(DeviceInformation)) == 0 && stack(AddServices(DeviceInformation)) == 0
      && stack(CountConfig(Battery)) == 0 && stack(AddServices(Battery)) == 0
      && stack(CountConfig(Hid)) == 0 && stack(AddServices(Hid)) == 0
    ensures r.rc == 0 ==> r.trace == [GapServiceInit, SetDeviceName(name), GattServiceInit] + ServiceTrace
  {
    Then(CoreInit(name, stack), ServicesInit(stack))
  }

  /** The calls a successful registration of the three services makes. */
  const ServiceTrace: seq<Command> :=
    [CountConfig(DeviceInformation), AddServices(DeviceInformation),
     CountConfig(Battery), AddServices(Battery),
     CountConfig(Hid), AddServices(Hid)]

  /** gap_init, second part: Device Information, Battery, HID, in that order. */
  function ServicesInit(stack: Command -> int): (r: Run)
    ensures r.rc == 0 <==>
      && stack(CountConfig(DeviceInformation)) == 0 && stack(AddServices(DeviceInformation)) == 0
      && stack(CountConfig(Battery)) == 0 && stack(AddServices(Battery)) == 0
      && stack(CountConfig(Hid)) == 0 && stack(AddServices(Hid)) == 0
    ensures r.rc == 0 ==> r.trace == ServiceTrace
  {
    Then(DeviceInfoService.Init(stack), Then(BatteryService.Init(stack), HidService.Init(stack)))
  }

  /** gap_init issues exactly the calls of InitSteps and stops at the first
      checked one that fails. */
  lemma {:induction false} InitIsSequence(name: string, stack: Command -> int)
    ensures Init(name, stack) == Sequence(InitSteps(name), stack)
  {
    ServicesInitIsSequence(stack);
    CoreInitIsSequence(name, stack);
    SequenceAppend(CoreSteps(name), DeviceInfoService.InitSteps + (BatteryService.InitSteps + HidService.InitSteps), stack);
  }

  lemma {:induction false} ServicesInitIsSequence(stack: Command -> int)
    ensures ServicesInit(stack) ==
      Sequence(DeviceInfoService.InitSteps + (BatteryService.InitSteps + HidService.InitSteps), stack)
  {
    var b, c, d := DeviceInfoService.InitSteps, BatteryService.InitSteps, HidService.InitSteps;
    SequenceAppend(c, d, stack);
    SequenceAppend(b, c + d, stack);
  }

  /** The advertising payload: general discoverable without BR/EDR, TX power
      filled in by the stack, the HID appearance and the complete list of
      16-bit service UUIDs, which holds the HID service alone. */
  const AdvData: AdvFields :=
    NoFields.(flags := 0x06, txPower := Some(TxPowerAuto), appearance := Some(Appearance),
              uuids16 := [HidLayout.ServiceUuid], uuids16Complete := true)

  /** The scan response: the complete device name as the GAP service holds it. */
  function ScanResponse(name: string): AdvFields
  {
    NoFields.(name := Some(name), nameComplete := true)
  }

  /** Undirected connectable, general discoverable, no timeout, events to
      the GAP event handler. */
  const Params: AdvParams :=
    AdvParams(PublicAddress, UndirectedConnectable, GeneralDiscoverable, Forever, GapEventHandler)

  /** The flags byte is the two flags gap.c names. */
  lemma AdvFlags()
    ensures AdvData.flags == FlagDiscGeneral + FlagBrEdrUnsupported
  {}

  /** The advertising payload takes 14 of the 31 bytes. */
  lemma AdvDataFits()
    ensures AdLength(AdvData) == 14 <= LegacyPayloadMax
  {}

  /** The scan response fits exactly when the device name is at most 29
      bytes as strlen counts them, which for a plain ASCII name is 29
      characters; a longer name makes the stack refuse the scan response,
      and advertising never starts. */
  lemma ScanResponseFits(name: string)
    ensures AdLength(ScanResponse(name)) <= LegacyPayloadMax <==> Utf8Length(name) <= 29
    ensures (forall i :: 0 <= i < |name| ==> name[i] as int < 0x80) ==>
      (AdLength(ScanResponse(name)) <= LegacyPayloadMax <==> |name| <= 29)
  {}

  /** What a payload or start command issued while advertising says about the
      device: connectable, discoverable, a HID device, under its name. */
  ghost predicate AdvertisesHid(c: Command, name: string)
  {
    && (c.AdvSetFields? ==>
          && c.fields.flags == FlagDiscGeneral + FlagBrEdrUnsupported
          && c.fields.uuids16 == [HidLayout.ServiceUuid] && c.fields.uuids16Complete
          && c.fields.appearance == Some(Appearance))
    && (c.AdvSetResponseFields? ==> c.fields.name == Some(name) && c.fields.nameComplete)
    && (c.AdvStart? ==>
          && c.params.connMode == UndirectedConnectable
          && c.params.discMode == GeneralDiscoverable
          && c.params.duration == Forever
          && c.params.callback == GapEventHandler)
  }

  function StartSteps(name: string): seq<Step>
  {
    [Checked(AdvSetFields(AdvData)), Checked(AdvSetResponseFields(ScanResponse(name))), Checked(AdvStart(Params))]
  }

  /** start_advertising: payload, scan response, start, each call made only
      when the one before it returned 0. The function returns nothing in the
      source; the status is kept here only to say which calls were made.
      `name` is the device name the GAP service holds. */
  function StartAdvertising(name: string, stack: Command -> int): (r: Run)
    ensures forall i :: 0 <= i < |r.trace| ==> AdvertisesHid(r.trace[i], name)
    ensures 1 <= |r.trace| <= 3 && r.trace[0] == AdvSetFields(AdvData)
    ensures stack(AdvSetFields(AdvData)) != 0 ==> r == Run(stack(AdvSetFields(AdvData)), [AdvSetFields(AdvData)])
    ensures AdvSetResponseFields(ScanResponse(name)) in r.trace <==> stack(AdvSetFields(AdvData)) == 0
    ensures |r.trace| >= 2 ==> r.trace[1] == AdvSetResponseFields(ScanResponse(name))
    ensures |r.trace| == 3 ==> r.trace[2] == AdvStart(Params)
    ensures AdvStart(Params) in r.trace <==>
      stack(AdvSetFields(AdvData)) == 0 && stack(AdvSetResponseFields(ScanResponse(name))) == 0
    ensures r.rc == 0 <==> |r.trace| == 3 && stack(AdvStart(Params)) == 0
  {
    var fields, response, start := AdvSetFields(AdvData), AdvSetResponseFields(ScanResponse(name)), AdvStart(Params);
    if stack(fields) != 0 then Run(stack(fields), [fields])
    else if stack(response) != 0 then Run(stack(response), [fields, response])
    else Run(stack(start), [fields, response, start])
  }

  /** start_advertising is the "stop at the first failure" pattern over its
      three calls. */
  lemma StartAdvertisingIsSequence(name: string, stack: Command -> int)
    ensures StartAdvertising(name, stack) == Sequence(StartSteps(name), stack)
  {
    var steps := StartSteps(name);
    SequenceThree(steps[0], steps[1], steps[2], stack);
  }

  /** adv_init: make sure an identity address exists, preferring a public
      one, and advertise only if it does. */
  function AdvInit(name: string, stack: Command -> int): (r: Run)
    ensures 1 <= |r.trace| && r.trace[0] == EnsureAddress(false)
    ensures stack(EnsureAddress(false)) != 0 ==> r == Run(stack(EnsureAddress(false)), [EnsureAddress(false)])
    ensures stack(EnsureAddress(false)) == 0 ==> r == Run(StartAdvertising(name, stack).rc, [EnsureAddress(false)] + StartAdvertising(name, stack).trace)
  {
    Then(Sequence([Checked(EnsureAddress(false))], stack), StartAdvertising(name, stack))
  }

  /** adv_init is the "stop at the first failure" pattern over the address
      check followed by start_advertising's three calls. */
  lemma {:induction false} AdvInitIsSequence(name: string, stack: Command -> int)
    ensures AdvInit(name, stack) == Sequence([Checked(EnsureAddress(false))] + StartSteps(name), stack)
  {
    SequenceAppend([Checked(EnsureAddress(false))], StartSteps(name), stack);
    StartAdvertisingIsSequence(name, stack);
  }

  /** GAP events the handler tells apart; every other kind is `Other`. */
  datatype Event =
    | Connect(status: int, conn: uint16)
    | Disconnect(reason: int)
    | Mtu(mtu: uint16)
    | EncryptionChange(status: int)
    | RepeatPairing(conn: uint16)
    | Subscribe(conn: uint16)
    | Other(kind: int)

  /** What ble_gap_conn_find fills in that the handler reads: the peer's
      identity address, whose bond REPEAT_PAIRING deletes. */
  datatype ConnDesc = ConnDesc(peerIdAddr: DeviceAddr)

  /** The stack as the handler sees it: each command's status, the
      descriptor of each connection ble_gap_conn_find succeeds for, and the
      device name the GAP service holds. */
  datatype Host = Host(stack: Command -> int, desc: uint16 -> ConnDesc, deviceName: string)

  /** The handler's return value, the connection handle afterwards, and the
      calls it made. */
  datatype Outcome = Outcome(rc: int, conn: uint16, trace: seq<Command>)

  /** A lookup of `conn` followed, when it succeeds, by deleting the peer's
      bond and asking for the pairing to be retried. */
  function RepeatPairingOutcome(conn: uint16, current: uint16, host: Host): (o: Outcome)
    ensures o.conn == current
    ensures (exists c :: c in o.trace && c.DeletePeer?) <==> host.stack(FindConnection(conn)) == 0
    ensures host.stack(FindConnection(conn)) != 0 ==> o == Outcome(host.stack(FindConnection(conn)), current, [FindConnection(conn)])
    ensures host.stack(FindConnection(conn)) == 0 ==>
      o == Outcome(RepeatPairingRetry, current, [FindConnection(conn), DeletePeer(host.desc(conn).peerIdAddr)])
  {
    var found := host.stack(FindConnection(conn));
    if found != 0 then Outcome(found, current, [FindConnection(conn)])
    else
      var o := Outcome(RepeatPairingRetry, current, [FindConnection(conn), DeletePeer(host.desc(conn).peerIdAddr)]);
      assert o.trace[1].DeletePeer?;
      o
  }

  /** gap_event_handler, with `conn` the stored connection handle. */
  function HandleEvent(conn: uint16, e: Event, host: Host): (o: Outcome)
    // the stored handle changes only on a successful connection or a disconnection
    ensures e.Connect? && e.status == 0 ==> o.conn == e.conn
    ensures e.Disconnect? ==> o.conn == ConnHandleNone
    ensures !(e.Connect? && e.status == 0) && !e.Disconnect? ==> o.conn == conn
    // every connection attempt asks for security on the stored handle, and nothing else
    ensures e.Connect? ==> o == Outcome(0, o.conn, [InitiateSecurity(o.conn)])
    // a disconnection restarts advertising from scratch
    ensures e.Disconnect? ==> o.rc == 0 && o.trace == AdvInit(host.deviceName, host.stack).trace
    // only the two events that look a connection up can return nonzero
    ensures o.rc != 0 ==> e.RepeatPairing? || e.Subscribe?
    ensures e.Subscribe? ==> o.trace == [FindConnection(e.conn)] && o.rc == host.stack(FindConnection(e.conn))
    // a repeated pairing looks the connection up, and only if that succeeds deletes the bond and asks for a retry
    ensures e.RepeatPairing? && host.stack(FindConnection(e.conn)) != 0 ==>
      o == Outcome(host.stack(FindConnection(e.conn)), conn, [FindConnection(e.conn)])
    ensures e.RepeatPairing? && host.stack(FindConnection(e.conn)) == 0 ==>
      o == Outcome(RepeatPairingRetry, conn, [FindConnection(e.conn), DeletePeer(host.desc(e.conn).peerIdAddr)])
    ensures e.Mtu? || e.EncryptionChange? || e.Other? ==> o == Outcome(0, conn, [])
  {
    match e
    case Connect(status, c) =>
      var stored := if status == 0 then c else conn;
      Outcome(0, stored, [InitiateSecurity(stored)])
    case Disconnect(_) =>
      Outcome(0, ConnHandleNone, AdvInit(host.deviceName, host.stack).trace)
    case Mtu(_) => Outcome(0, conn, [])
    case EncryptionChange(_) => Outcome(0, conn, [])
    case RepeatPairing(c) =>
      RepeatPairingOutcome(c, conn, host)
    case Subscribe(c) =>
      var found := host.stack(FindConnection(c));
      Outcome(found, conn, [FindConnection(c)])
    case Other(_) => Outcome(0, conn, [])
  }

  /** A failed connection keeps the previous handle, and security is still
      initiated on it: from a fresh start that is the "no connection" handle. */
  lemma FailedConnectUsesStoredHandle(status: int, c: uint16, host: Host)
    requires status != 0
    ensures HandleEvent(ConnHandleNone, Connect(status, c), host).trace == [InitiateSecurity(ConnHandleNone)]
  {}

  /** A repeated pairing on a connection the stack knows deletes that peer's
      bond and asks for a retry. */
  lemma RepeatPairingDeletesBond(conn: uint16, current: uint16, host: Host)
    requires host.stack(FindConnection(conn)) == 0
    ensures HandleEvent(current, RepeatPairing(conn), host).rc == RepeatPairingRetry
    ensures DeletePeer(host.desc(conn).peerIdAddr) in HandleEvent(current, RepeatPairing(conn), host).trace
  {}

  /** The stored handle after a series of events, event by event. */
  function RunEvents(conn: uint16, events: seq<Event>, host: Host): uint16
    decreases |events|
  {
    if events == [] then conn
    else RunEvents(HandleEvent(conn, events[0], host).conn, events[1..], host)
  }

  /** The same, read from the end: the handle of the last successful
      connection unless a disconnection came after it. */
  function LastConnection(conn: uint16, events: seq<Event>): uint16
    decreases |events|
  {
    if events == [] then conn
    else
      var e := events[|events| - 1];
      if e.Connect? && e.status == 0 then e.conn
      else if e.Disconnect? then ConnHandleNone
      else LastConnection(conn, events[..|events| - 1])
  }

  lemma {:induction false} RunEventsSnoc(conn: uint16, events: seq<Event>, e: Event, host: Host)
    ensures RunEvents(conn, events + [e], host) == HandleEvent(RunEvents(conn, events, host), e, host).conn
    decreases |events|
  {
    if events == [] {
      assert events + [e] == [e];
    } else {
      assert (events + [e])[1..] == events[1..] + [e];
      RunEventsSnoc(HandleEvent(conn, events[0], host).conn, events[1..], e, host);
    }
  }

  /** The handler's bookkeeping keeps exactly the last connection not yet
      closed. */
  lemma {:induction false} RunEventsKeepsLastConnection(conn: uint16, events: seq<Event>, host: Host)
    ensures RunEvents(conn, events, host) == LastConnection(conn, events)
    decreases |events|
  {
    if events != [] {
      var init, e := events[..|events| - 1], events[|events| - 1];
      assert events == init + [e];
      RunEventsKeepsLastConnection(conn, init, host);
      RunEventsSnoc(conn, init, e, host);
    }
  }

  /** After a disconnection the handler holds no connection until a
      connection succeeds. */
  lemma {:induction false} NoConnectionAfterDisconnect(conn: uint16, events: seq<Event>, host: Host, k: nat)
    requires k < |events| && events[k].Disconnect?
    requires forall i :: k < i < |events| ==> !(events[i].Connect? && events[i].status == 0)
    ensures RunEvents(conn, events, host) == ConnHandleNone
    decreases |events|
  {
    RunEventsKeepsLastConnection(conn, events, host);
    LastConnectionAfterDisconnect(conn, events, k);
  }

  lemma {:induction false} LastConnectionAfterDisconnect(conn: uint16, events: seq<Event>, k: nat)
    requires k < |events| && events[k].Disconnect?
    requires forall i :: k < i < |events| ==> !(events[i].Connect? && events[i].status == 0)
    ensures LastConnection(conn, events) == ConnHandleNone
    decreases |events|
  {
    if k < |events| - 1 {
      var init := events[..|events| - 1];
      assert init[k] == events[k];
      assert forall i :: k < i < |init| ==> init[i] == events[i];
      LastConnectionAfterDisconnect(conn, init, k);
    }
  }
}
