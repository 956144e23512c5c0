/** The radio proxy: an asynchronous machine of callbacks that shuttles frames between
    a UDP socket and a radio. It has no state variable; its state is which operations
    are outstanding and what the reused buffers and descriptors hold. */
module Proxy {
  import opened Base

  const BUFFER_BYTES := 2048
  const FCS_BYTES := 4
  const SIZE_T_VALUES := 0x1_0000_0000_0000_0000

  type Endpoint = nat

  datatype AccessCategory = BK | BE | VI | VO

  datatype Priority = Prio0 | Prio1 | Prio3 | Prio5 | Prio7

  datatype TxDescriptor = TxDescriptor(channel: nat, mcs: nat, priority: Priority, power: int)

  /** The header put before a datagram: signal power in half dBm and payload length. */
  datatype ProxyHeader = ProxyHeader(halfDbm: int, length: nat)

  /** The sizes and field accesses of foreign headers: the proxy header in front of a
      datagram (payload length, power already rounded to half dBm, category) and the
      receive descriptor in front of a radio frame (power). */
  datatype Formats = Formats(
    headerBytes: nat,
    descriptorBytes: nat,
    payloadLength: seq<Byte> -> nat,
    txPower: seq<Byte> -> int,
    category: seq<Byte> -> AccessCategory,
    rxPower: seq<Byte> -> int)

  ghost predicate IsFormats(fm: Formats) {
    && fm.headerBytes <= BUFFER_BYTES && fm.descriptorBytes <= BUFFER_BYTES
    && forall d :: fm.headerBytes <= |d| ==> fm.payloadLength(d) <= |d| - fm.headerBytes
  }

  lemma PayloadFits(fm: Formats, data: seq<Byte>)
    requires IsFormats(fm)
    ensures fm.headerBytes <= |data| ==> fm.payloadLength(data) <= |data| - fm.headerBytes
  {
  }

  function PriorityOf(c: AccessCategory): Priority {
    match c
    case BK => Prio1
    case BE => Prio3
    case VI => Prio5
    case VO => Prio7
  }

  // ---------------------------------------------------------------- the abstract machine

  /** What a send hands over: payloads are None where the code would read past the buffer. */
  datatype RadioFrame = RadioFrame(tx: TxDescriptor, payload: Option<seq<Byte>>)
  datatype UdpFrame = UdpFrame(header: ProxyHeader, payload: Option<seq<Byte>>, to: Option<Endpoint>)

  datatype ToRadioPhase = UdpListening | RadioSending(frame: RadioFrame)
  datatype ToUdpPhase = Off | RadioListening | UdpSending(datagram: UdpFrame)

  /** Two independent one-place relays, the second switched on by the first. */
  datatype Relay = Relay(
    first: bool,
    toRadio: ToRadioPhase,
    toUdp: ToUdpPhase,
    peer: Option<Endpoint>,
    radioLog: seq<RadioFrame>,
    udpLog: seq<UdpFrame>)

  /** Completions of outstanding operations, and the writes the kernel may make at any
      time into a buffer it has been given for receiving. */
  datatype Event =
    | UdpIn(error: bool, data: seq<Byte>, from: Endpoint)
    | RadioOut(sendError: bool)
    | RadioIn(radioError: bool, radioData: seq<Byte>)
    | UdpOut(sendError': bool)
    | ScribbleUdp(contents: seq<Byte>)
    | ScribbleRadio(contents': seq<Byte>)

  predicate Enabled(a: Relay, ev: Event) {
    match ev
    case UdpIn(_, data, _) => a.toRadio.UdpListening? && |data| <= BUFFER_BYTES
    case RadioOut(_) => a.toRadio.RadioSending?
    case RadioIn(_, data) => a.toUdp.RadioListening? && |data| <= BUFFER_BYTES
    case UdpOut(_) => a.toUdp.UdpSending?
    case ScribbleUdp(contents) => a.toRadio.UdpListening? && |contents| == BUFFER_BYTES
    case ScribbleRadio(contents) => a.toUdp.RadioListening? && |contents| == BUFFER_BYTES
  }

  /** The frame a datagram asks for: power and priority from its own header. */
  function RadioFrameOf(fm: Formats, channel: nat, mcs: nat, data: seq<Byte>): RadioFrame
    requires fm.headerBytes <= |data|
  {
    var end := fm.headerBytes + fm.payloadLength(data);
    RadioFrame(
      TxDescriptor(channel, mcs, PriorityOf(fm.category(data)), fm.txPower(data)),
      if end <= |data| then Some(data[fm.headerBytes..end]) else None)
  }

  /** The datagram a radio frame turns into: what lies between the receive descriptor
      and the checksum. For frames shorter than both the length wraps around. */
  function UdpFrameOf(fm: Formats, peer: Option<Endpoint>, data: seq<Byte>): UdpFrame
    requires fm.descriptorBytes <= |data|
  {
    var length := |data| - fm.descriptorBytes - FCS_BYTES;
    UdpFrame(
      ProxyHeader(fm.rxPower(data), if length >= 0 then length else length + SIZE_T_VALUES),
      if length >= 0 then Some(data[fm.descriptorBytes..|data| - FCS_BYTES]) else None,
      peer)
  }

  predicate IsRelayedUdp(fm: Formats, ev: Event) {
    ev.UdpIn? && !ev.error && fm.headerBytes <= |ev.data|
  }

  predicate IsRelayedRadio(fm: Formats, ev: Event) {
    ev.RadioIn? && !ev.radioError && fm.descriptorBytes <= |ev.radioData|
  }

  function RelayStep(fm: Formats, channel: nat, mcs: nat, a: Relay, ev: Event): Relay
    requires Enabled(a, ev)
  {
    match ev
    case UdpIn(error, data, from) =>
      var started := if a.first && !error then a.(toUdp := RadioListening, peer := Some(from)) else a;
      started.(first := false,
        toRadio := if IsRelayedUdp(fm, ev) then RadioSending(RadioFrameOf(fm, channel, mcs, data)) else UdpListening)
    case RadioOut(_) => a.(toRadio := UdpListening, radioLog := a.radioLog + [a.toRadio.frame])
    case RadioIn(_, data) =>
      a.(toUdp := if IsRelayedRadio(fm, ev) then UdpSending(UdpFrameOf(fm, a.peer, data)) else RadioListening)
    case UdpOut(_) => a.(toUdp := RadioListening, udpLog := a.udpLog + [a.toUdp.datagram])
    case ScribbleUdp(_) => a
    case ScribbleRadio(_) => a
  }

  const STARTED := Relay(true, UdpListening, Off, None, [], [])

  // ---------------------------------------------------------------- the handler

  /** Operations given to the sockets. A send refers to its bytes, it does not copy them;
      the destination of a datagram is copied. */
  datatype Op =
    | UdpReceiveFrom
    | UdpReceive
    | RadioSend(offset: nat, length: nat)
    | RadioReceive
    | UdpSend(udpOffset: nat, udpLength: nat, to: Option<Endpoint>)

  predicate IsToRadio(op: Op) {
    op.UdpReceiveFrom? || op.UdpReceive? || op.RadioSend?
  }

  /** What a send reads from a buffer, if it stays within. */
  function Slice(buffer: seq<Byte>, offset: nat, length: nat): Option<seq<Byte>> {
    if offset + length <= |buffer| then Some(buffer[offset..offset + length]) else None
  }

  lemma SliceOfData(buffer: seq<Byte>, data: seq<Byte>, offset: nat, length: nat)
    requires offset + length <= |data| <= |buffer| && buffer[..|data|] == data
    ensures Slice(buffer, offset, length) == Some(data[offset..offset + length])
  {
    forall i | offset <= i < offset + length
      ensures buffer[i] == data[i]
    {
      assert buffer[..|data|][i] == data[i];
    }
    assert buffer[offset..offset + length] == data[offset..offset + length];
  }

  /** Exactly one operation towards the radio and at most one towards UDP. */
  predicate IsShape(ops: seq<Op>) {
    match |ops|
    case 1 => IsToRadio(ops[0])
    case 2 => IsToRadio(ops[0]) != IsToRadio(ops[1])
    case _ => false
  }

  function ToRadioOp(ops: seq<Op>): Op
    requires IsShape(ops)
  {
    if IsToRadio(ops[0]) then ops[0] else ops[1]
  }

  function ToUdpOp(ops: seq<Op>): Option<Op>
    requires IsShape(ops)
  {
    if |ops| == 1 then None else if IsToRadio(ops[0]) then Some(ops[1]) else Some(ops[0])
  }

  class ProxyHandler {
    const fm: Formats
    const udp2radio: array<Byte>
    const radio2udp: array<Byte>
    var tx: TxDescriptor
    var header: ProxyHeader
    var peer: Option<Endpoint>
    var ops: seq<Op>
    var radioLog: seq<RadioFrame>
    var udpLog: seq<UdpFrame>

    /** The invariant of every interleaving. */
    ghost predicate Valid()
      reads this, udp2radio, radio2udp
    {
      && IsFormats(fm)
      && udp2radio.Length == BUFFER_BYTES && radio2udp.Length == BUFFER_BYTES && udp2radio != radio2udp
      && IsShape(ops)
      && (ToUdpOp(ops).None? <==> peer.None?)
      && (ToRadioOp(ops).UdpReceiveFrom? ==> peer.None?)
      && (match ToUdpOp(ops) case Some(UdpSend(_, _, to)) => to == peer case _ => true)
    }

    /** The state the outstanding operations and the memory they refer to amount to. */
    ghost function State(): Relay
      requires Valid()
      reads this, udp2radio, radio2udp
    {
      Relay(
        ToRadioOp(ops).UdpReceiveFrom?,
        match ToRadioOp(ops)
        case RadioSend(offset, length) => RadioSending(RadioFrame(tx, Slice(udp2radio[..], offset, length)))
        case _ => UdpListening,
        match ToUdpOp(ops)
        case None => Off
        case Some(UdpSend(offset, length, to)) => UdpSending(UdpFrame(header, Slice(radio2udp[..], offset, length), to))
        case Some(_) => RadioListening,
        peer,
        radioLog,
        udpLog)
    }

    constructor (fm: Formats)
      requires IsFormats(fm)
      ensures ops == [] && peer == None && radioLog == [] && udpLog == []
      ensures tx == TxDescriptor(180, 0, Prio0, 40) && this.fm == fm
      ensures udp2radio.Length == 2048 && radio2udp.Length == 2048 && udp2radio != radio2udp
      ensures fresh(udp2radio) && fresh(radio2udp)
    {
      this.fm := fm;
      udp2radio := new Byte[BUFFER_BYTES](_ => 0);
      radio2udp := new Byte[BUFFER_BYTES](_ => 0);
      tx := TxDescriptor(180, 0, Prio0, 40);
      header, peer, ops, radioLog, udpLog := ProxyHeader(0, 0), None, [], [], [];
    }

    method ChannelNumber(channel: nat)
      modifies this`tx
      ensures tx == old(tx).(channel := channel)
    {
      tx := tx.(channel := channel);
    }

    method Mcs(mcs: nat)
      modifies this`tx
      ensures tx == old(tx).(mcs := mcs)
    {
      tx := tx.(mcs := mcs);
    }

    method StartTransfer()
      requires IsFormats(fm) && ops == [] && peer == None && radioLog == [] && udpLog == []
      requires udp2radio.Length == BUFFER_BYTES && radio2udp.Length == BUFFER_BYTES && udp2radio != radio2udp
      modifies this`ops
      ensures Valid() && State() == STARTED
    {
      ops := ops + [UdpReceiveFrom];
    }

    method NextUdpTransfer()
      modifies this`ops
      ensures ops == old(ops) + [UdpReceive]
    {
      ops := ops + [UdpReceive];
    }

    method NextOtaTransfer()
      modifies this`ops
      ensures ops == old(ops) + [RadioReceive]
    {
      ops := ops + [RadioReceive];
    }

    method HandleUdpReceiveFrom(error: bool, received: nat)
      requires IsFormats(fm) && received <= udp2radio.Length == BUFFER_BYTES
      modifies this`ops, this`tx
      ensures var data := udp2radio[..received];
        && ops == old(ops) + (if error then [] else [RadioReceive]) + [AfterUdp(fm, error, data)]
        && tx == if AfterUdp(fm, error, data).RadioSend?
                 then RadioFrameOf(fm, old(tx).channel, old(tx).mcs, data).tx else old(tx)
    {
      if !error {
        NextOtaTransfer();
      }
      HandleUdpReceive(error, received);
    }

    method HandleUdpReceive(error: bool, received: nat)
      requires IsFormats(fm) && received <= udp2radio.Length == BUFFER_BYTES
      modifies this`ops, this`tx
      ensures var data := udp2radio[..received];
        && ops == old(ops) + [AfterUdp(fm, error, data)]
        && tx == if AfterUdp(fm, error, data).RadioSend?
                 then RadioFrameOf(fm, old(tx).channel, old(tx).mcs, data).tx else old(tx)
    {
      if !error && received >= fm.headerBytes {
        SendOta(received);
      } else {
        NextUdpTransfer();
      }
    }

    /** The operation that follows the arrival of a datagram. */
    static function AfterUdp(fm: Formats, error: bool, data: seq<Byte>): Op {
      if !error && fm.headerBytes <= |data| then RadioSend(fm.headerBytes, fm.payloadLength(data)) else UdpReceive
    }

    method HandleUdpSend()
      modifies this`ops
      ensures ops == old(ops) + [RadioReceive]
    {
      NextOtaTransfer();
    }

    method HandleOtaSend()
      modifies this`ops
      ensures ops == old(ops) + [UdpReceive]
    {
      NextUdpTransfer();
    }

    method HandleOtaReceive(error: bool, received: nat)
      requires received <= radio2udp.Length == BUFFER_BYTES
      modifies this`ops, this`header
      ensures var data := radio2udp[..received];
        if !error && fm.descriptorBytes <= received then
          var frame := UdpFrameOf(fm, peer, data);
          ops == old(ops) + [UdpSend(fm.descriptorBytes, frame.header.length, peer)] && header == frame.header
        else ops == old(ops) + [RadioReceive] && header == old(header)
    {
      if !error && received >= fm.descriptorBytes {
        var power := fm.rxPower(radio2udp[..received]);
        // unsigned subtraction of the checksum, without a check that it is there
        SendUdp(power, fm.descriptorBytes, (received - fm.descriptorBytes - FCS_BYTES) % SIZE_T_VALUES);
      } else {
        NextOtaTransfer();
      }
    }

    /** Fills the descriptor in and starts a send that refers to it and the buffer. */
    method SendOta(length: nat)
      requires IsFormats(fm) && fm.headerBytes <= length <= udp2radio.Length == BUFFER_BYTES
      modifies this`ops, this`tx
      ensures ops == old(ops) + [RadioSend(fm.headerBytes, fm.payloadLength(udp2radio[..length]))]
      ensures tx == RadioFrameOf(fm, old(tx).channel, old(tx).mcs, udp2radio[..length]).tx
    {
      var datagram := udp2radio[..length];
      tx := tx.(power := fm.txPower(datagram));
      match fm.category(datagram) {
        case BK => tx := tx.(priority := Prio1);
        case BE => tx := tx.(priority := Prio3);
        case VI => tx := tx.(priority := Prio5);
        case VO => tx := tx.(priority := Prio7);
      }
      ops := ops + [RadioSend(fm.headerBytes, fm.payloadLength(datagram))];
    }

    method SendUdp(halfDbm: int, offset: nat, length: nat)
      modifies this`ops, this`header
      ensures ops == old(ops) + [UdpSend(offset, length, peer)]
      ensures header == ProxyHeader(halfDbm, length)
    {
      header := header.(halfDbm := halfDbm);
      header := header.(length := length);
      ops := ops + [UdpSend(offset, length, peer)];
    }

    /** Takes the outstanding operation of one direction off the list. */
    method Take(toRadio: bool) returns (op: Op)
      requires IsShape(ops) && (!toRadio ==> ToUdpOp(ops).Some?)
      modifies this`ops
      ensures op == if toRadio then ToRadioOp(old(ops)) else ToUdpOp(old(ops)).value
      ensures ops ==
        if toRadio then (match ToUdpOp(old(ops)) case None => [] case Some(o) => [o]) else [ToRadioOp(old(ops))]
    {
      var i := if IsToRadio(ops[0]) == toRadio then 0 else 1;
      op := ops[i];
      ops := ops[..i] + ops[i + 1..];
    }

    /** What the kernel leaves in a receive buffer. */
    method Fill(buffer: array<Byte>, data: seq<Byte>)
      requires |data| <= buffer.Length
      modifies buffer
      ensures buffer[..|data|] == data
      ensures forall i :: |data| <= i < buffer.Length ==> buffer[i] == old(buffer[i])
    {
      forall i | 0 <= i < |data| {
        buffer[i] := data[i];
      }
    }

    /** The first datagram, or its error: switches the other direction on or never will. */
    method CompleteFirstUdpIn(ev: Event)
      requires ev.UdpIn? && Valid() && Enabled(State(), ev) && ToRadioOp(ops).UdpReceiveFrom?
      modifies this, udp2radio
      ensures Valid() && State() == RelayStep(fm, old(tx).channel, old(tx).mcs, old(State()), ev)
      ensures tx.channel == old(tx).channel && tx.mcs == old(tx).mcs
    {
      hide IsFormats;
      PayloadFits(fm, ev.data);
      var _ := Take(true);
      Fill(udp2radio, ev.data);
      if !ev.error { peer := Some(ev.from); }
      HandleUdpReceiveFrom(ev.error, |ev.data|);
      if IsRelayedUdp(fm, ev) {
        SliceOfData(udp2radio[..], ev.data, fm.headerBytes, fm.payloadLength(ev.data));
      }
    }

    method CompleteUdpIn(ev: Event)
      requires ev.UdpIn? && Valid() && Enabled(State(), ev) && ToRadioOp(ops).UdpReceive?
      modifies this, udp2radio
      ensures Valid() && State() == RelayStep(fm, old(tx).channel, old(tx).mcs, old(State()), ev)
      ensures tx.channel == old(tx).channel && tx.mcs == old(tx).mcs
    {
      hide IsFormats;
      PayloadFits(fm, ev.data);
      var _ := Take(true);
      Fill(udp2radio, ev.data);
      HandleUdpReceive(ev.error, |ev.data|);
      if IsRelayedUdp(fm, ev) {
        SliceOfData(udp2radio[..], ev.data, fm.headerBytes, fm.payloadLength(ev.data));
      }
    }

    method CompleteRadioOut(ev: Event)
      requires ev.RadioOut? && Valid() && Enabled(State(), ev)
      modifies this
      ensures Valid() && State() == RelayStep(fm, old(tx).channel, old(tx).mcs, old(State()), ev)
      ensures tx == old(tx)
    {
      var op := Take(true);
      radioLog := radioLog + [RadioFrame(tx, Slice(udp2radio[..], op.offset, op.length))];
      HandleOtaSend();
    }

    method CompleteRadioIn(ev: Event)
      requires ev.RadioIn? && Valid() && Enabled(State(), ev)
      modifies this, radio2udp
      ensures Valid() && State() == RelayStep(fm, old(tx).channel, old(tx).mcs, old(State()), ev)
      ensures tx == old(tx)
    {
      hide IsFormats;
      var data := ev.radioData;
      var op := Take(false);
      Fill(radio2udp, data);
      HandleOtaReceive(ev.radioError, |data|);
      if !ev.radioError && fm.descriptorBytes + FCS_BYTES <= |data| {
        SliceOfData(radio2udp[..], data, fm.descriptorBytes, |data| - FCS_BYTES - fm.descriptorBytes);
      }
    }

    method CompleteUdpOut(ev: Event)
      requires ev.UdpOut? && Valid() && Enabled(State(), ev)
      modifies this
      ensures Valid() && State() == RelayStep(fm, old(tx).channel, old(tx).mcs, old(State()), ev)
      ensures tx == old(tx)
    {
      var op := Take(false);
      udpLog := udpLog + [UdpFrame(header, Slice(radio2udp[..], op.udpOffset, op.udpLength), op.to)];
      HandleUdpSend();
    }

    /** One event. Sends read the buffer and descriptor when they complete, not when they
        start; that the outcome is nevertheless the frame fixed at the arrival is what
        the refinement says. */
    method Complete(ev: Event)
      requires Valid() && Enabled(State(), ev)
      modifies this, udp2radio, radio2udp
      ensures Valid() && State() == RelayStep(fm, old(tx).channel, old(tx).mcs, old(State()), ev)
      ensures tx.channel == old(tx).channel && tx.mcs == old(tx).mcs
    {
      match ev {
        case UdpIn(_, _, _) =>
          if ToRadioOp(ops).UdpReceiveFrom? { CompleteFirstUdpIn(ev); } else { CompleteUdpIn(ev); }
        case RadioOut(_) => CompleteRadioOut(ev);
        case RadioIn(_, _) => CompleteRadioIn(ev);
        case UdpOut(_) => CompleteUdpOut(ev);
        case ScribbleUdp(contents) => Fill(udp2radio, contents);
        case ScribbleRadio(contents) => Fill(radio2udp, contents);
      }
    }
  }

  // ---------------------------------------------------------------- whole runs

  /** The events can happen in this order. */
  predicate Possible(fm: Formats, channel: nat, mcs: nat, a: Relay, events: seq<Event>)
    decreases |events|
  {
    events != [] ==>
      Enabled(a, events[0]) && Possible(fm, channel, mcs, RelayStep(fm, channel, mcs, a, events[0]), events[1..])
  }

  function RelayRun(fm: Formats, channel: nat, mcs: nat, a: Relay, events: seq<Event>): Relay
    requires Possible(fm, channel, mcs, a, events)
    decreases |events|
  {
    if events == [] then a
    else RelayRun(fm, channel, mcs, RelayStep(fm, channel, mcs, a, events[0]), events[1..])
  }

  /** The handler follows the machine through every possible run. */
  method Serve(handler: ProxyHandler, events: seq<Event>)
    requires handler.Valid()
    requires Possible(handler.fm, handler.tx.channel, handler.tx.mcs, handler.State(), events)
    modifies handler, handler.udp2radio, handler.radio2udp
    ensures handler.Valid()
    ensures handler.State() ==
      RelayRun(handler.fm, old(handler.tx).channel, old(handler.tx).mcs, old(handler.State()), events)
  {
    ghost var channel, mcs := handler.tx.channel, handler.tx.mcs;
    var i := 0;
    while i < |events|
      invariant 0 <= i <= |events|
      invariant handler.Valid() && handler.tx.channel == channel && handler.tx.mcs == mcs
      invariant Possible(handler.fm, channel, mcs, handler.State(), events[i..])
      invariant RelayRun(handler.fm, channel, mcs, handler.State(), events[i..])
        == RelayRun(handler.fm, channel, mcs, old(handler.State()), events)
    {
      hide RelayStep;
      hide handler.State;
      assert events[i..][0] == events[i] && events[i..][1..] == events[i + 1..];
      handler.Complete(events[i]);
      i := i + 1;
    }
  }

  /** The radio frames the arrived datagrams call for, in order of arrival. */
  function RadioFramesDue(fm: Formats, channel: nat, mcs: nat, events: seq<Event>): seq<RadioFrame> {
    if events == [] then []
    else
      (if IsRelayedUdp(fm, events[0]) then [RadioFrameOf(fm, channel, mcs, events[0].data)] else [])
      + RadioFramesDue(fm, channel, mcs, events[1..])
  }

  /** The datagrams the arrived radio frames call for, to the first sender. */
  function DatagramsDue(fm: Formats, peer: Option<Endpoint>, events: seq<Event>): seq<UdpFrame> {
    if events == [] then []
    else
      (if IsRelayedRadio(fm, events[0]) then [UdpFrameOf(fm, peer, events[0].radioData)] else [])
      + DatagramsDue(fm, peer, events[1..])
  }

  /** Handed over so far, then the frame still being sent. */
  function RadioTrace(a: Relay): seq<RadioFrame> {
    a.radioLog + if a.toRadio.RadioSending? then [a.toRadio.frame] else []
  }

  function UdpTrace(a: Relay): seq<UdpFrame> {
    a.udpLog + if a.toUdp.UdpSending? then [a.toUdp.datagram] else []
  }

  /** Trace refinement towards the radio: whatever the interleaving, the frames handed
      over are, in order and without duplication or loss, those of the datagrams that
      arrived sound and with a header, each with the descriptor its own header asks for. */
  lemma {:induction false} RadioTraceRefines(fm: Formats, channel: nat, mcs: nat, a: Relay, events: seq<Event>)
    requires Possible(fm, channel, mcs, a, events)
    ensures RadioTrace(RelayRun(fm, channel, mcs, a, events))
      == RadioTrace(a) + RadioFramesDue(fm, channel, mcs, events)
    decreases |events|
  {
    if events != [] {
      RadioTraceRefines(fm, channel, mcs, RelayStep(fm, channel, mcs, a, events[0]), events[1..]);
    }
  }

  /** Trace refinement towards UDP, once that direction runs. */
  lemma {:induction false} UdpTraceRefines(fm: Formats, channel: nat, mcs: nat, a: Relay, events: seq<Event>)
    requires Possible(fm, channel, mcs, a, events) && !a.first
    ensures var b := RelayRun(fm, channel, mcs, a, events);
      UdpTrace(b) == UdpTrace(a) + DatagramsDue(fm, a.peer, events) && b.peer == a.peer && !b.first
    decreases |events|
  {
    if events != [] {
      UdpTraceRefines(fm, channel, mcs, RelayStep(fm, channel, mcs, a, events[0]), events[1..]);
    }
  }

  /** Buffer stability: until a send completes, no event of any interleaving, not even
      the kernel writing receive buffers, changes the bytes or the descriptor it refers to. */
  lemma {:induction false} PendingSendsAreStable(fm: Formats, channel: nat, mcs: nat, a: Relay, events: seq<Event>)
    requires Possible(fm, channel, mcs, a, events) && (a.first ==> a.toUdp.Off?)
    ensures a.toRadio.RadioSending? && (forall i :: 0 <= i < |events| ==> !events[i].RadioOut?) ==>
      RelayRun(fm, channel, mcs, a, events).toRadio == a.toRadio
    ensures a.toUdp.UdpSending? && (forall i :: 0 <= i < |events| ==> !events[i].UdpOut?) ==>
      RelayRun(fm, channel, mcs, a, events).toUdp == a.toUdp
    decreases |events|
  {
    if events != [] {
      assert forall i :: 0 <= i < |events[1..]| ==> events[1..][i] == events[i + 1];
      PendingSendsAreStable(fm, channel, mcs, RelayStep(fm, channel, mcs, a, events[0]), events[1..]);
    }
  }

  /** The completion of the very first receive, if it has happened. */
  function FirstArrival(events: seq<Event>): Option<Event> {
    if events == [] then None
    else if events[0].UdpIn? then Some(events[0])
    else FirstArrival(events[1..])
  }

  /** Start-up: from the start, the direction towards UDP runs exactly when the first
      receive has completed without error, its peer is the sender of that datagram, and
      after a first error it never runs; every datagram goes to that peer. */
  lemma {:induction false} StartUpIsSafe(fm: Formats, channel: nat, mcs: nat, events: seq<Event>)
    requires Possible(fm, channel, mcs, STARTED, events)
    ensures var b := RelayRun(fm, channel, mcs, STARTED, events);
      match FirstArrival(events)
      case None => b.first && b.toUdp.Off? && b.peer.None? && UdpTrace(b) == []
      case Some(UdpIn(error, _, from)) =>
        !b.first && (b.toUdp.Off? <==> error) && (b.peer == if error then None else Some(from))
        && UdpTrace(b) == DatagramsDue(fm, b.peer, events) && (error ==> UdpTrace(b) == [])
      case Some(_) => false
    decreases |events|
  {
    if events != [] {
      if events[0].UdpIn? {
        var a := RelayStep(fm, channel, mcs, STARTED, events[0]);
        UdpTraceRefines(fm, channel, mcs, a, events[1..]);
        StaysOnOrOff(fm, channel, mcs, a, events[1..]);
      } else {
        assert RelayStep(fm, channel, mcs, STARTED, events[0]) == STARTED;
        StartUpIsSafe(fm, channel, mcs, events[1..]);
      }
    }
  }

  lemma {:induction false} StaysOnOrOff(fm: Formats, channel: nat, mcs: nat, a: Relay, events: seq<Event>)
    requires Possible(fm, channel, mcs, a, events) && !a.first
    ensures RelayRun(fm, channel, mcs, a, events).toUdp.Off? <==> a.toUdp.Off?
    ensures a.toUdp.Off? ==> UdpTrace(RelayRun(fm, channel, mcs, a, events)) == UdpTrace(a)
    decreases |events|
  {
    if events != [] {
      StaysOnOrOff(fm, channel, mcs, RelayStep(fm, channel, mcs, a, events[0]), events[1..]);
    }
  }

  /** A radio frame long enough for its descriptor but not for its checksum. */
  predicate IsRunt(fm: Formats, ev: Event) {
    IsRelayedRadio(fm, ev) && |ev.radioData| < fm.descriptorBytes + FCS_BYTES
  }

  /** Every datagram due carries exactly what lies between descriptor and checksum if and
      only if no runt arrived: for a runt the unsigned length wraps around and the send
      would read past the buffer. */
  lemma {:induction false} SlicesAreSoundIffNoRunt(fm: Formats, peer: Option<Endpoint>, events: seq<Event>)
    ensures AllSound(DatagramsDue(fm, peer, events))
      <==> NoRunt(fm, events)
    decreases |events|
  {
    if events != [] {
      var rest := events[1..];
      SlicesAreSoundIffNoRunt(fm, peer, rest);
      var head := if IsRelayedRadio(fm, events[0]) then [UdpFrameOf(fm, peer, events[0].radioData)] else [];
      assert AllSound(head) <==> (head != [] ==> head[0].payload.Some?);
      SoundConcat(head, DatagramsDue(fm, peer, rest));
      NoRuntCons(fm, events);
    }
  }

  predicate NoRunt(fm: Formats, events: seq<Event>) {
    forall i :: 0 <= i < |events| ==> !IsRunt(fm, events[i])
  }

  lemma NoRuntCons(fm: Formats, events: seq<Event>)
    requires events != []
    ensures NoRunt(fm, events) <==> !IsRunt(fm, events[0]) && NoRunt(fm, events[1..])
  {
    assert forall i :: 0 < i < |events| ==> events[i] == events[1..][i - 1];
  }

  predicate AllSound(frames: seq<UdpFrame>) {
    forall i :: 0 <= i < |frames| ==> frames[i].payload.Some?
  }

  lemma SoundConcat(a: seq<UdpFrame>, b: seq<UdpFrame>)
    ensures AllSound(a + b) <==> AllSound(a) && AllSound(b)
  {
    if AllSound(a + b) {
      assert forall i :: 0 <= i < |a| ==> a[i] == (a + b)[i];
      assert forall i :: 0 <= i < |b| ==> b[i] == (a + b)[|a| + i];
    }
  }

  /** A runt: the smallest frame that passes the length check. */
  lemma RuntWraps(fm: Formats, peer: Option<Endpoint>)
    ensures UdpFrameOf(fm, peer, seq(fm.descriptorBytes, _ => 0)).header.length == SIZE_T_VALUES - FCS_BYTES
  {}

  // ---------------------------------------------------------------- a proxy at work

  /** From construction on, whatever the interleaving: what the radio was given and the
      frame still being sent are what the datagrams call for; what was sent by UDP and the
      datagram still being sent are what the radio frames call for, to the sender of the
      first datagram, and nothing is ever sent by UDP without one. */
  method RelayTraffic(fm: Formats, channel: nat, mcs: nat, events: seq<Event>) returns (handler: ProxyHandler)
    requires IsFormats(fm) && Possible(fm, channel, mcs, STARTED, events)
    ensures fresh(handler) && handler.Valid() && handler.fm == fm
    ensures RadioTrace(handler.State()) == RadioFramesDue(fm, channel, mcs, events)
    ensures handler.radioLog <= RadioFramesDue(fm, channel, mcs, events)
    ensures handler.udpLog <= UdpTrace(handler.State())
    ensures match FirstArrival(events)
      case Some(UdpIn(false, _, from)) =>
        handler.peer == Some(from) && UdpTrace(handler.State()) == DatagramsDue(fm, Some(from), events)
      case _ => handler.peer.None? && handler.State().toUdp.Off? && UdpTrace(handler.State()) == []
  {
    hide RelayStep, RadioFramesDue, DatagramsDue;
    handler := new ProxyHandler(fm);
    handler.ChannelNumber(channel);
    handler.Mcs(mcs);
    handler.StartTransfer();
    Serve(handler, events);
    RadioTraceRefines(fm, channel, mcs, STARTED, events);
    assert [] + RadioFramesDue(fm, channel, mcs, events) == RadioFramesDue(fm, channel, mcs, events);
    StartUpIsSafe(fm, channel, mcs, events);
  }

  // ---------------------------------------------------------------- single frames, in literal terms

  /** A datagram that arrives without error calls for a radio frame exactly if it is at least
      as long as its header: with the channel and coding set, the power and the category's
      priority of its own header, and the payload that follows the header. */
  lemma OneDatagram(fm: Formats, channel: nat, mcs: nat, error: bool, data: seq<Byte>, from: Endpoint)
    requires IsFormats(fm)
    ensures error || |data| < fm.headerBytes ==>
      RadioFramesDue(fm, channel, mcs, [UdpIn(error, data, from)]) == []
    ensures !error && |data| >= fm.headerBytes ==>
      |RadioFramesDue(fm, channel, mcs, [UdpIn(error, data, from)])| == 1
    ensures !error && |data| >= fm.headerBytes ==>
      var frame := RadioFramesDue(fm, channel, mcs, [UdpIn(error, data, from)])[0];
      frame.tx.channel == channel && frame.tx.mcs == mcs && frame.tx.power == fm.txPower(data)
      && (fm.category(data) == BK ==> frame.tx.priority == Prio1)
      && (fm.category(data) == BE ==> frame.tx.priority == Prio3)
      && (fm.category(data) == VI ==> frame.tx.priority == Prio5)
      && (fm.category(data) == VO ==> frame.tx.priority == Prio7)
      && frame.payload == Some(data[fm.headerBytes..fm.headerBytes + fm.payloadLength(data)])
  {
    PayloadFits(fm, data);
    assert [UdpIn(error, data, from)][1..] == [];
  }

  /** A radio frame of a descriptor, n bytes and four more calls for a datagram of exactly
      those n bytes, announced as such, with the power of the descriptor. */
  lemma OneRadioFrame(fm: Formats, peer: Option<Endpoint>, data: seq<Byte>, n: nat)
    requires |data| == fm.descriptorBytes + n + 4
    ensures DatagramsDue(fm, peer, [RadioIn(false, data)])
      == [UdpFrame(ProxyHeader(fm.rxPower(data), n), Some(data[fm.descriptorBytes..fm.descriptorBytes + n]), peer)]
  {
    assert [RadioIn(false, data)][1..] == [];
  }

  /** Radio frames shorter than the descriptor, and errors, call for nothing. */
  lemma NoRadioFrame(fm: Formats, peer: Option<Endpoint>, error: bool, data: seq<Byte>)
    requires error || |data| < fm.descriptorBytes
    ensures DatagramsDue(fm, peer, [RadioIn(error, data)]) == []
  {
  }
}
