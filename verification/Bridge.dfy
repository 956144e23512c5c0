/** The packet pipeline between two links: a receive loop that feeds the filter and
    a filter that forwards on the other link. */
module Bridge {
  import opened Base
  import opened Signatures
  import opened Detection
  import opened GeonetDecoding
  import opened GeonetDetection
  import opened MessageHandling

  const RECEIVE_BUFFER_BYTES := 2048
  const ETHERNET_HEADER_BYTES := 14
  const ETHERTYPE_GEONETWORKING := 0x8947

  type Frame = seq<Byte>

  type ParserId = nat

  /** An application-layer parser and the port it serves. */
  datatype App = App(id: ParserId, port: nat)

  /** Destination and source address, then the type, most significant byte first
      (section 3.2 of IEEE 802.3). */
  datatype EthernetHeader = EthernetHeader(destination: seq<Byte>, source: seq<Byte>, etherType: nat)

  function EthernetOf(bytes: Frame): Option<EthernetHeader> {
    if |bytes| < ETHERNET_HEADER_BYTES then None
    else Some(EthernetHeader(bytes[..6], bytes[6..12], bytes[12] as int * 256 + bytes[13] as int))
  }

  /** What uninitialised memory holds while one packet is processed. */
  datatype Garbage = Garbage(data: GeonetData, payload: PacketId, detected: bool, report: HandleReport)

  /** The outcome of one received frame. */
  datatype Disposition =
    | Ignored      // not handed to the pipeline, or not a foreign GeoNetworking frame
    | NullParser   // a null application parser is called
    | Threw        // extracting a pattern throws
    | Dropped
    | Forwarded

  /** Everything that is fixed while packets flow. */
  datatype Config = Config(
    table: map<Protocol, seq<Signature>>,
    parsers: map<nat, Option<ParserId>>,
    localMac: seq<Byte>,
    parse: Frame -> ParsedFrame,
    isWithin: (Position, Position, int) -> bool)

  // ---------------------------------------------------------------- what a frame deserves

  predicate IsForeign(cfg: Config, hdr: EthernetHeader) {
    hdr.source != cfg.localMac && hdr.etherType == ETHERTYPE_GEONETWORKING
  }

  /** The pipeline would call a parser that is not there. */
  predicate LacksParser(parsers: map<nat, Option<ParserId>>, f: ParsedFrame) {
    match DecodedPorts(f)
    case None => false
    case Some(btp) => !(btp.destinationPort in parsers && parsers[btp.destinationPort].Some?)
  }

  /** What the registered parser is handed: the packet of a BTP frame, nothing else. */
  function Delivery(parsers: map<nat, Option<ParserId>>, f: ParsedFrame, p: PacketId): seq<(ParserId, PacketId)>
  {
    match DecodedPorts(f)
    case None => []
    case Some(btp) => if LacksParser(parsers, f) then [] else [(parsers[btp.destinationPort].value, p)]
  }

  /** The packet outlives its processing with nobody owning it: it leaks, or the call that
      would have taken it over goes through a null pointer. */
  predicate Strands(parsers: map<nat, Option<ParserId>>, f: ParsedFrame) {
    Leaks(f) || LacksParser(parsers, f)
  }

  /** The parser table after looking up the port of a frame. */
  function LookedUp(parsers: map<nat, Option<ParserId>>, f: ParsedFrame): map<nat, Option<ParserId>> {
    match DecodedPorts(f)
    case None => parsers
    case Some(btp) => if btp.destinationPort in parsers then parsers else parsers[btp.destinationPort := None]
  }

  /** What can be seen of a run: frames sent, packets alive, lines logged. */
  datatype Trace = Trace(sent: seq<Frame>, live: nat, log: seq<LogLine>)

  /** Some listed signature matches and does more than alert. */
  predicate Condemned(sigs: seq<Signature>, d: GeonetData, s: Surroundings) {
    exists i :: 0 <= i < |sigs| && Matches(sigs[i], d, s) && sigs[i].action != Alert
  }

  /** Some GeoNetworking signature makes the matcher throw. */
  predicate TableThrows(table: map<Protocol, seq<Signature>>) {
    exists i :: 0 <= i < |Listed(table, GeoNetworking)| && GetThrows(Listed(table, GeoNetworking)[i])
  }

  /** The packet is to be dropped. Without a GeoNetworking vector that rests on two
      variables nobody initialised. */
  predicate IsCondemned(table: map<Protocol, seq<Signature>>, d: GeonetData, s: Surroundings, g: Garbage) {
    if GeoNetworking !in table then !g.detected && g.report == DropReport else Condemned(table[GeoNetworking], d, s)
  }

  /** The lines logged for a packet: one for each matching signature, in the order of
      the rules. */
  function Alerts(table: map<Protocol, seq<Signature>>, d: GeonetData, s: Surroundings): seq<LogLine> {
    LinesFor(Matching(Listed(table, GeoNetworking), d, s))
  }

  /** The verdict on a foreign frame. */
  function Verdict(cfg: Config, f: ParsedFrame, ego: Position, g: Garbage): Disposition {
    if LacksParser(cfg.parsers, f) then NullParser
    else if TableThrows(cfg.table) then Threw
    else if IsCondemned(cfg.table, Decoded(g.data, f), Surroundings(ego, cfg.isWithin), g) then Dropped
    else Forwarded
  }

  function Dispose(cfg: Config, bytes: Frame, ego: Position, g: Garbage): Disposition {
    match EthernetOf(bytes)
    case None => Ignored
    case Some(hdr) => if IsForeign(cfg, hdr) then Verdict(cfg, cfg.parse(bytes), ego, g) else Ignored
  }

  /** A port with a parser is in the table already. */
  lemma KnownPortsStay(parsers: map<nat, Option<ParserId>>, f: ParsedFrame)
    ensures !LacksParser(parsers, f) ==> LookedUp(parsers, f) == parsers
  {
  }

  /** The pipeline came to a verdict. */
  predicate IsJudged(r: Disposition) {
    r == Forwarded || r == Dropped
  }

  /** Filtering the signatures and folding their actions asks for a drop exactly when
      a listed signature condemns the packet. */
  lemma DropIsCondemnation(sigs: seq<Signature>, d: GeonetData, s: Surroundings)
    ensures CallsForDrop(Matching(sigs, d, s)) <==> Condemned(sigs, d, s)
  {
    var matched := Matching(sigs, d, s);
    if CallsForDrop(matched) {
      var i :| 0 <= i < |matched| && matched[i].action != Alert;
      assert matched[i] in matched;
      var j :| 0 <= j < |sigs| && sigs[j] == matched[i];
    }
    if Condemned(sigs, d, s) {
      var i :| 0 <= i < |sigs| && Matches(sigs[i], d, s) && sigs[i].action != Alert;
      assert sigs[i] in matched;
      var j :| 0 <= j < |matched| && matched[j] == sigs[i];
    }
  }

  // ---------------------------------------------------------------- the filter

  class IdpsContext {
    var parsers: map<nat, Option<ParserId>>
    var delivered: seq<(ParserId, PacketId)>
    const localMac: seq<Byte>
    const parse: Frame -> ParsedFrame
    const isWithin: (Position, Position, int) -> bool
    const store: SignatureStore
    const destination: RawSocketLink
    const heap: PacketHeap
    const handler: MessageHandler

    constructor (localMac: seq<Byte>, parse: Frame -> ParsedFrame,
        isWithin: (Position, Position, int) -> bool, store: SignatureStore, destination: RawSocketLink)
      ensures this.localMac == localMac && this.parse == parse && this.isWithin == isWithin
      ensures this.store == store && this.destination == destination
      ensures parsers == map[] && delivered == []
      ensures fresh(heap) && heap.Valid() && heap.live == {} && heap.owned == {} && fresh(handler) && handler.log == []
    {
      parsers, delivered := map[], [];
      this.localMac, this.parse, this.isWithin := localMac, parse, isWithin;
      this.store, this.destination := store, destination;
      heap := new PacketHeap();
      handler := new MessageHandler();
    }

    ghost function Cfg(): Config
      reads this`parsers, store
    {
      Config(store.table, parsers, localMac, parse, isWithin)
    }

    ghost function Seen(): Trace
      reads destination, heap, handler
    {
      Trace(destination.sent, |heap.live|, handler.log)
    }

    /** Port 0 stands for no port. */
    method Enable(app: App)
      modifies this`parsers
      ensures parsers == if app.port == 0 then old(parsers) else old(parsers)[app.port := Some(app.id)]
    {
      if app.port != 0 {
        SetApplicationLayerParser(app.port, Some(app.id));
      }
    }

    method Disable(app: App)
      modifies this`parsers
      ensures parsers == if app.port == 0 then old(parsers) else old(parsers)[app.port := None]
    {
      if app.port != 0 {
        SetApplicationLayerParser(app.port, None);
      }
    }

    method SetApplicationLayerParser(port: nat, parser: Option<ParserId>)
      modifies this`parsers
      ensures parsers == old(parsers)[port := parser]
    {
      parsers := parsers[port := parser];
    }

    /** Looking a port up creates a null entry for one never registered. */
    method Classify(btp: BtpData) returns (parser: Option<ParserId>)
      modifies this`parsers
      ensures parser == if btp.destinationPort in old(parsers) then old(parsers)[btp.destinationPort] else None
      ensures parsers == if btp.destinationPort in old(parsers) then old(parsers)
        else old(parsers)[btp.destinationPort := None]
    {
      if btp.destinationPort !in parsers {
        parsers := parsers[btp.destinationPort := None];
      }
      parser := parsers[btp.destinationPort];
    }

    /** Decode, then hand the payload to its parser if there is one to hand. */
    method DecodeAndParse(packet: Frame, context: DetectionContext) returns (ok: bool)
      requires heap.Valid() && heap.owned == {}
      requires IsFreshData(context.geonet) && context.btp.None?
      modifies this`parsers, this`delivered, heap, context
      ensures ok <==> !LacksParser(old(parsers), parse(packet))
      ensures context.geonet == Decoded(old(context.geonet), parse(packet))
      ensures parsers == LookedUp(old(parsers), parse(packet))
      ensures heap.Valid() && heap.owned == {}
      ensures heap.live
        == old(heap.live) + (if Strands(old(parsers), parse(packet)) then {old(heap.next)} else {})
      ensures delivered == old(delivered) + Delivery(old(parsers), parse(packet), old(heap.next))
    {
      var p := heap.Allocate();
      var decoder := new GeonetDecoder(context, heap);
      decoder.Decode(parse(packet), p);
      ok := true;
      if context.btp.Some? {
        var parser := Classify(context.btp.value);
        if parser.None? { return false; }
        // a new owning pointer around the raw one, gone when the parser returns
        heap.Adopt(context.payload);
        delivered := delivered + [(parser.value, context.payload)];
        heap.Destroy(context.payload);
      }
    }

    /** Detect and handle; None stands for an exception, before which nothing is logged. */
    method Judge(data: GeonetData, ego: Position, g: Garbage) returns (report: Option<HandleReport>)
      modifies handler
      ensures report.None? <==> TableThrows(store.table)
      ensures report.Some? ==>
        (report.value == DropReport <==> IsCondemned(store.table, data, Surroundings(ego, isWithin), g))
      ensures handler.log == old(handler.log)
        + if report.Some? then Alerts(store.table, data, Surroundings(ego, isWithin)) else []
    {
      hide Matches, GetThrows;
      assert GeoNetworking in store.table ==> Listed(store.table, GeoNetworking) == store.table[GeoNetworking];
      var detected, sigs := g.detected, [];
      var surroundings := Surroundings(ego, isWithin);
      if GeoNetworking in store.table {
        var detector := new GeonetDetector(data, surroundings);
        var outcome := detector.Detect(store.table[GeoNetworking]);
        if outcome.BadGet? { return None; }
        detected, sigs := true, outcome.sigs;
        DropIsCondemnation(store.table[GeoNetworking], data, surroundings);
      }
      report := Some(g.report);
      if detected {
        var handled := handler.Handle(sigs);
        report := Some(handled);
      }
      assert handler.log == old(handler.log) + LinesFor(sigs);
    }

    /** One packet: decode, classify and parse, detect, handle, forward. */
    method Run(packet: Frame, hdr: EthernetHeader, ego: Position, g: Garbage) returns (r: Disposition)
      requires heap.Valid() && heap.owned == {} && IsFreshData(g.data)
      modifies this`parsers, this`delivered, heap, handler, destination`sent
      ensures r == if IsForeign(old(Cfg()), hdr) then Verdict(old(Cfg()), parse(packet), ego, g) else Ignored
      ensures destination.sent == old(destination.sent) + if r == Forwarded then [packet] else []
      ensures parsers == if r == Ignored then old(parsers) else LookedUp(old(parsers), parse(packet))
      ensures r != NullParser ==> parsers == old(parsers)
      ensures heap.Valid() && heap.owned == {}
      ensures |heap.live| == |old(heap.live)| + if r != Ignored && Strands(old(parsers), parse(packet)) then 1 else 0
      ensures delivered
        == old(delivered) + if r == Ignored then [] else Delivery(old(parsers), parse(packet), old(heap.next))
      ensures handler.log == old(handler.log) + if IsJudged(r)
        then Alerts(old(store.table), Decoded(g.data, parse(packet)), Surroundings(ego, isWithin)) else []
    {
      hide TableThrows, IsCondemned, Alerts, Decoded, Strands, LookedUp, LacksParser, Delivery;
      KnownPortsStay(parsers, parse(packet));
      r := Ignored;
      if hdr.source != localMac && hdr.etherType == ETHERTYPE_GEONETWORKING {
        var context := new DetectionContext(g.data, g.payload);
        var parsedOk := DecodeAndParse(packet, context);
        if !parsedOk { return NullParser; }
        var report := Judge(context.geonet, ego, g);
        if report.None? { return Threw; }
        if report.value != DropReport {
          destination.Transmit(packet);
          r := Forwarded;
        } else {
          r := Dropped;
        }
      }
    }
  }

  // ---------------------------------------------------------------- the links

  /** One completion of a receive: an error, or that many bytes in the buffer, at some
      ego position and with some garbage around. */
  datatype ReadEvent = ReadError | ReadBytes(bytes: Frame, ego: Position, garbage: Garbage)

  predicate IsRead(ev: ReadEvent) {
    ev.ReadBytes? ==> |ev.bytes| <= RECEIVE_BUFFER_BYTES && IsFreshData(ev.garbage.data)
  }

  /** How the process goes on after an outcome. */
  predicate Survives(d: Disposition) {
    d != NullParser && d != Threw
  }

  function DisposeEvent(cfg: Config, ev: ReadEvent): Disposition
    requires ev.ReadBytes?
  {
    Dispose(cfg, ev.bytes, ev.ego, ev.garbage)
  }

  /** The loop goes on receiving after this completion. */
  predicate Continues(cfg: Config, ev: ReadEvent) {
    ev.ReadBytes? && Survives(DisposeEvent(cfg, ev))
  }

  /** The frame is forwarded. */
  predicate Passes(cfg: Config, ev: ReadEvent) {
    ev.ReadBytes? && DisposeEvent(cfg, ev) == Forwarded
  }

  function Passed(cfg: Config, ev: ReadEvent): seq<Frame> {
    if Passes(cfg, ev) then [ev.bytes] else []
  }

  /** The number of packets one completion leaves alive with nobody owning them. */
  function LeakOf(cfg: Config, ev: ReadEvent): nat {
    if ev.ReadBytes? && DisposeEvent(cfg, ev) != Ignored && Strands(cfg.parsers, cfg.parse(ev.bytes)) then 1 else 0
  }

  /** The lines logged for one completion. */
  function AlertsOf(cfg: Config, ev: ReadEvent): seq<LogLine> {
    if ev.ReadBytes? && IsJudged(DisposeEvent(cfg, ev))
    then Alerts(cfg.table, Decoded(ev.garbage.data, cfg.parse(ev.bytes)), Surroundings(ev.ego, cfg.isWithin))
    else []
  }

  // ---------------------------------------------------------------- runs

  /** The frames forwarded over a sequence of completions, up to and including the first
      that ends the loop. */
  function FilterRun(cfg: Config, events: seq<ReadEvent>): seq<Frame> {
    if events == [] then []
    else Passed(cfg, events[0]) + if Continues(cfg, events[0]) then FilterRun(cfg, events[1..]) else []
  }

  /** The lines logged over a sequence of completions. */
  function AlertRun(cfg: Config, events: seq<ReadEvent>): seq<LogLine> {
    if events == [] then []
    else AlertsOf(cfg, events[0]) + if Continues(cfg, events[0]) then AlertRun(cfg, events[1..]) else []
  }

  /** The packets a sequence of completions leaves behind. */
  function LeakRun(cfg: Config, events: seq<ReadEvent>): nat {
    if events == [] then 0
    else LeakOf(cfg, events[0]) + if Continues(cfg, events[0]) then LeakRun(cfg, events[1..]) else 0
  }

  /** What one completion adds to what can be seen; a read error adds nothing. */
  function After(cfg: Config, ev: ReadEvent, t: Trace): Trace {
    Trace(t.sent + Passed(cfg, ev), t.live + LeakOf(cfg, ev), t.log + AlertsOf(cfg, ev))
  }

  function TraceRun(cfg: Config, events: seq<ReadEvent>, t: Trace): Trace {
    if events == [] then t
    else
      var t' := After(cfg, events[0], t);
      if Continues(cfg, events[0]) then TraceRun(cfg, events[1..], t') else t'
  }

  /** The parts of a run's trace. */
  lemma {:induction false} TraceRunParts(cfg: Config, events: seq<ReadEvent>, t: Trace)
    ensures TraceRun(cfg, events, t)
      == Trace(t.sent + FilterRun(cfg, events), t.live + LeakRun(cfg, events), t.log + AlertRun(cfg, events))
    decreases |events|
  {
    hide Continues, Passed, LeakOf, AlertsOf;
    if events != [] && Continues(cfg, events[0]) {
      var t', rest := After(cfg, events[0], t), events[1..];
      TraceRunParts(cfg, rest, t');
      assert t'.sent + FilterRun(cfg, rest) == t.sent + (Passed(cfg, events[0]) + FilterRun(cfg, rest));
      assert t'.log + AlertRun(cfg, rest) == t.log + (AlertsOf(cfg, events[0]) + AlertRun(cfg, rest));
    }
  }

  lemma NothingAfterAnError(cfg: Config, t: Trace)
    ensures After(cfg, ReadError, t) == t && !Continues(cfg, ReadError)
  {
    assert t.sent + [] == t.sent;
  }

  class RawSocketLink {
    const receiveBuffer: array<Byte>
    var callback: IdpsContext?
    var outstanding: nat
    var sent: seq<Frame>

    /** Opening a link issues its first receive. */
    constructor ()
      ensures callback == null && outstanding == 1 && sent == []
      ensures fresh(receiveBuffer) && receiveBuffer.Length == 2048
    {
      receiveBuffer := new Byte[RECEIVE_BUFFER_BYTES](_ => 0);
      callback, sent, outstanding := null, [], 0;
      new;
      DoReceive();
    }

    method Indicate(context: IdpsContext)
      modifies this`callback
      ensures callback == context
    {
      callback := context;
    }

    method Transmit(packet: Frame)
      modifies this`sent
      ensures sent == old(sent) + [packet]
    {
      sent := sent + [packet];
    }

    method DoReceive()
      modifies this`outstanding
      ensures outstanding == old(outstanding) + 1
    {
      outstanding := outstanding + 1;
    }

    method ParseEthernetHeader(packet: Frame) returns (r: Option<EthernetHeader>)
      ensures r == EthernetOf(packet)
    {
      if |packet| < ETHERNET_HEADER_BYTES {
        r := None;
      } else {
        r := Some(EthernetHeader(packet[..6], packet[6..12], packet[12] as int * 256 + packet[13] as int));
      }
    }

    /** The links and objects a callback works on are apart from one another. */
    ghost predicate Wired(context: IdpsContext)
      reads this, context.heap
    {
      && callback == context && context.destination != this
      && receiveBuffer.Length == RECEIVE_BUFFER_BYTES
      && context.heap.Valid() && context.heap.owned == {}
    }

    /** The completion handler: copies the bytes out, calls back, re-arms. */
    method OnRead(error: bool, readBytes: nat, ego: Position, g: Garbage, ghost context: IdpsContext)
      returns (r: Disposition)
      requires Wired(context) && readBytes <= receiveBuffer.Length && IsFreshData(g.data)
      modifies this`outstanding, context`parsers, context`delivered, context.heap, context.handler
      modifies context.destination`sent
      ensures error ==> r == Ignored && outstanding == old(outstanding) && context.Seen() == old(context.Seen())
      ensures !error ==> r == Dispose(old(context.Cfg()), old(receiveBuffer[..readBytes]), ego, g)
      ensures !error ==> outstanding == old(outstanding) + if Survives(r) then 1 else 0
      ensures !error ==> var ev := ReadBytes(old(receiveBuffer[..readBytes]), ego, g);
        context.Seen() == After(old(context.Cfg()), ev, old(context.Seen()))
      ensures Wired(context) && (Survives(r) ==> context.parsers == old(context.parsers))
    {
      r := Ignored;
      if !error {
        var packet := receiveBuffer[..readBytes];
        var hdr := ParseEthernetHeader(packet);
        if callback != null && hdr.Some? {
          r := callback.Run(packet, hdr.value, ego, g);
          // neither the crash nor the exception comes back here
          if !Survives(r) { return; }
        }
        DoReceive();
      }
    }

    /** The service completing the outstanding receive: it fills the buffer and calls
        the handler. */
    method Complete(ev: ReadEvent, ghost context: IdpsContext) returns (r: Disposition)
      requires Wired(context) && outstanding == 1 && IsRead(ev)
      modifies this`outstanding, receiveBuffer, context`parsers, context`delivered, context.heap, context.handler
      modifies context.destination`sent
      ensures ev.ReadBytes? ==> r == DisposeEvent(old(context.Cfg()), ev)
      ensures outstanding == if Continues(old(context.Cfg()), ev) then 1 else 0
      ensures context.Seen() == After(old(context.Cfg()), ev, old(context.Seen()))
      ensures Wired(context) && (outstanding == 1 ==> context.Cfg() == old(context.Cfg()))
    {
      outstanding := outstanding - 1;
      match ev {
        case ReadError =>
          NothingAfterAnError(context.Cfg(), context.Seen());
          var nothing := Garbage(BlankData(AnyNext, 0, 0, Position(0, 0)), 0, false, AllowReport);
          r := OnRead(true, 0, Position(0, 0), nothing, context);
        case ReadBytes(bytes, ego, garbage) =>
          forall i | 0 <= i < |bytes| {
            receiveBuffer[i] := bytes[i];
          }
          assert receiveBuffer[..|bytes|] == bytes;
          r := OnRead(false, |bytes|, ego, garbage, context);
      }
    }

    /** One turn of the service loop. */
    method ServeOne(events: seq<ReadEvent>, i: nat, ghost context: IdpsContext, ghost cfg: Config, ghost t0: Trace)
      requires Wired(context) && outstanding == 1 && context.Cfg() == cfg
      requires i < |events| && IsRead(events[i])
      requires Progress(cfg, events, i, t0, context.Seen(), 1)
      modifies this`outstanding, receiveBuffer, context`parsers, context`delivered, context.heap, context.handler
      modifies context.destination`sent
      ensures outstanding == 1 ==> Wired(context) && context.Cfg() == cfg
      ensures Progress(cfg, events, i + 1, t0, context.Seen(), outstanding)
    {
      hide *;
      ghost var t := context.Seen();
      var _ := Complete(events[i], context);
      ProgressStep(cfg, events, i, t0, t, context.Seen(), outstanding);
    }

    /** The service loop: serves completions until no receive is outstanding. */
    method Serve(events: seq<ReadEvent>, ghost context: IdpsContext)
      requires Wired(context) && outstanding == 1
      requires forall i :: 0 <= i < |events| ==> IsRead(events[i])
      modifies this`outstanding, receiveBuffer, context`parsers, context`delivered, context.heap, context.handler
      modifies context.destination`sent
      ensures Served(old(context.Cfg()), events, old(context.Seen()), context.Seen(), outstanding)
    {
      hide *;
      ghost var cfg, t0 := context.Cfg(), context.Seen();
      ProgressStart(cfg, events, t0);
      var i := 0;
      while i < |events| && outstanding == 1
        invariant 0 <= i <= |events|
        invariant outstanding == 1 ==> Wired(context) && context.Cfg() == cfg
        invariant Progress(cfg, events, i, t0, context.Seen(), outstanding)
      {
        ServeOne(events, i, context, cfg, t0);
        i := i + 1;
      }
      ProgressEnd(cfg, events, i, t0, context.Seen(), outstanding);
    }
  }

  /** What serving a sequence of completions amounts to, up to and including the first
      that ends the loop: the frames that pass were sent and nothing else, the alerts were
      logged in order, and one packet is left behind for each stranded frame. A receive is
      outstanding, and then exactly one, if and only if every completion continued the
      loop. */
  predicate Served(cfg: Config, events: seq<ReadEvent>, t0: Trace, t: Trace, outstanding: nat) {
    && t.sent == t0.sent + FilterRun(cfg, events)
    && t.log == t0.log + AlertRun(cfg, events)
    && t.live == t0.live + LeakRun(cfg, events)
    && outstanding == (if forall k :: 0 <= k < |events| ==> Continues(cfg, events[k]) then 1 else 0)
  }

  /** The service loop after i completions: what can be seen so far, with what is still to
      come if it goes on, is the run's trace. */
  predicate Progress(cfg: Config, events: seq<ReadEvent>, i: nat, t0: Trace, t: Trace, outstanding: nat)
    requires i <= |events|
  {
    && outstanding == (if forall k :: 0 <= k < i ==> Continues(cfg, events[k]) then 1 else 0)
    && (if outstanding == 1 then TraceRun(cfg, events[i..], t) else t) == TraceRun(cfg, events, t0)
  }

  lemma ProgressStart(cfg: Config, events: seq<ReadEvent>, t0: Trace)
    ensures Progress(cfg, events, 0, t0, t0, 1)
  {
    assert events[0..] == events;
  }

  lemma ProgressStep(cfg: Config, events: seq<ReadEvent>, i: nat, t0: Trace, t1: Trace, t: Trace, outstanding: nat)
    requires i < |events| && Progress(cfg, events, i, t0, t1, 1)
    requires outstanding == if Continues(cfg, events[i]) then 1 else 0
    requires t == After(cfg, events[i], t1)
    ensures Progress(cfg, events, i + 1, t0, t, outstanding)
  {
    hide Continues, After;
    assert events[i..][0] == events[i] && events[i..][1..] == events[i + 1..];
  }

  lemma ProgressEnd(cfg: Config, events: seq<ReadEvent>, i: nat, t0: Trace, t: Trace, outstanding: nat)
    requires i <= |events| && Progress(cfg, events, i, t0, t, outstanding)
    requires i == |events| || outstanding != 1
    ensures Served(cfg, events, t0, t, outstanding)
  {
    hide Continues, FilterRun, AlertRun, LeakRun;
    TraceRunParts(cfg, events, t0);
  }

  // ---------------------------------------------------------------- in terms of the octets

  /** A received frame is not the filter's business exactly when it is shorter than 14
      octets, when octets 6 to 11 are the own address, or when octets 12 and 13 are not
      0x89 0x47. */
  lemma IgnoredIff(cfg: Config, bytes: Frame, ego: Position, g: Garbage)
    ensures Dispose(cfg, bytes, ego, g) == Ignored
      <==> |bytes| < 14 || bytes[6..12] == cfg.localMac || bytes[12] != 0x89 || bytes[13] != 0x47
  {
    hide Verdict;
    VerdictIsNotIgnored(cfg, cfg.parse(bytes), ego, g);
    if |bytes| >= 14 {
      var high, low: int := bytes[12], bytes[13];
      assert high * 256 + low == 0x8947 <==> high == 0x89 && low == 0x47;
    }
  }

  lemma VerdictIsNotIgnored(cfg: Config, f: ParsedFrame, ego: Position, g: Garbage)
    ensures Verdict(cfg, f, ego, g) != Ignored
  {
  }

  /** Whatever is sent over a run has the type of GeoNetworking and not the own address as
      its source: what the process itself sent on a link is never sent on. */
  lemma {:induction false} OnlyForeignFramesAreSent(cfg: Config, events: seq<ReadEvent>, frame: Frame)
    requires frame in FilterRun(cfg, events)
    ensures |frame| >= 14 && frame[6..12] != cfg.localMac && frame[12] == 0x89 && frame[13] == 0x47
    decreases |events|
  {
    hide Dispose, EthernetOf, IsForeign;
    if events != [] {
      var ev := events[0];
      if frame in Passed(cfg, ev) {
        IgnoredIff(cfg, ev.bytes, ev.ego, ev.garbage);
      } else {
        OnlyForeignFramesAreSent(cfg, events[1..], frame);
      }
    }
  }

  /** A BTP frame is handed to the parser at the destination port its own header states, and
      to that one only; without a parser there the call goes through a null pointer. Other
      frames are handed to nobody. */
  lemma ParserIsThatOfDestination(parsers: map<nat, Option<ParserId>>, f: ParsedFrame, p: PacketId)
    ensures PassesUp(f) && f.common.value.upper == BtpA ==>
      IsHandedTo(parsers, f, p, f.btpA.destinationPort)
    ensures PassesUp(f) && f.common.value.upper == BtpB ==>
      IsHandedTo(parsers, f, p, f.btpB.portB)
    ensures !PassesUp(f) || f.common.value.upper == Ipv6 || f.common.value.upper == UnknownUpper ==>
      !LacksParser(parsers, f) && Delivery(parsers, f, p) == [] && LookedUp(parsers, f) == parsers
  {
  }

  /** The packet goes to the parser of this port, or to a null pointer if it has none. */
  predicate IsHandedTo(parsers: map<nat, Option<ParserId>>, f: ParsedFrame, p: PacketId, port: nat) {
    if port in parsers && parsers[port].Some?
    then !LacksParser(parsers, f) && Delivery(parsers, f, p) == [(parsers[port].value, p)]
    else LacksParser(parsers, f) && Delivery(parsers, f, p) == []
  }

  /** What becomes of a foreign frame, in the order of the pipeline: the call through a null
      pointer comes before any exception of the matcher, and only then is there a verdict. The
      loop goes on after a verdict and after frames that are not the filter's business. */
  lemma OutcomeOf(cfg: Config, ev: ReadEvent)
    requires ev.ReadBytes? && DisposeEvent(cfg, ev) != Ignored
    ensures var f := cfg.parse(ev.bytes);
      if LacksParser(cfg.parsers, f) then DisposeEvent(cfg, ev) == NullParser && !Continues(cfg, ev)
      else if TableThrows(cfg.table) then DisposeEvent(cfg, ev) == Threw && !Continues(cfg, ev)
      else DisposeEvent(cfg, ev) in {Forwarded, Dropped} && Continues(cfg, ev)
  {
    hide LacksParser, TableThrows, IsCondemned;
  }
}
