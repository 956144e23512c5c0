/** The staged GeoNetworking decoder. Each stage assigns some fields of the shared
    context and hands on to the next, or stops. */
module GeonetDecoding {
  import opened Base
  import opened Detection
  import opened BtpDecoding

  // ---------------------------------------------------------------- what a frame decodes to

  /** The stage at which decoding stops. */
  predicate ReachesCommon(f: ParsedFrame) {
    f.basic.Some? &&
    match f.basic.value.nextHeader
    case CommonNext => true
    case SecuredNext => f.secured.Some?
    case AnyNext => false
  }

  predicate ReachesExtended(f: ParsedFrame) {
    ReachesCommon(f) && f.common.Some?
  }

  predicate PassesUp(f: ParsedFrame) {
    ReachesExtended(f) && f.extended.Some?
  }

  /** A frame whose extended header carries a source position. */
  predicate HasSource(f: ParsedFrame) {
    PassesUp(f) && (f.extended.value.Shb? || f.extended.value.Gbc?)
  }

  function SourceOf(f: ParsedFrame): Position
    requires HasSource(f)
  {
    match f.extended.value
    case Shb(source) => source
    case Gbc(source, _) => source
    case Beacon => Position(0, 0)
  }

  function KindOf(signer: SignerInfo): SignerKind {
    match signer
    case Digest(_) => SignerDigest
    case Certificate(_) => SignerCertificate
    case Chain(_, _) => SignerChain
    case OtherSigner => SignerOther
  }

  /** The certificate a signer names: its digest, its own hash, or that of the
      last certificate of the chain, which for an empty chain is a stray one. */
  function CertificateOf(signer: SignerInfo): Option<int> {
    match signer
    case Digest(hash) => Some(hash)
    case Certificate(hash) => Some(hash)
    case Chain(hashes, stray) => Some(if hashes == [] then stray else hashes[|hashes| - 1])
    case OtherSigner => None
  }

  function AfterBasic(d: GeonetData, basic: BasicHeader): GeonetData {
    d.(protocolVersion := basic.version,
       remainingLifetime := basic.lifetime,
       remainingHopLimit := basic.hopLimit,
       nextHeader := basic.nextHeader,
       securityInfo := match basic.nextHeader
         case SecuredNext => Signed
         case CommonNext => NoSecurity
         case AnyNext => d.securityInfo)
  }

  function AfterSecured(d: GeonetData, m: SecuredMessage): GeonetData {
    var e := d.(payloadType := Some(m.payloadType), secureProtocolVersion := Some(m.protocolVersion));
    match m.signer
    case None => e
    case Some(signer) => e.(
      signerKind := Some(KindOf(signer)),
      chainSize := if signer.Chain? then Some(|signer.certificateHashes|) else e.chainSize,
      certificateId := if CertificateOf(signer).Some? then CertificateOf(signer) else e.certificateId)
  }

  function AfterCommon(d: GeonetData, common: CommonHeader): GeonetData {
    d.(headerType := common.headerType, maximumHopLimit := common.maximumHopLimit)
  }

  function AfterExtended(d: GeonetData, extended: ExtendedHeader): GeonetData {
    match extended
    case Shb(source) => d.(sourcePosition := source)
    case Gbc(source, area) => d.(sourcePosition := source, destination := Some(area))
    case Beacon => d
  }

  /** The data after the common stage has been entered. */
  function BeforeCommon(d: GeonetData, f: ParsedFrame): GeonetData {
    match f.basic
    case None => d
    case Some(basic) =>
      var e := AfterBasic(d, basic);
      if basic.nextHeader == SecuredNext && f.secured.Some? then AfterSecured(e, f.secured.value) else e
  }

  /** The whole effect of decoding on the data. */
  function Decoded(d: GeonetData, f: ParsedFrame): GeonetData {
    var e := BeforeCommon(d, f);
    var c := if ReachesExtended(f) then AfterCommon(e, f.common.value) else e;
    if PassesUp(f) then AfterExtended(c, f.extended.value) else c
  }

  /** The BTP ports a frame yields. */
  function DecodedPorts(f: ParsedFrame): Option<BtpData> {
    if PassesUp(f) then Ports(f.common.value.upper, f) else None
  }

  /** Frames whose packet nobody destroys: passed up, and not BTP. */
  predicate Leaks(f: ParsedFrame) {
    PassesUp(f) && DecodedPorts(f).None?
  }

  // ---------------------------------------------------------------- the decoder

  /** Parsing state of one frame: owns the packet until it is finished. */
  class IndicationContext {
    const frame: ParsedFrame
    var packet: Option<PacketId>
    var upper: UpperProtocol

    constructor (frame: ParsedFrame, packet: PacketId)
      ensures this.frame == frame && this.packet == Some(packet)
    {
      this.frame, this.packet, this.upper := frame, Some(packet), UnknownUpper;
    }

    method Finish() returns (p: PacketId)
      requires packet.Some?
      modifies this`packet
      ensures p == old(packet).value && packet == None
    {
      p := packet.value;
      packet := None;
    }
  }

  class GeonetDecoder {
    const context: DetectionContext
    const heap: PacketHeap

    constructor (context: DetectionContext, heap: PacketHeap)
      ensures this.context == context && this.heap == heap
    {
      this.context, this.heap := context, heap;
    }

    /** Decodes an owned packet. Afterwards it is either destroyed, or alive and
        nobody's with the context pointing to it: the latter exactly if the frame
        was passed up. */
    method Decode(f: ParsedFrame, packet: PacketId)
      requires heap.Valid() && packet in heap.owned
      requires IsFreshData(context.geonet) && context.btp.None?
      modifies context, heap
      ensures heap.Valid() && heap.next == old(heap.next)
      ensures heap.owned == old(heap.owned) - {packet}
      ensures heap.live == if PassesUp(f) then old(heap.live) else old(heap.live) - {packet}
      ensures context.geonet == Decoded(old(context.geonet), f)
      ensures context.btp == DecodedPorts(f)
      ensures context.payload == if ReachesExtended(f) then packet else old(context.payload)
    {
      var ctx := new IndicationContext(f, packet);
      DecodeBasic(ctx);
      // the parsing state goes out of scope with the packet, if it still has it
      if ctx.packet.Some? {
        heap.Destroy(ctx.packet.value);
      }
    }

    method DecodeBasic(ctx: IndicationContext)
      requires heap.Valid() && ctx.packet.Some? && ctx.packet.value in heap.owned
      requires context.btp.None?
      modifies ctx, context, heap
      ensures heap.Valid() && heap.next == old(heap.next)
      ensures Handled(ctx.frame, old(ctx.packet.value), ctx.packet,
        old(heap.live), old(heap.owned), heap.live, heap.owned)
      ensures context.geonet == Decoded(old(context.geonet), ctx.frame)
      ensures context.btp == DecodedPorts(ctx.frame)
      ensures context.payload == if ReachesExtended(ctx.frame) then old(ctx.packet.value) else old(context.payload)
    {
      var parsed := ctx.frame.basic;
      if parsed.Some? {
        var basic := parsed.value;
        context.geonet := context.geonet.(protocolVersion := basic.version);
        context.geonet := context.geonet.(remainingLifetime := basic.lifetime);
        context.geonet := context.geonet.(remainingHopLimit := basic.hopLimit);
        context.geonet := context.geonet.(nextHeader := basic.nextHeader);
        if basic.nextHeader == SecuredNext {
          context.geonet := context.geonet.(securityInfo := Signed);
          DecodeSecured(ctx);
        } else if basic.nextHeader == CommonNext {
          context.geonet := context.geonet.(securityInfo := NoSecurity);
          DecodeCommon(ctx);
        }
      }
    }

    /** What becomes of a packet: kept by the parsing state if the extended stage
        is not reached, destroyed if it is but fails, released otherwise. */
    static predicate Handled(f: ParsedFrame, p: PacketId, kept: Option<PacketId>,
        live: set<PacketId>, owned: set<PacketId>, live': set<PacketId>, owned': set<PacketId>)
    {
      if !ReachesExtended(f) then kept == Some(p) && live' == live && owned' == owned
      else kept == None && owned' == owned - {p} && live' == if PassesUp(f) then live else live - {p}
    }

    method DecodeSecured(ctx: IndicationContext)
      requires heap.Valid() && ctx.packet.Some? && ctx.packet.value in heap.owned
      requires ctx.frame.basic.Some? && ctx.frame.basic.value.nextHeader == SecuredNext
      requires context.btp.None?
      modifies ctx, context, heap
      ensures heap.Valid() && heap.next == old(heap.next)
      ensures Handled(ctx.frame, old(ctx.packet.value), ctx.packet,
        old(heap.live), old(heap.owned), heap.live, heap.owned)
      ensures context.geonet ==
        if ctx.frame.secured.None? then old(context.geonet)
        else AfterLower(AfterSecured(old(context.geonet), ctx.frame.secured.value), ctx.frame)
      ensures context.btp == DecodedPorts(ctx.frame)
      ensures context.payload == if ReachesExtended(ctx.frame) then old(ctx.packet.value) else old(context.payload)
    {
      var message := ctx.frame.secured;
      if message.Some? {
        InspectSignerInfo(message.value);
        DecodeCommon(ctx);
      }
    }

    /** The common and extended stages together. */
    static function AfterLower(d: GeonetData, f: ParsedFrame): GeonetData {
      if f.common.None? then d
      else if f.extended.None? then AfterCommon(d, f.common.value)
      else AfterExtended(AfterCommon(d, f.common.value), f.extended.value)
    }

    method InspectSignerInfo(m: SecuredMessage)
      modifies context`geonet
      ensures context.geonet == AfterSecured(old(context.geonet), m)
    {
      context.geonet := context.geonet.(payloadType := Some(m.payloadType));
      context.geonet := context.geonet.(secureProtocolVersion := Some(m.protocolVersion));
      if m.signer.Some? {
        context.geonet := context.geonet.(signerKind := Some(KindOf(m.signer.value)));
        match m.signer.value {
          case Certificate(hash) =>
            context.geonet := context.geonet.(certificateId := Some(hash));
          case Digest(hash) =>
            context.geonet := context.geonet.(certificateId := Some(hash));
          case Chain(hashes, stray) =>
            context.geonet := context.geonet.(chainSize := Some(|hashes|));
            // the last element is taken without asking whether there is one
            var last := if hashes == [] then stray else hashes[|hashes| - 1];
            context.geonet := context.geonet.(certificateId := Some(last));
          case OtherSigner =>
        }
      }
    }

    method DecodeCommon(ctx: IndicationContext)
      requires heap.Valid() && ctx.packet.Some? && ctx.packet.value in heap.owned
      requires ReachesCommon(ctx.frame) && context.btp.None?
      modifies ctx, context, heap
      ensures heap.Valid() && heap.next == old(heap.next)
      ensures Handled(ctx.frame, old(ctx.packet.value), ctx.packet,
        old(heap.live), old(heap.owned), heap.live, heap.owned)
      ensures context.geonet == AfterLower(old(context.geonet), ctx.frame)
      ensures context.btp == DecodedPorts(ctx.frame)
      ensures context.payload == if ReachesExtended(ctx.frame) then old(ctx.packet.value) else old(context.payload)
    {
      var parsed := ctx.frame.common;
      if parsed.Some? {
        var common := parsed.value;
        context.geonet := context.geonet.(headerType := common.headerType);
        context.geonet := context.geonet.(maximumHopLimit := common.maximumHopLimit);
        ctx.upper := common.upper;
        DecodeExtended(ctx);
      }
    }

    method DecodeExtended(ctx: IndicationContext)
      requires heap.Valid() && ctx.packet.Some? && ctx.packet.value in heap.owned
      requires ReachesExtended(ctx.frame) && ctx.upper == ctx.frame.common.value.upper && context.btp.None?
      modifies ctx, context, heap
      ensures heap.Valid() && heap.next == old(heap.next)
      ensures Handled(ctx.frame, old(ctx.packet.value), ctx.packet,
        old(heap.live), old(heap.owned), heap.live, heap.owned)
      ensures context.geonet ==
        if PassesUp(ctx.frame) then AfterExtended(old(context.geonet), ctx.frame.extended.value)
        else old(context.geonet)
      ensures context.btp == DecodedPorts(ctx.frame)
      ensures context.payload == old(ctx.packet.value)
    {
      var extended := ctx.frame.extended;
      var packet := ctx.Finish();
      context.payload := packet;
      if extended.None? {
        // the owning pointer goes out of scope and leaves the payload dangling
        heap.Destroy(packet);
      } else {
        match extended.value {
          case Shb(source) =>
            context.geonet := context.geonet.(sourcePosition := source);
          case Gbc(source, area) =>
            context.geonet := context.geonet.(sourcePosition := source);
            context.geonet := context.geonet.(destination := Some(area));
          case Beacon =>
        }
        PassUp(ctx.upper, ctx.frame, packet);
      }
    }

    method PassUp(upper: UpperProtocol, f: ParsedFrame, packet: PacketId)
      requires heap.Valid() && packet in heap.owned
      modifies context`btp, heap
      ensures heap.Valid() && heap.next == old(heap.next)
      ensures heap.live == old(heap.live) && heap.owned == old(heap.owned) - {packet}
      ensures context.btp == if Ports(upper, f).Some? then Ports(upper, f) else old(context.btp)
    {
      var btpDecoder := new BtpDecoder(context, heap);
      btpDecoder.Decode(upper, f, packet);
    }
  }

  // ---------------------------------------------------------------- what decoding guarantees

  /** Two frames' worth of garbage agree on everything the detector reads once the
      extended header carries a source position: each such field comes from the
      header that carries it and from nowhere else. */
  lemma AssignsBeforeUse(f: ParsedFrame, g: GeonetData, h: GeonetData)
    requires HasSource(f) && IsFreshData(g) && IsFreshData(h)
    ensures Decoded(g, f) == Decoded(h, f)
    ensures var d := Decoded(g, f);
      && d.nextHeader == f.basic.value.nextHeader
      && d.headerType == f.common.value.headerType
      && d.maximumHopLimit == f.common.value.maximumHopLimit
      && d.sourcePosition == SourceOf(f)
    ensures Decoded(g, f).securityInfo == Signed <==> f.basic.value.nextHeader == SecuredNext
    ensures f.basic.value.nextHeader == CommonNext ==>
      Decoded(g, f).payloadType.None? && Decoded(g, f).signerKind.None? && Decoded(g, f).certificateId.None?
  {}

  /** For every frame, exactly which of the fields the detector reads are free of
      garbage: each is settled by the stage that parses it and by no other. */
  lemma AssignedExactlyBy(f: ParsedFrame)
    ensures f.basic.Some? <==>
      forall g, h :: IsFreshData(g) && IsFreshData(h) ==> Decoded(g, f).nextHeader == Decoded(h, f).nextHeader
    ensures ReachesExtended(f) <==>
      forall g, h :: IsFreshData(g) && IsFreshData(h) ==> Decoded(g, f).headerType == Decoded(h, f).headerType
    ensures ReachesExtended(f) <==>
      forall g, h :: IsFreshData(g) && IsFreshData(h) ==>
        Decoded(g, f).maximumHopLimit == Decoded(h, f).maximumHopLimit
    ensures HasSource(f) <==>
      forall g, h :: IsFreshData(g) && IsFreshData(h) ==>
        Decoded(g, f).sourcePosition == Decoded(h, f).sourcePosition
  {
    var g := BlankData(AnyNext, 0, 0, Position(0, 0));
    var h := BlankData(CommonNext, 1, 1, Position(1, 0));
    assert f.basic.None? ==> Decoded(g, f).nextHeader != Decoded(h, f).nextHeader;
    assert !ReachesExtended(f) ==> Decoded(g, f).headerType != Decoded(h, f).headerType;
    assert !ReachesExtended(f) ==> Decoded(g, f).maximumHopLimit != Decoded(h, f).maximumHopLimit;
    assert !HasSource(f) ==> Decoded(g, f).sourcePosition != Decoded(h, f).sourcePosition;
  }

  function BlankData(n: NextHeaderBasic, headerType: bv8, mhl: Byte, p: Position): GeonetData {
    GeonetData(0, n, headerType, None, p, NoSecurity, None, None, None, None, None, 0, mhl, 0)
  }

  /** What every field of the data says after decoding, in terms of the headers: each stage
      that is reached stores its own, and a field no header states is left as it was. */
  lemma FieldsAreStated(f: ParsedFrame, g: GeonetData)
    requires IsFreshData(g)
    ensures f.basic.Some? ==> var d, basic := Decoded(g, f), f.basic.value;
      d.protocolVersion == basic.version && d.nextHeader == basic.nextHeader
      && d.remainingLifetime == basic.lifetime && d.remainingHopLimit == basic.hopLimit
    ensures ReachesExtended(f) ==> var d, common := Decoded(g, f), f.common.value;
      d.headerType == common.headerType && d.maximumHopLimit == common.maximumHopLimit
    ensures PassesUp(f) ==> var d, extended := Decoded(g, f), f.extended.value;
      match extended
      case Shb(source) => d.sourcePosition == source && d.destination == None
      case Gbc(source, area) => d.sourcePosition == source && d.destination == Some(area)
      case Beacon => d.sourcePosition == g.sourcePosition && d.destination == None
    ensures f.basic.None? ==> Decoded(g, f) == g
  {
  }

  /** The certificate data: only on the secured path, and then from the signer, whose chain
      counts by its last certificate. */
  lemma SignerIsStated(f: ParsedFrame, g: GeonetData)
    requires IsFreshData(g)
    ensures var d := Decoded(g, f);
      if f.basic.Some? && f.basic.value.nextHeader == SecuredNext && f.secured.Some? then
        d.payloadType == Some(f.secured.value.payloadType)
        && d.secureProtocolVersion == Some(f.secured.value.protocolVersion)
        && match f.secured.value.signer
           case None => d.signerKind == None && d.chainSize == None && d.certificateId == None
           case Some(Digest(hash)) =>
             d.signerKind == Some(SignerDigest) && d.chainSize == None && d.certificateId == Some(hash)
           case Some(Certificate(hash)) =>
             d.signerKind == Some(SignerCertificate) && d.chainSize == None && d.certificateId == Some(hash)
           case Some(Chain(hashes, stray)) =>
             d.signerKind == Some(SignerChain) && d.chainSize == Some(|hashes|)
             && d.certificateId == Some(if |hashes| > 0 then hashes[|hashes| - 1] else stray)
           case Some(OtherSigner) =>
             d.signerKind == Some(SignerOther) && d.chainSize == None && d.certificateId == None
      else
        d.payloadType == None && d.secureProtocolVersion == None
        && d.signerKind == None && d.chainSize == None && d.certificateId == None
  {
  }
}
