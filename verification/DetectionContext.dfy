/** What one packet's stages hand to the detector, and the packet memory the raw
    pointer among it refers to. */
module Detection {
  import opened Base

  // ---------------------------------------------------------------- GeoNetworking data

  datatype NextHeaderBasic = AnyNext | CommonNext | SecuredNext

  datatype UpperProtocol = BtpA | BtpB | Ipv6 | UnknownUpper

  datatype SecurityInfo = NoSecurity | Signed

  datatype Position = Position(latitude: int, longitude: int)

  datatype SignerKind = SignerNone | SignerDigest | SignerCertificate | SignerChain | SignerOther

  /** The fields the decoder assigns. Those of optional type start out empty;
      the others start with whatever the memory held. */
  datatype GeonetData = GeonetData(
    protocolVersion: nat,
    nextHeader: NextHeaderBasic,
    headerType: bv8,
    destination: Option<int>,
    sourcePosition: Position,
    securityInfo: SecurityInfo,
    certificateId: Option<int>,
    payloadType: Option<nat>,
    secureProtocolVersion: Option<nat>,
    signerKind: Option<SignerKind>,
    chainSize: Option<nat>,
    remainingLifetime: nat,
    maximumHopLimit: Byte,
    remainingHopLimit: Byte)

  /** A freshly declared record: its plain fields hold garbage. */
  predicate IsFreshData(d: GeonetData) {
    d.destination.None? && d.certificateId.None? && d.payloadType.None? &&
    d.secureProtocolVersion.None? && d.signerKind.None? && d.chainSize.None?
  }

  datatype BtpData = BtpData(
    btpType: UpperProtocol,
    sourcePort: Option<nat>,
    destinationPort: nat,
    destinationPortInfo: Option<nat>)

  // ---------------------------------------------------------------- parsed headers

  datatype BasicHeader = BasicHeader(version: nat, nextHeader: NextHeaderBasic, lifetime: nat, hopLimit: Byte)

  /** The signer field with the hashes the foreign code computes from it. */
  datatype SignerInfo =
    | Digest(hash: int)
    | Certificate(certificateHash: int)
    | Chain(certificateHashes: seq<int>, strayHash: int)  // the latter of what an empty chain's end refers to
    | OtherSigner

  datatype SecuredMessage = SecuredMessage(payloadType: nat, protocolVersion: nat, signer: Option<SignerInfo>)

  datatype CommonHeader = CommonHeader(upper: UpperProtocol, headerType: bv8, maximumHopLimit: Byte)

  datatype ExtendedHeader =
    | Shb(source: Position)
    | Gbc(gbcSource: Position, area: int)
    | Beacon

  datatype HeaderA = HeaderA(destinationPort: nat, sourcePort: nat)
  datatype HeaderB = HeaderB(portB: nat, portInfo: nat)

  /** What the foreign parser makes of a frame, stage by stage. The common and
      later headers are those of the path taken, plain or secured. */
  datatype ParsedFrame = ParsedFrame(
    basic: Option<BasicHeader>,
    secured: Option<SecuredMessage>,
    common: Option<CommonHeader>,
    extended: Option<ExtendedHeader>,
    btpA: HeaderA,
    btpB: HeaderB)

  // ---------------------------------------------------------------- packet memory

  type PacketId = nat

  /** The heap of packets. A live packet is owned by one smart pointer or, after a
      release, by nobody. The preconditions are the memory-safety obligations:
      whatever calls these methods destroys, releases and adopts each packet at
      most when that is allowed. */
  class PacketHeap {
    var live: set<PacketId>
    var owned: set<PacketId>
    var next: PacketId

    ghost predicate Valid()
      reads this
    {
      owned <= live && forall p :: p in live ==> p < next
    }

    constructor ()
      ensures Valid() && live == {} && owned == {} && next == 0
    {
      live, owned, next := {}, {}, 0;
    }

    method Allocate() returns (p: PacketId)
      requires Valid()
      modifies this
      ensures Valid()
      ensures p !in old(live) && p == old(next) && next == p + 1
      ensures live == old(live) + {p} && owned == old(owned) + {p}
    {
      p := next;
      live, owned, next := live + {p}, owned + {p}, next + 1;
    }

    /** The destructor of an owning pointer. */
    method Destroy(p: PacketId)
      requires Valid() && p in owned
      modifies this
      ensures Valid() && next == old(next)
      ensures live == old(live) - {p} && owned == old(owned) - {p}
    {
      live, owned := live - {p}, owned - {p};
    }

    /** Gives up ownership without destroying the packet. */
    method Release(p: PacketId)
      requires Valid() && p in owned
      modifies this
      ensures Valid() && next == old(next)
      ensures live == old(live) && owned == old(owned) - {p}
    {
      owned := owned - {p};
    }

    /** Wraps a raw pointer in a new owning pointer. */
    method Adopt(p: PacketId)
      requires Valid() && p in live && p !in owned
      modifies this
      ensures Valid() && next == old(next)
      ensures live == old(live) && owned == old(owned) + {p}
    {
      owned := owned + {p};
    }
  }

  // ---------------------------------------------------------------- the context

  /** The record the stages share. Its payload is a raw pointer. */
  class DetectionContext {
    var geonet: GeonetData
    var btp: Option<BtpData>
    var payload: PacketId

    /** Declared without initialisers: the plain fields take over garbage. */
    constructor (garbage: GeonetData, wild: PacketId)
      requires IsFreshData(garbage)
      ensures geonet == garbage && btp == None && payload == wild
    {
      geonet, btp, payload := garbage, None, wild;
    }
  }
}
