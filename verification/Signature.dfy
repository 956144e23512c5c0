/** Detection signatures: what the rule reader builds and the detector matches. */
module Signatures {
  datatype Action = Drop | Alert | NotSupportedAction

  datatype Protocol =
    | GeoNetworking | BTP | Facility | CA | DEN | MAP | SPAT | NotSupportedProtocol

  datatype Shape = Circle

  datatype MetaData = MetaData(msg: string, sid: nat, rev: nat)

  /** The alternatives a stored pattern can hold. */
  datatype Pattern =
    | IntPattern(number: int)
    | TextPattern(text: string)
    | AreaPattern(areaA: int, areaB: int)
    | RangePattern(shape: Shape, distanceA: int, distanceB: int)
    | IdsPattern(ids: seq<nat>)

  datatype Signature = Signature(
    action: Action,
    protocol: Protocol,
    meta: MetaData,
    patterns: map<string, Pattern>)

  const GEONET_KEYWORDS: seq<string> := ["nh", "ht", "mhl", "destination_area", "allowed_so_range"]

  /** The table of signatures by protocol, filled in place by the reader and
      consulted by the packet pipeline. */
  class SignatureStore {
    var table: map<Protocol, seq<Signature>>

    constructor ()
      ensures table == map[]
    {
      table := map[];
    }
  }

  /** The signatures listed under a protocol; none when the key is absent. */
  function Listed(table: map<Protocol, seq<Signature>>, p: Protocol): seq<Signature> {
    if p in table then table[p] else []
  }
}
