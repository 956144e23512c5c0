/** The service-specific permissions a cooperative awareness message needs. */
module CamPermissions {
  import opened Base

  datatype Permission =
    | CenDsrcTollingZone
    | PublicTransport
    | SpecialTransport
    | DangerousGoods
    | Roadwork
    | Rescue
    | Emergency
    | SafetyCar
    | ClosedLanes
    | RequestForRightOfWay
    | RequestForFreeCrossingAtTrafficLight
    | NoPassing
    | NoPassingForTrucks
    | SpeedLimit

  const REQUEST_FOR_RIGHT_OF_WAY := 0
  const REQUEST_FOR_FREE_CROSSING := 1
  const NO_PASSING := 0
  const NO_PASSING_FOR_TRUCKS := 1

  /** A C size is a 64-bit word. */
  const SIZE_LIMIT := 0x1_0000_0000_0000_0000

  type Size = n: int | 0 <= n < SIZE_LIMIT witness 0

  /** A bit string: how many bytes, the first of them, and the count of unused bits. */
  datatype BitString = BitString(size: Size, first: bv8, bitsUnused: bv32)

  datatype EmergencyContainer = EmergencyContainer(priority: Option<BitString>)
  datatype SafetyCarContainer = SafetyCarContainer(trafficRule: Option<int>, speedLimit: Option<int>)
  datatype RoadWorksContainer = RoadWorksContainer(closedLanes: bool)

  datatype SpecialVehicle =
    | NothingSpecial
    | PublicTransportVehicle
    | SpecialTransportVehicle
    | DangerousGoodsVehicle
    | RoadWorksVehicle(roadWorks: RoadWorksContainer)
    | RescueVehicle
    | EmergencyVehicle(emergency: EmergencyContainer)
    | SafetyCarVehicle(safety: SafetyCarContainer)

  datatype HighFrequency = NoHighFrequency | BasicVehicle | RoadSideUnit(protectedZones: bool)

  datatype Cam = Cam(highFrequency: HighFrequency, special: Option<SpecialVehicle>)

  // ---------------------------------------------------------------- bit strings

  /** Bit k of the first byte, counted from the most significant. */
  predicate FirstByteHas(b: BitString, k: int)
    requires 0 <= k < 8
  {
    b.first & (1 << (7 - k) as bv8) != 0
  }

  /** The size in bits as the constraint computes it, in 64-bit arithmetic. */
  function SizeInBits(b: BitString): int {
    if b.size > 0 then (8 * b.size - (b.bitsUnused & 0x07) as int) % SIZE_LIMIT else 0
  }

  predicate PriorityConstraint(b: BitString) {
    SizeInBits(b) == 2
  }

  /** The constraint on an emergency priority: among the sizes a machine can hold in
      bits, it accepts one byte with six unused bits and nothing else. */
  lemma {:induction false} ValidPriorityIsOneByte(b: BitString)
    ensures PriorityConstraint(b) <==> b.size % 0x2000_0000_0000_0000 == 1 && b.bitsUnused & 0x07 == 6
    ensures b.size < 0x2000_0000_0000_0000 ==> (PriorityConstraint(b) <==> b.size == 1 && b.bitsUnused & 0x07 == 6)
    ensures PriorityConstraint(b) ==> (b.size == 1 <==> b.size < 0x2000_0000_0000_0000)
  {
    var unused := (b.bitsUnused & 0x07) as int;
    LowBitsAreFew(b.bitsUnused);
    var total := 8 * b.size - unused;
    var q := total / SIZE_LIMIT;
    assert total == q * SIZE_LIMIT + total % SIZE_LIMIT;
    if PriorityConstraint(b) {
      assert 8 * b.size == 8 * (q * (SIZE_LIMIT / 8)) + 2 + unused;
      assert (2 + unused) % 8 == 0;
      assert b.size == q * (SIZE_LIMIT / 8) + 1;
    }
    if b.size % (SIZE_LIMIT / 8) == 1 && b.bitsUnused & 0x07 == 6 {
      var m := b.size / (SIZE_LIMIT / 8);
      assert total == m * SIZE_LIMIT + 2;
    }
  }

  lemma LowBitsAreFew(w: bv32)
    ensures 0 <= (w & 0x07) as int < 8
    ensures (w & 0x07) as int == 6 <==> w & 0x07 == 6
  {
    assert w & 0x07 < 8;
  }

  // ---------------------------------------------------------------- what is required

  /** Whether the message has an element that is restricted to holders of p. */
  predicate Needs(cam: Cam, p: Permission) {
    match p
    case CenDsrcTollingZone => cam.highFrequency.RoadSideUnit? && cam.highFrequency.protectedZones
    case _ => cam.special.Some? && SpecialNeeds(cam.special.value, p)
  }

  predicate SpecialNeeds(s: SpecialVehicle, p: Permission) {
    match p
    case PublicTransport => s.PublicTransportVehicle?
    case SpecialTransport => s.SpecialTransportVehicle?
    case DangerousGoods => s.DangerousGoodsVehicle?
    case Roadwork => s.RoadWorksVehicle?
    case Rescue => s.RescueVehicle?
    case Emergency => s.EmergencyVehicle?
    case SafetyCar => s.SafetyCarVehicle?
    case ClosedLanes => s.RoadWorksVehicle? && s.roadWorks.closedLanes
    case RequestForRightOfWay => Requests(s, REQUEST_FOR_RIGHT_OF_WAY)
    case RequestForFreeCrossingAtTrafficLight => Requests(s, REQUEST_FOR_FREE_CROSSING)
    case NoPassing => s.SafetyCarVehicle? && s.safety.trafficRule == Some(NO_PASSING)
    case NoPassingForTrucks => s.SafetyCarVehicle? && s.safety.trafficRule == Some(NO_PASSING_FOR_TRUCKS)
    case SpeedLimit => s.SafetyCarVehicle? && s.safety.speedLimit.Some?
    case CenDsrcTollingZone => false
  }

  /** A request counts when the priority is one byte long and has the bit set. */
  predicate Requests(s: SpecialVehicle, bit: int)
    requires 0 <= bit < 8
  {
    s.EmergencyVehicle? && s.emergency.priority.Some? && s.emergency.priority.value.size == 1
    && FirstByteHas(s.emergency.priority.value, bit)
  }

  /** Every needed permission is held. */
  ghost predicate Accepted(cam: Cam, held: set<Permission>) {
    forall p: Permission :: Needs(cam, p) ==> p in held
  }

  // ---------------------------------------------------------------- the check

  /** Accepted exactly when every needed permission is held. */
  method CheckServiceSpecificPermissions(cam: Cam, ssp: set<Permission>) returns (ok: bool)
    ensures ok <==> Accepted(cam, ssp)
  {
    var required: set<Permission> := {};
    if cam.highFrequency.RoadSideUnit? {
      if cam.highFrequency.protectedZones {
        required := required + {CenDsrcTollingZone};
      }
    }
    if cam.special.Some? {
      var more := RequiredBySpecial(cam.special.value);
      required := required + more;
    }
    ok := required <= ssp;
    assert forall p :: p in required <==> Needs(cam, p);
  }

  method RequiredBySpecial(special: SpecialVehicle) returns (required: set<Permission>)
    ensures forall p :: p in required <==> SpecialNeeds(special, p)
  {
    required := {};
    var emergency: Option<EmergencyContainer> := None;
    var safety: Option<SafetyCarContainer> := None;
    var roadWorks: Option<RoadWorksContainer> := None;
    match special {
      case PublicTransportVehicle => required := required + {PublicTransport};
      case SpecialTransportVehicle => required := required + {SpecialTransport};
      case DangerousGoodsVehicle => required := required + {DangerousGoods};
      case RoadWorksVehicle(r) =>
        required := required + {Roadwork};
        roadWorks := Some(r);
      case RescueVehicle => required := required + {Rescue};
      case EmergencyVehicle(e) =>
        required := required + {Emergency};
        emergency := Some(e);
      case SafetyCarVehicle(c) =>
        required := required + {SafetyCar};
        safety := Some(c);
      case NothingSpecial =>
    }
    if emergency.Some? && emergency.value.priority.Some? && emergency.value.priority.value.size == 1 {
      var bits := emergency.value.priority.value;
      if FirstByteHas(bits, REQUEST_FOR_RIGHT_OF_WAY) {
        required := required + {RequestForRightOfWay};
      }
      if FirstByteHas(bits, REQUEST_FOR_FREE_CROSSING) {
        required := required + {RequestForFreeCrossingAtTrafficLight};
      }
    }
    if roadWorks.Some? && roadWorks.value.closedLanes {
      required := required + {ClosedLanes};
    }
    if safety.Some? && safety.value.trafficRule.Some? {
      if safety.value.trafficRule.value == NO_PASSING {
        required := required + {NoPassing};
      } else if safety.value.trafficRule.value == NO_PASSING_FOR_TRUCKS {
        required := required + {NoPassingForTrucks};
      }
    }
    if safety.Some? && safety.value.speedLimit.Some? {
      required := required + {SpeedLimit};
    }
  }

  // ---------------------------------------------------------------- one direction only

  predicate ExtendsOption<T(==)>(a: Option<T>, b: Option<T>) {
    a.None? || a == b
  }

  /** b has every element of a, and possibly optional elements a leaves out. */
  predicate Extends(a: Cam, b: Cam) {
    ExtendsHighFrequency(a.highFrequency, b.highFrequency)
    && (a.special.Some? ==> b.special.Some? && ExtendsSpecial(a.special.value, b.special.value))
  }

  predicate ExtendsHighFrequency(a: HighFrequency, b: HighFrequency) {
    match a
    case NoHighFrequency => true
    case BasicVehicle => b == a
    case RoadSideUnit(zones) => b.RoadSideUnit? && (zones ==> b.protectedZones)
  }

  predicate ExtendsSpecial(a: SpecialVehicle, b: SpecialVehicle) {
    match a
    case NothingSpecial => true
    case RoadWorksVehicle(r) => b.RoadWorksVehicle? && (r.closedLanes ==> b.roadWorks.closedLanes)
    case EmergencyVehicle(e) => b.EmergencyVehicle? && ExtendsOption(e.priority, b.emergency.priority)
    case SafetyCarVehicle(s) =>
      b.SafetyCarVehicle?
      && ExtendsOption(s.trafficRule, b.safety.trafficRule) && ExtendsOption(s.speedLimit, b.safety.speedLimit)
    case _ => b == a
  }

  lemma NeedsGrow(a: Cam, b: Cam, p: Permission)
    requires Extends(a, b) && Needs(a, p)
    ensures Needs(b, p)
  {
  }

  /** Adding an element never turns a refusal into an acceptance, and neither does
      taking permissions away. */
  lemma AddingElementsKeepsRefusal(a: Cam, b: Cam, held: set<Permission>, fewer: set<Permission>)
    requires Extends(a, b) && fewer <= held && !Accepted(a, held)
    ensures !Accepted(b, fewer)
  {
    var p :| Needs(a, p) && p !in held;
    NeedsGrow(a, b, p);
  }

  /** For an emergency vehicle whose priority passes its constraint, the length guard
      never hides a request: the check asks for exactly the bits that are set. */
  lemma ValidPriorityIsNeverSkipped(cam: Cam)
    requires cam.special.Some? && cam.special.value.EmergencyVehicle? && cam.special.value.emergency.priority.Some?
    requires PriorityConstraint(cam.special.value.emergency.priority.value)
    requires cam.special.value.emergency.priority.value.size < SIZE_LIMIT / 8
    ensures Needs(cam, RequestForRightOfWay)
      <==> FirstByteHas(cam.special.value.emergency.priority.value, REQUEST_FOR_RIGHT_OF_WAY)
    ensures Needs(cam, RequestForFreeCrossingAtTrafficLight)
      <==> FirstByteHas(cam.special.value.emergency.priority.value, REQUEST_FOR_FREE_CROSSING)
  {
    ValidPriorityIsOneByte(cam.special.value.emergency.priority.value);
  }

  // ---------------------------------------------------------------- in literal terms

  /** The two request bits as numbers: the highest and the second highest of the byte. */
  lemma RequestBits(b: BitString)
    ensures FirstByteHas(b, REQUEST_FOR_RIGHT_OF_WAY) <==> b.first >= 0x80
    ensures FirstByteHas(b, REQUEST_FOR_FREE_CROSSING) <==> b.first & 0x40 != 0
  {
  }

  /** What the priority of an emergency vehicle asks for. */
  function RequestedBy(b: BitString): set<Permission> {
    if b.size != 1 then {}
    else
      (if b.first >= 0x80 then {RequestForRightOfWay} else {})
      + (if b.first & 0x40 != 0 then {RequestForFreeCrossingAtTrafficLight} else {})
  }

  /** What a safety car asks for: traffic rule 0 is "no passing", 1 is "no passing for
      trucks". */
  function RestrictedBy(s: SafetyCarContainer): set<Permission> {
    (if s.trafficRule == Some(0) then {NoPassing} else {})
    + (if s.trafficRule == Some(1) then {NoPassingForTrucks} else {})
    + (if s.speedLimit.Some? then {SpeedLimit} else {})
  }

  /** The set of permissions each kind of container calls for. */
  function CalledFor(s: SpecialVehicle): set<Permission> {
    match s
    case NothingSpecial => {}
    case PublicTransportVehicle => {PublicTransport}
    case SpecialTransportVehicle => {SpecialTransport}
    case DangerousGoodsVehicle => {DangerousGoods}
    case RoadWorksVehicle(r) => {Roadwork} + if r.closedLanes then {ClosedLanes} else {}
    case RescueVehicle => {Rescue}
    case EmergencyVehicle(e) => {Emergency} + if e.priority.Some? then RequestedBy(e.priority.value) else {}
    case SafetyCarVehicle(c) => {SafetyCar} + RestrictedBy(c)
  }

  lemma SpecialNeedsAre(s: SpecialVehicle, p: Permission)
    ensures SpecialNeeds(s, p) <==> p in CalledFor(s)
  {
    if s.EmergencyVehicle? && s.emergency.priority.Some? {
      RequestBits(s.emergency.priority.value);
    }
  }

  /** A message is accepted exactly when the permissions its containers call for are held:
      a road-side unit with protected zones calls for the tolling permission, a special
      vehicle for those of its kind. */
  lemma AcceptedIffCalledForAreHeld(cam: Cam, held: set<Permission>)
    ensures Accepted(cam, held) <==>
      (cam.highFrequency.RoadSideUnit? && cam.highFrequency.protectedZones ==> CenDsrcTollingZone in held)
      && (cam.special.Some? ==> CalledFor(cam.special.value) <= held)
  {
    if cam.special.Some? {
      forall p: Permission
        ensures SpecialNeeds(cam.special.value, p) <==> p in CalledFor(cam.special.value)
      {
        SpecialNeedsAre(cam.special.value, p);
      }
      assert forall p: Permission :: p != CenDsrcTollingZone ==> (Needs(cam, p) <==> p in CalledFor(cam.special.value));
      TollingIsNotCalledFor(cam.special.value);
    }
    assert Needs(cam, CenDsrcTollingZone)
      <==> cam.highFrequency.RoadSideUnit? && cam.highFrequency.protectedZones;
  }

  lemma TollingIsNotCalledFor(s: SpecialVehicle)
    ensures CenDsrcTollingZone !in CalledFor(s)
  {
  }

  /** In particular, an emergency vehicle with a valid priority is accepted exactly when
      "emergency" is held and so is the permission of each request bit that is set. */
  lemma EmergencyIsAcceptedIff(b: BitString, held: set<Permission>)
    requires PriorityConstraint(b) && b.size < SIZE_LIMIT / 8
    ensures Accepted(Cam(BasicVehicle, Some(EmergencyVehicle(EmergencyContainer(Some(b))))), held) <==>
      Emergency in held && (b.first >= 0x80 ==> RequestForRightOfWay in held)
      && (b.first & 0x40 != 0 ==> RequestForFreeCrossingAtTrafficLight in held)
  {
    ValidPriorityIsOneByte(b);
    AcceptedIffCalledForAreHeld(Cam(BasicVehicle, Some(EmergencyVehicle(EmergencyContainer(Some(b))))), held);
  }
}
