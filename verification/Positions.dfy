/** Positions and altitudes in CAM units: what is written, what is read back. Lengths
    and angles are exact reals. */
module PositionCoding {
  import opened Base
  import HeadingComparison

  const ONE_MICRODEGREE := 10
  const LATITUDE_UNAVAILABLE := 900000001
  const LONGITUDE_UNAVAILABLE := 1800000001
  const SEMI_AXIS_UNAVAILABLE := 4095
  const ALTITUDE_UNAVAILABLE := 800001
  const CONFIDENCE_OUT_OF_RANGE := 14
  const CONFIDENCE_UNAVAILABLE := 15
  const MICRODEGREES := 1000000.0

  /** A floating-point length. */
  datatype Length = NotANumber | MinusInfinity | Finite(metres: real) | PlusInfinity

  datatype Altitude = Altitude(value: Length, confidence: Length)

  /** A position fix, angles in degrees. */
  datatype PositionFix = PositionFix(latitude: real, longitude: real, altitude: Option<Altitude>)

  datatype GeodeticPosition = GeodeticPosition(latitude: real, longitude: real)

  /** The foreign distance on the ellipsoid. */
  type Geodesy = (GeodeticPosition, GeodeticPosition) -> Length

  predicate LatitudeConstraint(v: int) {
    -900000000 <= v <= 900000001
  }

  predicate LongitudeConstraint(v: int) {
    -1800000000 <= v <= 1800000001
  }

  predicate AltitudeConstraint(v: int) {
    -100000 <= v <= 800001
  }

  // ---------------------------------------------------------------- angles

  /** The nearest integer, halves away from zero. */
  function Round(x: real): int {
    if x >= 0.0 then (x + 0.5).Floor else -((0.5 - x).Floor)
  }

  /** Integer division of the C language by a positive divisor. */
  function Quotient(v: int, d: int): int
    requires d > 0
  {
    if v >= 0 then v / d else -(-v / d)
  }

  function Encode(degrees: real): int {
    Round(degrees * MICRODEGREES) * ONE_MICRODEGREE
  }

  function ReadBack(v: int): real {
    Quotient(v, ONE_MICRODEGREE) as real / MICRODEGREES
  }

  function Gap(x: real, y: real): real {
    if x < y then y - x else x - y
  }

  lemma RoundIsNearest(x: real, n: int)
    ensures Gap(Round(x) as real, x) <= 0.5
    ensures Gap(Round(x) as real, x) <= Gap(n as real, x)
  {
    var m := n - Round(x);
    assert n as real == Round(x) as real + m as real;
  }

  lemma RoundOfInteger(n: int)
    ensures Round(n as real) == n
  {
  }

  lemma RoundIsMonotone(x: real, y: real)
    requires x <= y
    ensures Round(x) <= Round(y)
  {
  }

  lemma QuotientOfMultiple(n: int)
    ensures Quotient(n * ONE_MICRODEGREE, ONE_MICRODEGREE) == n
  {
  }

  /** What is read back from a written angle is within half a microdegree of it. */
  lemma ReadBackIsNear(degrees: real)
    ensures -0.0000005 <= ReadBack(Encode(degrees)) - degrees <= 0.0000005
  {
    QuotientOfMultiple(Round(degrees * MICRODEGREES));
    RoundIsNearest(degrees * MICRODEGREES, 0);
  }

  /** No whole number of microdegrees is nearer than the one written. */
  lemma EncodeIsNearest(degrees: real, n: int)
    ensures Encode(degrees) % ONE_MICRODEGREE == 0
    ensures Gap(Encode(degrees) as real / 10.0, degrees * MICRODEGREES) <= Gap(n as real, degrees * MICRODEGREES)
  {
    RoundIsNearest(degrees * MICRODEGREES, n);
  }

  /** Reading and writing again changes nothing exactly for multiples of ten. */
  lemma RewriteIsIdentityIff(v: int)
    ensures Encode(ReadBack(v)) == v <==> v % ONE_MICRODEGREE == 0
  {
    var q := Quotient(v, ONE_MICRODEGREE);
    assert ReadBack(v) * MICRODEGREES == q as real;
    RoundOfInteger(q);
  }

  /** So one round of writing settles the value. */
  lemma WritingTwiceIsWritingOnce(degrees: real)
    ensures Encode(ReadBack(Encode(degrees))) == Encode(degrees)
  {
    EncodeIsNearest(degrees, 0);
    RewriteIsIdentityIff(Encode(degrees));
  }

  lemma EncodeIsMonotone(x: real, y: real)
    requires x <= y
    ensures Encode(x) <= Encode(y)
  {
    RoundIsMonotone(x * MICRODEGREES, y * MICRODEGREES);
  }

  /** No written angle is one of the codes for an unknown one. */
  lemma WrittenIsNeverUnavailable(degrees: real)
    ensures Encode(degrees) != LATITUDE_UNAVAILABLE && Encode(degrees) != LONGITUDE_UNAVAILABLE
  {
    EncodeIsNearest(degrees, 0);
  }

  /** The constraint accepts a written latitude exactly within half a microdegree of
      the poles, and likewise a longitude around the date line. */
  lemma WrittenIsAcceptedIff(degrees: real)
    ensures LatitudeConstraint(Encode(degrees)) <==> -90000000.5 < degrees * MICRODEGREES < 90000000.5
    ensures LongitudeConstraint(Encode(degrees)) <==> -180000000.5 < degrees * MICRODEGREES < 180000000.5
  {
  }

  // ---------------------------------------------------------------- altitude

  /** Truncation of the C language. */
  function Truncate(x: real): int {
    if x >= 0.0 then x.Floor else -((-x).Floor)
  }

  /** The order of lengths that are numbers. */
  predicate AtMost(a: Length, b: Length) {
    match (a, b)
    case (NotANumber, _) => false
    case (_, NotANumber) => false
    case (MinusInfinity, _) => true
    case (_, PlusInfinity) => true
    case (Finite(x), Finite(y)) => x <= y
    case _ => false
  }

  /** The length brought between two bounds. */
  function Clamp(x: Length, low: real, high: real): real
    requires !x.NotANumber? && low <= high
  {
    if AtMost(x, Finite(low)) then low
    else if AtMost(Finite(high), x) then high
    else x.metres
  }

  function ToAltitudeValue(x: Length): int {
    if x.NotANumber? then ALTITUDE_UNAVAILABLE
    else Truncate(100.0 * Clamp(x, -1000.0, 8000.0))
  }

  /** The code is the clamped altitude in whole centimetres, cut towards zero: at most
      one centimetre away, never farther from the ellipsoid, and on the same side. */
  lemma AltitudeIsCutToCentimetres(x: Length)
    requires !x.NotANumber?
    ensures var exact, written := 100.0 * Clamp(x, -1000.0, 8000.0), ToAltitudeValue(x) as real;
            (0.0 <= written <= exact < written + 1.0) || (0.0 >= written >= exact > written - 1.0)
  {
  }

  /** A whole number of centimetres within the bounds is written as it is. */
  lemma WholeCentimetresAreKept(n: int)
    ensures ToAltitudeValue(Finite(n as real / 100.0)) == n <==> -100000 <= n <= 800000
  {
    var x := n as real / 100.0;
    assert 100.0 * x == n as real;
    assert (n as real).Floor == n && (-(n as real)).Floor == -n;
  }

  lemma AltitudeIsMonotone(x: Length, y: Length)
    requires AtMost(x, y)
    ensures ToAltitudeValue(x) <= ToAltitudeValue(y)
  {
    assert Clamp(x, -1000.0, 8000.0) <= Clamp(y, -1000.0, 8000.0);
  }

  /** Every code passes the constraint, and the code for unknown is kept for NaN. */
  lemma AltitudeIsAccepted(x: Length)
    ensures AltitudeConstraint(ToAltitudeValue(x))
    ensures ToAltitudeValue(x) == ALTITUDE_UNAVAILABLE <==> x == NotANumber
  {
  }

  function ToAltitudeConfidence(x: Length): int {
    if x.NotANumber? || x.MinusInfinity? || (x.Finite? && x.metres < 0.0) then CONFIDENCE_UNAVAILABLE
    else if x.PlusInfinity? then CONFIDENCE_OUT_OF_RANGE
    else if x.metres <= 0.01 then 0
    else if x.metres <= 0.02 then 1
    else if x.metres <= 0.05 then 2
    else if x.metres <= 0.1 then 3
    else if x.metres <= 0.2 then 4
    else if x.metres <= 0.5 then 5
    else if x.metres <= 1.0 then 6
    else if x.metres <= 2.0 then 7
    else if x.metres <= 5.0 then 8
    else if x.metres <= 10.0 then 9
    else if x.metres <= 20.0 then 10
    else if x.metres <= 50.0 then 11
    else if x.metres <= 100.0 then 12
    else if x.metres <= 200.0 then 13
    else CONFIDENCE_OUT_OF_RANGE
  }

  /** The bound in metres that each confidence code stands for: 1, 2 and 5 times a
      power of ten, from one centimetre up. */
  function BoundOf(code: nat): real {
    if code == 0 then 0.01
    else if code == 1 then 0.02
    else if code == 2 then 0.05
    else 10.0 * BoundOf(code - 3)
  }

  lemma {:induction false} BoundsInMetres()
    ensures BoundOf(3) == 0.1 && BoundOf(4) == 0.2 && BoundOf(5) == 0.5
    ensures BoundOf(6) == 1.0 && BoundOf(7) == 2.0 && BoundOf(8) == 5.0
    ensures BoundOf(9) == 10.0 && BoundOf(10) == 20.0 && BoundOf(11) == 50.0
    ensures BoundOf(12) == 100.0 && BoundOf(13) == 200.0
  {
    assert BoundOf(3) == 10.0 * BoundOf(0);
    assert BoundOf(4) == 10.0 * BoundOf(1);
    assert BoundOf(5) == 10.0 * BoundOf(2);
    assert BoundOf(6) == 10.0 * BoundOf(3);
    assert BoundOf(7) == 10.0 * BoundOf(4);
    assert BoundOf(8) == 10.0 * BoundOf(5);
    assert BoundOf(9) == 10.0 * BoundOf(6);
    assert BoundOf(10) == 10.0 * BoundOf(7);
  }

  /** For a confidence that is not negative, a code says exactly which bounds hold, up
      to 200 metres; beyond that the code is "out of range". */
  lemma {:induction false} ConfidenceIsLeastBound(x: Length, k: nat)
    requires AtMost(Finite(0.0), x) && k <= 13
    ensures ToAltitudeConfidence(x) <= k <==> AtMost(x, Finite(BoundOf(k)))
    ensures ToAltitudeConfidence(x) <= CONFIDENCE_OUT_OF_RANGE
  {
    BoundsInMetres();
  }

  lemma ConfidenceUnavailableIff(x: Length)
    ensures ToAltitudeConfidence(x) == CONFIDENCE_UNAVAILABLE <==> !AtMost(Finite(0.0), x)
    ensures 0 <= ToAltitudeConfidence(x) <= CONFIDENCE_UNAVAILABLE
  {
  }

  // ---------------------------------------------------------------- positions

  /** The value of a reference position. */
  datatype Reference = Reference(latitude: int, longitude: int, orientation: int,
                                 semiMajor: int, semiMinor: int, altitude: int, confidence: int)

  /** What copying a fix writes. */
  function Written(fix: PositionFix): Reference {
    Reference(
      Encode(fix.latitude), Encode(fix.longitude),
      HeadingComparison.HEADING_UNAVAILABLE, SEMI_AXIS_UNAVAILABLE, SEMI_AXIS_UNAVAILABLE,
      if fix.altitude.Some? then ToAltitudeValue(fix.altitude.value.value) else ALTITUDE_UNAVAILABLE,
      if fix.altitude.Some? then ToAltitudeConfidence(fix.altitude.value.confidence) else CONFIDENCE_UNAVAILABLE)
  }

  class ReferencePosition {
    var latitude: int
    var longitude: int
    var semiMajorOrientation: int
    var semiMajorConfidence: int
    var semiMinorConfidence: int
    var altitudeValue: int
    var altitudeConfidence: int

    constructor (r: Reference)
      ensures Value() == r
    {
      latitude, longitude := r.latitude, r.longitude;
      semiMajorOrientation, semiMajorConfidence, semiMinorConfidence := r.orientation, r.semiMajor, r.semiMinor;
      altitudeValue, altitudeConfidence := r.altitude, r.confidence;
    }

    function Value(): Reference
      reads this
    {
      Reference(latitude, longitude, semiMajorOrientation, semiMajorConfidence, semiMinorConfidence,
                altitudeValue, altitudeConfidence)
    }

    predicate IsAvailable()
      reads this
    {
      latitude != LATITUDE_UNAVAILABLE && longitude != LONGITUDE_UNAVAILABLE
    }

    function Position(): GeodeticPosition
      reads this
    {
      GeodeticPosition(ReadBack(latitude), ReadBack(longitude))
    }

    /** Overwrites every field, whatever was there. */
    method Copy(fix: PositionFix)
      modifies this
      ensures Value() == Written(fix)
      ensures IsAvailable() && IsNear(Position(), fix)
    {
      longitude := Encode(fix.longitude);
      latitude := Encode(fix.latitude);
      semiMajorOrientation := HeadingComparison.HEADING_UNAVAILABLE;
      semiMajorConfidence := SEMI_AXIS_UNAVAILABLE;
      semiMinorConfidence := SEMI_AXIS_UNAVAILABLE;
      if fix.altitude.Some? {
        altitudeValue := ToAltitudeValue(fix.altitude.value.value);
        altitudeConfidence := ToAltitudeConfidence(fix.altitude.value.confidence);
      } else {
        altitudeValue := ALTITUDE_UNAVAILABLE;
        altitudeConfidence := CONFIDENCE_UNAVAILABLE;
      }
      WrittenIsNeverUnavailable(fix.latitude);
      WrittenIsNeverUnavailable(fix.longitude);
      ReadBackIsNear(fix.latitude);
      ReadBackIsNear(fix.longitude);
    }
  }

  /** Within half a microdegree in both coordinates. */
  predicate IsNear(g: GeodeticPosition, fix: PositionFix) {
    -0.0000005 <= g.latitude - fix.latitude <= 0.0000005 && -0.0000005 <= g.longitude - fix.longitude <= 0.0000005
  }

  /** NaN when either position is unknown. */
  method Distance(a: ReferencePosition, b: ReferencePosition, geodesy: Geodesy) returns (length: Length)
    ensures a.IsAvailable() && b.IsAvailable() ==> length == geodesy(a.Position(), b.Position())
    ensures !(a.IsAvailable() && b.IsAvailable()) ==> length == NotANumber
  {
    length := NotANumber;
    if a.IsAvailable() && b.IsAvailable() {
      length := geodesy(a.Position(), b.Position());
    }
  }

  method DistanceTo(a: ReferencePosition, latitude: real, longitude: real, geodesy: Geodesy) returns (length: Length)
    ensures a.IsAvailable() ==> length == geodesy(a.Position(), GeodeticPosition(latitude, longitude))
    ensures !a.IsAvailable() ==> length == NotANumber
  {
    length := NotANumber;
    if a.IsAvailable() {
      length := geodesy(a.Position(), GeodeticPosition(latitude, longitude));
    }
  }

  /** Copying two fixes and measuring never loses the distance: it is the one between
      two points within half a microdegree of the fixes. */
  method DistanceOfCopies(f: PositionFix, g: PositionFix, a: ReferencePosition, b: ReferencePosition, geodesy: Geodesy)
    returns (length: Length)
    requires a != b
    modifies a, b
    ensures exists p, q :: IsNear(p, f) && IsNear(q, g) && length == geodesy(p, q)
  {
    a.Copy(f);
    b.Copy(g);
    length := Distance(a, b, geodesy);
    assert IsNear(a.Position(), f) && IsNear(b.Position(), g);
  }

  // ---------------------------------------------------------------- in literal terms

  /** What copying writes, field by field: the nearest multiples of ten of a tenth of a
      microdegree for the angles, the codes for unknown for the ellipse, and for the altitude
      its value and its confidence, or the codes for unknown without one. */
  lemma WrittenFields(fix: PositionFix)
    ensures Written(fix).latitude == 10 * Round(fix.latitude * 1000000.0)
    ensures Written(fix).longitude == 10 * Round(fix.longitude * 1000000.0)
    ensures Written(fix).orientation == 3601 && Written(fix).semiMajor == 4095 && Written(fix).semiMinor == 4095
    ensures fix.altitude.None? ==> Written(fix).altitude == 800001 && Written(fix).confidence == 15
    ensures fix.altitude.Some? ==> Written(fix).altitude == ToAltitudeValue(fix.altitude.value.value)
    ensures fix.altitude.Some? ==> Written(fix).confidence == ToAltitudeConfidence(fix.altitude.value.confidence)
  {
  }

  /** The codes for unknown positions and the scale of the read-back angle. */
  lemma AvailableIff(p: ReferencePosition)
    ensures p.IsAvailable() <==> p.latitude != 900000001 && p.longitude != 1800000001
    ensures p.latitude % 10 == 0 ==> p.Position().latitude == (p.latitude / 10) as real / 1000000.0
    ensures p.longitude % 10 == 0 ==> p.Position().longitude == (p.longitude / 10) as real / 1000000.0
  {
  }

  /** Halves are rounded away from zero, on both sides of it. */
  lemma HalvesGoAway(n: int)
    requires n >= 0
    ensures Round(n as real + 0.5) == n + 1 && Round(-(n as real) - 0.5) == -n - 1
  {
    assert (n as real + 1.0).Floor == n + 1;
  }

  /** Reading back cuts towards zero, on both sides of it. */
  lemma ReadBackCuts(v: int)
    requires v >= 0
    ensures 0.0 <= v as real - ReadBack(v) * 10000000.0 < 10.0
    ensures ReadBack(-v) == -ReadBack(v)
  {
    var q := v / 10;
    assert v == 10 * q + v % 10;
    assert ReadBack(v) * 10000000.0 == 10.0 * q as real;
  }
}
