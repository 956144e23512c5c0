/** The packed form of an event history, from its constraint tables. */
module EventHistories {
  import opened Base
  import opened PackedBits
  import opened Uper

  datatype DeltaReferencePosition = DeltaReferencePosition(latitude: Long, longitude: Long, altitude: Long)
  datatype EventPoint = EventPoint(position: DeltaReferencePosition, deltaTime: Option<Long>, quality: Long)

  type EventHistory = seq<EventPoint>

  // ---------------------------------------------------------------- the tables

  const DELTA_LATITUDE := Range(false, 18, -131071, 131072)
  const DELTA_LONGITUDE := Range(false, 18, -131071, 131072)
  const DELTA_ALTITUDE := Range(false, 15, -12700, 12800)
  const PATH_DELTA_TIME := Range(true, 16, 1, 65535)
  const INFORMATION_QUALITY := Range(false, 3, 0, 7)
  const EVENT_COUNT := Size(5, 1, 23)

  const DELTA_REFERENCE_POSITION :=
    Sequence(Member(false, Integer(DELTA_LATITUDE),
      Member(false, Integer(DELTA_LONGITUDE), Member(false, Integer(DELTA_ALTITUDE), End))))

  const EVENT_POINT :=
    Sequence(Member(false, DELTA_REFERENCE_POSITION,
      Member(true, Integer(PATH_DELTA_TIME), Member(false, Integer(INFORMATION_QUALITY), End))))

  const EVENT_HISTORY := SequenceOf(EVENT_COUNT, EVENT_POINT)

  // ---------------------------------------------------------------- the constraint functions

  predicate DeltaLatitudeConstraint(v: Long) {
    v >= -131071 && v <= 131072
  }

  predicate DeltaLongitudeConstraint(v: Long) {
    v >= -131071 && v <= 131072
  }

  predicate DeltaAltitudeConstraint(v: Long) {
    v >= -12700 && v <= 12800
  }

  predicate PathDeltaTimeConstraint(v: Long) {
    v >= 1 && v <= 65535
  }

  predicate InformationQualityConstraint(v: Long) {
    v >= 0 && v <= 7
  }

  predicate PositionConstraint(p: DeltaReferencePosition) {
    DeltaLatitudeConstraint(p.latitude) && DeltaLongitudeConstraint(p.longitude) && DeltaAltitudeConstraint(p.altitude)
  }

  predicate PointConstraint(p: EventPoint) {
    PositionConstraint(p.position) && InformationQualityConstraint(p.quality)
    && (p.deltaTime.Some? ==> PathDeltaTimeConstraint(p.deltaTime.value))
  }

  // ---------------------------------------------------------------- histories as values

  function PositionValue(p: DeltaReferencePosition): Value {
    Record([Some(Number(p.latitude)), Some(Number(p.longitude)), Some(Number(p.altitude))])
  }

  function PointValue(p: EventPoint): Value {
    Record([Some(PositionValue(p.position)),
            if p.deltaTime.Some? then Some(Number(p.deltaTime.value)) else None,
            Some(Number(p.quality))])
  }

  function PointValues(h: EventHistory): seq<Value> {
    if h == [] then [] else [PointValue(h[0])] + PointValues(h[1..])
  }

  predicate IsNumber(f: Option<Value>) {
    f.Some? && f.value.Number?
  }

  function PositionOf(v: Value): Option<DeltaReferencePosition> {
    if v.Record? && |v.fields| == 3 && IsNumber(v.fields[0]) && IsNumber(v.fields[1]) && IsNumber(v.fields[2])
    then Some(DeltaReferencePosition(v.fields[0].value.number, v.fields[1].value.number, v.fields[2].value.number))
    else None
  }

  function PointOf(v: Value): Option<EventPoint> {
    if v.Record? && |v.fields| == 3 && v.fields[0].Some? && PositionOf(v.fields[0].value).Some?
       && (v.fields[1].Some? ==> IsNumber(v.fields[1])) && IsNumber(v.fields[2])
    then
      Some(EventPoint(PositionOf(v.fields[0].value).value,
                      if v.fields[1].Some? then Some(v.fields[1].value.number) else None,
                      v.fields[2].value.number))
    else None
  }

  function PointsOf(items: seq<Value>): Option<EventHistory> {
    if items == [] then Some([])
    else if PointOf(items[0]).None? || PointsOf(items[1..]).None? then None
    else Some([PointOf(items[0]).value] + PointsOf(items[1..]).value)
  }

  function Write(h: EventHistory): Option<Bits> {
    Encode(EVENT_HISTORY, List(PointValues(h)))
  }

  function Read(b: Bits): Option<(EventHistory, Bits)> {
    match Decode(EVENT_HISTORY, b)
    case None => None
    case Some((v, rest)) =>
      if v.List? && PointsOf(v.items).Some? then Some((PointsOf(v.items).value, rest)) else None
  }

  // ---------------------------------------------------------------- the layout

  /** A delta time: a mark, then sixteen bits, or octets when outside the bounds. */
  function DeltaTimeBits(v: Long): Bits {
    if PathDeltaTimeConstraint(v) then [false] + Put(v - 1, 16) else [true] + PutOpen(v)
  }

  function PositionBits(p: DeltaReferencePosition): Bits
    requires PositionConstraint(p)
  {
    Put(p.latitude + 131071, 18) + Put(p.longitude + 131071, 18) + Put(p.altitude + 12700, 15)
  }

  /** What the writer puts for a point: whether there is a delta time, the three
      offsets, the delta time, the quality. */
  function PointBits(p: EventPoint): Bits
    requires IsWritable(p)
  {
    [p.deltaTime.Some?] + PositionBits(p.position)
    + (if p.deltaTime.Some? then DeltaTimeBits(p.deltaTime.value) else []) + Put(p.quality, 3)
  }

  /** The delta time may be any number: its table is extensible. */
  predicate IsWritable(p: EventPoint) {
    PositionConstraint(p.position) && InformationQualityConstraint(p.quality)
  }

  function HistoryBits(h: EventHistory): Bits
    requires forall p <- h :: IsWritable(p)
  {
    if h == [] then [] else PointBits(h[0]) + HistoryBits(h[1..])
  }

  function Presence(optional: bool, present: bool): Bits {
    if optional then [present] else []
  }

  function EncodeField(optional: bool, kind: Type, field: Option<Value>): Option<Bits> {
    if field.Some? then Encode(kind, field.value) else if optional then Some([]) else None
  }

  function Three(first: Type, optional: bool, second: Type, third: Type): Members {
    Member(false, first, Member(optional, second, Member(false, third, End)))
  }

  /** A sequence of three members, the second possibly optional. */
  lemma ThreeMembers(first: Type, optional: bool, second: Type, third: Type, x: Value, y: Option<Value>, z: Value)
    ensures Encode(Sequence(Three(first, optional, second, third)), Record([Some(x), y, Some(z)]))
      == Join(Some(Presence(optional, y.Some?)),
              Join(Encode(first, x), Join(EncodeField(optional, second, y), Encode(third, z))))
  {
    hide EncodeMembers, PresenceOf, EncodeField;
    var last := Member(false, third, End);
    var fields := [Some(x), y, Some(z)];
    MembersStep(false, third, End, Some(z), []);
    MembersStep(optional, second, last, y, [Some(z)]);
    MembersStep(false, first, Member(optional, second, last), Some(x), [y, Some(z)]);
    assert [Some(z)] + [] == [Some(z)] && [y] + [Some(z)] == [y, Some(z)] && [Some(x)] + [y, Some(z)] == fields;
    FieldThere(false, first, x);
    FieldThere(false, third, z);
    JoinNothing(Encode(third, z));
    assert PresenceOf(Three(first, optional, second, third), fields) == Presence(optional, y.Some?);
  }

  lemma FieldThere(optional: bool, kind: Type, v: Value)
    ensures EncodeField(optional, kind, Some(v)) == Encode(kind, v)
  {
    hide Encode;
  }

  /** One member of the table, one field of the record. */
  lemma MembersStep(optional: bool, kind: Type, others: Members, field: Option<Value>, fields: seq<Option<Value>>)
    ensures EncodeMembers(Member(optional, kind, others), [field] + fields)
      == Join(EncodeField(optional, kind, field), EncodeMembers(others, fields))
    ensures PresenceOf(Member(optional, kind, others), [field] + fields)
      == Presence(optional, field.Some?) + PresenceOf(others, fields)
    ensures EncodeMembers(End, []) == Some([]) && PresenceOf(End, []) == []
  {
    hide Encode;
    assert ([field] + fields)[1..] == fields;
    JoinNothing(EncodeMembers(others, fields));
  }

  lemma JoinNothing(a: Option<Bits>)
    ensures Join(a, Some([])) == a && Join(Some([]), a) == a
  {
    if a.Some? {
      assert a.value + [] == a.value;
      assert [] + a.value == a.value;
    }
  }

  lemma RigidNumber(r: Range, v: Long)
    requires !r.extensible
    ensures Encode(Integer(r), Number(v))
      == if r.lower <= v <= r.upper then Some(Put(v - r.lower, r.width)) else None
  {
    if r.lower <= v <= r.upper {
      PutWholeIsPut(v - r.lower, r.width);
      assert [] + Put(v - r.lower, r.width) == Put(v - r.lower, r.width);
    }
  }

  /** An offset is written exactly when the constraint functions accept it. */
  lemma PositionIsWritten(p: DeltaReferencePosition)
    ensures Encode(DELTA_REFERENCE_POSITION, PositionValue(p))
      == if PositionConstraint(p) then Some(PositionBits(p)) else None
  {
    hide Encode, Put;
    ThreeMembers(Integer(DELTA_LATITUDE), false, Integer(DELTA_LONGITUDE), Integer(DELTA_ALTITUDE),
                 Number(p.latitude), Some(Number(p.longitude)), Number(p.altitude));
    RigidNumber(DELTA_LATITUDE, p.latitude);
    RigidNumber(DELTA_LONGITUDE, p.longitude);
    RigidNumber(DELTA_ALTITUDE, p.altitude);
    if PositionConstraint(p) {
      var a, b, c := Put(p.latitude + 131071, 18), Put(p.longitude + 131071, 18), Put(p.altitude + 12700, 15);
      assert [] + (a + (b + c)) == a + b + c;
    }
  }

  lemma DeltaTimeIsWritten(v: Long)
    ensures Encode(Integer(PATH_DELTA_TIME), Number(v)) == Some(DeltaTimeBits(v))
  {
    if PathDeltaTimeConstraint(v) {
      PutWholeIsPut(v - 1, 16);
    }
  }

  lemma PointIsWritten(p: EventPoint)
    ensures Encode(EVENT_POINT, PointValue(p)) == if IsWritable(p) then Some(PointBits(p)) else None
  {
    hide Encode, PositionBits, PositionConstraint, DeltaTimeBits;
    var time := if p.deltaTime.Some? then Some(Number(p.deltaTime.value)) else None;
    ThreeMembers(DELTA_REFERENCE_POSITION, true, Integer(PATH_DELTA_TIME), Integer(INFORMATION_QUALITY),
                 PositionValue(p.position), time, Number(p.quality));
    PositionIsWritten(p.position);
    RigidNumber(INFORMATION_QUALITY, p.quality);
    if p.deltaTime.Some? {
      DeltaTimeIsWritten(p.deltaTime.value);
    }
    if IsWritable(p) {
      var a, b, d := [p.deltaTime.Some?], PositionBits(p.position), Put(p.quality, 3);
      var c := if p.deltaTime.Some? then DeltaTimeBits(p.deltaTime.value) else [];
      assert a + (b + (c + d)) == a + b + c + d;
    }
  }

  lemma {:induction false} PointsAreWritten(h: EventHistory)
    ensures EncodeItems(EVENT_POINT, PointValues(h))
      == if forall p <- h :: IsWritable(p) then Some(HistoryBits(h)) else None
  {
    hide Encode, PointBits, IsWritable;
    if h != [] {
      PointIsWritten(h[0]);
      PointsAreWritten(h[1..]);
      assert PointValues(h)[1..] == PointValues(h[1..]);
      assert forall p :: p in h <==> p == h[0] || p in h[1..];
    }
  }

  // ---------------------------------------------------------------- the theorems

  lemma {:induction false} AsManyValues(h: EventHistory)
    ensures |PointValues(h)| == |h|
  {
    if h != [] {
      AsManyValues(h[1..]);
    }
  }

  /** Exactly the histories of 1 to 23 writable points are written: five bits for the
      count less one, then the points in order. */
  lemma {:induction false} HistoryIsWritten(h: EventHistory)
    ensures Write(h).Some? <==> 1 <= |h| <= 23 && forall p <- h :: IsWritable(p)
    ensures Write(h).Some? ==> Write(h).value == Put(|h| - 1, 5) + HistoryBits(h)
  {
    hide EncodeItems, HistoryBits, IsWritable, Put;
    AsManyValues(h);
    PointsAreWritten(h);
  }

  lemma PositionComesBack(p: DeltaReferencePosition)
    ensures PositionOf(PositionValue(p)) == Some(p)
  {
  }

  lemma {:induction false} PointsComeBack(h: EventHistory)
    ensures PointsOf(PointValues(h)) == Some(h)
  {
    hide PositionOf, PositionValue;
    if h != [] {
      PositionComesBack(h[0].position);
      PointsComeBack(h[1..]);
      assert PointValues(h)[1..] == PointValues(h[1..]);
      assert PointOf(PointValue(h[0])) == Some(h[0]);
      assert [h[0]] + h[1..] == h;
    }
  }

  lemma TablesAreSound()
    ensures IsSound(EVENT_HISTORY)
  {
    SmallPowers();
  }

  lemma {:induction false} SmallPowers()
    ensures Pow2(2) == 4 && Pow2(3) == 8 && Pow2(4) == 16 && Pow2(5) == 32
    ensures Pow2(14) == 16384 && Pow2(15) == 32768 && Pow2(16) == 65536
    ensures Pow2(17) == 131072 && Pow2(18) == 262144
  {
    assert Pow2(6) == 64;
    assert Pow2(10) == 1024;
    assert Pow2(14) == 16384;
  }

  /** Reading a written history recovers it and leaves the bits behind it alone. */
  lemma HistoryRoundTrip(h: EventHistory, rest: Bits)
    requires Write(h).Some?
    ensures Read(Write(h).value + rest) == Some((h, rest))
  {
    hide Encode, Decode, IsSound;
    TablesAreSound();
    RoundTrip(EVENT_HISTORY, List(PointValues(h)), rest);
    PointsComeBack(h);
  }

  /** So every history of 1 to 23 points that the constraint functions accept survives
      packing. */
  lemma AcceptedHistoriesSurvive(h: EventHistory, rest: Bits)
    requires 1 <= |h| <= 23 && forall p <- h :: PointConstraint(p)
    ensures Write(h).Some? && Read(Write(h).value + rest) == Some((h, rest))
  {
    hide Write, Read;
    HistoryIsWritten(h);
    HistoryRoundTrip(h, rest);
  }

  /** Histories are told apart by their bits, and no packed history is the beginning of
      another. */
  lemma PackedHistoriesAreDistinct(g: EventHistory, h: EventHistory, r: Bits, s: Bits)
    requires Write(g).Some? && Write(h).Some? && Write(g).value + r == Write(h).value + s
    ensures g == h && r == s
  {
    hide Write, Read;
    HistoryRoundTrip(g, r);
    HistoryRoundTrip(h, s);
  }

  function Sum(h: EventHistory): nat {
    if h == [] then 0 else (if h[0].deltaTime.Some? then 72 else 55) + Sum(h[1..])
  }

  lemma PointSize(p: EventPoint)
    requires PointConstraint(p)
    ensures |PointBits(p)| == if p.deltaTime.Some? then 72 else 55
  {
  }

  lemma {:induction false} HistorySize(h: EventHistory)
    requires forall p <- h :: PointConstraint(p)
    ensures forall p <- h :: IsWritable(p)
    ensures |HistoryBits(h)| == Sum(h) && 55 * |h| <= Sum(h) <= 72 * |h|
  {
    if h != [] {
      PointSize(h[0]);
      HistorySize(h[1..]);
    }
  }

  /** A packed history has 55 bits for each point, 17 more for each delta time, and 5
      for the count: never more than 1661. */
  lemma PackedSize(h: EventHistory)
    requires 1 <= |h| <= 23 && forall p <- h :: PointConstraint(p)
    ensures Write(h).Some? && |Write(h).value| == 5 + Sum(h) && |Write(h).value| <= 1661
  {
    hide Write;
    HistoryIsWritten(h);
    HistorySize(h);
  }

  // ---------------------------------------------------------------- where reading is laxer

  /** The reader does not look at the upper bound of the count: it also takes the bits
      of 24 to 32 points, which the writer refuses. */
  lemma {:induction false} ReaderTakesUpTo32(h: EventHistory, rest: Bits)
    requires 1 <= |h| <= 32 && forall p <- h :: IsWritable(p)
    ensures Read(Put(|h| - 1, 5) + HistoryBits(h) + rest) == Some((h, rest))
    ensures |h| > 23 ==> Write(h) == None
  {
    hide EncodeItems, DecodeItems, HistoryBits, IsWritable, Put, Take, IsSound, PointsOf, PointValues;
    var wide := Size(5, 1, 32);
    AsManyValues(h);
    PointsAreWritten(h);
    PointsComeBack(h);
    WideTableIsSound();
    RoundTrip(SequenceOf(wide, EVENT_POINT), List(PointValues(h)), rest);
    var b := Put(|h| - 1, 5) + HistoryBits(h);
    assert Encode(SequenceOf(wide, EVENT_POINT), List(PointValues(h))) == Some(b);
    assert Decode(EVENT_HISTORY, b + rest) == Decode(SequenceOf(wide, EVENT_POINT), b + rest);
  }

  lemma WideTableIsSound()
    ensures IsSound(SequenceOf(Size(5, 1, 32), EVENT_POINT))
  {
    SmallPowers();
  }

  /** A delta time inside its bounds has a second form that the writer never uses and
      the reader takes. */
  lemma DeltaTimeHasTwoForms(v: Long, rest: Bits)
    requires PathDeltaTimeConstraint(v)
    ensures DecodeInteger(PATH_DELTA_TIME, DeltaTimeBits(v) + rest) == Some((v, rest))
    ensures DecodeInteger(PATH_DELTA_TIME, [true] + PutOpen(v) + rest) == Some((v, rest))
    ensures DeltaTimeBits(v) != [true] + PutOpen(v)
  {
    hide PutOpen, TakeOpen, Put, PutWhole, TakeRanged;
    SmallPowers();
    PutWholeIsPut(v - 1, 16);
    RangedRoundTrip(PATH_DELTA_TIME, v, rest);
    OpenRoundTrip(v, rest);
    assert ([false] + Put(v - 1, 16) + rest)[1..] == Put(v - 1, 16) + rest;
    assert ([true] + PutOpen(v) + rest)[1..] == PutOpen(v) + rest;
    assert DeltaTimeBits(v)[0] != ([true] + PutOpen(v))[0];
  }

  /** A delta time takes a mark and 16 bits inside its bounds, and outside a mark, a length
      octet and the least number of octets that hold it. */
  lemma DeltaTimeSize(v: Long, k: nat)
    requires 1 <= k <= 8 && -HalfSpan(k) <= v < HalfSpan(k)
    requires k == 1 || v < -HalfSpan(k - 1) || v >= HalfSpan(k - 1)
    ensures |DeltaTimeBits(v)| == if 1 <= v <= 65535 then 17 else 9 + 8 * k
  {
    hide PutOpen;
    OpenSize(v, k);
  }

  lemma SmallDeltaTimeSizes()
    ensures |DeltaTimeBits(0)| == 17 && |DeltaTimeBits(65536)| == 33
  {
    hide DeltaTimeBits;
    assert HalfSpan(1) == 128 && HalfSpan(2) == 32768 && HalfSpan(3) == 8388608;
    DeltaTimeSize(0, 1);
    DeltaTimeSize(65536, 3);
  }

  // ---------------------------------------------------------------- the widths

  ghost predicate HoldsEveryNumber(r: Range, width: nat) {
    forall v: Long :: ComesBack(r.(width := width), v)
  }

  /** The width of a table row is the least with which every number between the bounds
      comes back. */
  ghost predicate WidthIsLeast(r: Range) {
    forall width: nat | width <= WORD :: HoldsEveryNumber(r, width) <==> r.width <= width
  }

  lemma WidthIsLeastIfTight(r: Range)
    requires r.lower <= r.upper && 1 <= r.width <= WORD && Pow2(r.width - 1) <= r.upper - r.lower < Pow2(r.width)
    ensures WidthIsLeast(r)
  {
    hide ComesBack;
    forall width: nat | width <= WORD
      ensures HoldsEveryNumber(r, width) <==> r.width <= width
    {
      WidthSufficesIff(r.(width := width));
      if r.width <= width {
        Pow2Grows(r.width, width);
      } else {
        Pow2Grows(width, r.width - 1);
      }
    }
  }

  lemma {:induction false} WidthsAreLeast()
    ensures WidthIsLeast(DELTA_LATITUDE) && WidthIsLeast(DELTA_LONGITUDE) && WidthIsLeast(DELTA_ALTITUDE)
    ensures WidthIsLeast(PATH_DELTA_TIME) && WidthIsLeast(INFORMATION_QUALITY)
    ensures WidthIsLeast(Range(false, EVENT_COUNT.width, EVENT_COUNT.lower, EVENT_COUNT.upper))
  {
    hide WidthIsLeast;
    SmallPowers();
    WidthIsLeastIfTight(DELTA_LATITUDE);
    WidthIsLeastIfTight(DELTA_LONGITUDE);
    WidthIsLeastIfTight(DELTA_ALTITUDE);
    WidthIsLeastIfTight(PATH_DELTA_TIME);
    WidthIsLeastIfTight(INFORMATION_QUALITY);
    WidthIsLeastIfTight(Range(false, EVENT_COUNT.width, EVENT_COUNT.lower, EVENT_COUNT.upper));
  }
}
