/** Table-driven packing: integers, sequences and lists are written and read as their
    constraint tables say, without padding. */
module Uper {
  import opened Base
  import opened PackedBits

  type Long = v: int | -0x8000_0000_0000_0000 <= v < 0x8000_0000_0000_0000

  const OCTETS_IN_LONG := 8

  /** A value constraint: whether values outside the bounds may be sent, the width of
      those inside, and the bounds. */
  datatype Range = Range(extensible: bool, width: nat, lower: Long, upper: Long)

  /** A size constraint. */
  datatype Size = Size(width: nat, lower: nat, upper: nat)

  datatype Type =
    | Integer(range: Range)
    | Sequence(members: Members)
    | SequenceOf(size: Size, element: Type)

  /** The member table of a sequence. */
  datatype Members = End | Member(optional: bool, kind: Type, others: Members)

  datatype Value =
    | Number(number: Long)
    | Record(fields: seq<Option<Value>>)
    | List(items: seq<Value>)

  /** A list longer than this is refused by the reader. */
  const LONGEST_LIST := 200

  // ---------------------------------------------------------------- writing

  function PutOctets(o: Octets): (b: Bits)
    ensures |b| == 8 * |o|
  {
    if o == [] then [] else Put(o[0], 8) + PutOctets(o[1..])
  }

  /** How many of n units follow one length: all of a few, or up to four times 16384. */
  function MayPut(n: nat): (m: nat)
    ensures m <= n && (m == n || m >= 16384)
    ensures n >= 65536 ==> m == 65536
    ensures 16384 <= n < 65536 ==> m + n % 16384 == n
  {
    if n < 16384 then n else (if n / 16384 > 4 then 4 else n / 16384) * 16384
  }

  /** A length: 7 bits behind a zero, 14 bits behind "10", or a count of 16384 behind "11". */
  function LengthBits(n: nat): Bits {
    if n <= 127 then Put(n, 8)
    else if n < 16384 then Put(0x8000 + n, 16)
    else Put(0xC0 + MayPut(n) / 16384, 8)
  }

  /** Octets behind their length, in fragments if there are many. A full fragment is always
      followed by another length, at the end of zero. */
  function PutFragments(o: Octets): Bits
    decreases |o|
  {
    LengthBits(|o|) + PutOctets(o[..MayPut(|o|)])
      + if |o| < 16384 then [] else PutFragments(o[MayPut(|o|)..])
  }

  /** A number outside the bounds: its shortest octets behind their length. */
  function PutOpen(v: Long): Bits {
    PutFragments(Strip(OctetsOf(v, OCTETS_IN_LONG)))
  }

  function EncodeInteger(r: Range, v: Long): Option<Bits> {
    var outside := v < r.lower || v > r.upper;
    if outside && !r.extensible then None
    else
      var mark := if r.extensible then [outside] else [];
      Some(mark + if outside then PutOpen(v) else PutWhole(v - r.lower, r.width))
  }

  function Join(a: Option<Bits>, b: Option<Bits>): Option<Bits> {
    if a.Some? && b.Some? then Some(a.value + b.value) else None
  }

  function Encode(t: Type, v: Value): Option<Bits>
    decreases t, 0
  {
    match (t, v)
    case (Integer(r), Number(n)) => EncodeInteger(r, n)
    case (Sequence(ms), Record(fields)) => Join(Some(PresenceOf(ms, fields)), EncodeMembers(ms, fields))
    case (SequenceOf(size, element), List(items)) =>
      Join(EncodeCount(size, |items|), EncodeItems(element, items))
    case _ => None
  }

  function EncodeCount(size: Size, count: nat): Option<Bits> {
    if count < size.lower || count > size.upper || size.width > CHUNK then None
    else Some(Put(count - size.lower, size.width))
  }

  function EncodeItems(element: Type, items: seq<Value>): Option<Bits>
    decreases element, |items| + 1
  {
    if items == [] then Some([])
    else Join(Encode(element, items[0]), EncodeItems(element, items[1..]))
  }

  /** One bit for each optional member: whether it is there. */
  function PresenceOf(ms: Members, fields: seq<Option<Value>>): Bits {
    if ms.End? || fields == [] then []
    else
      (if ms.optional then [fields[0].Some?] else []) + PresenceOf(ms.others, fields[1..])
  }

  function EncodeMembers(ms: Members, fields: seq<Option<Value>>): Option<Bits>
    decreases ms, 0
  {
    if ms.End? then
      if fields == [] then Some([]) else None
    else if fields == [] then None
    else if fields[0].None? then
      if ms.optional then EncodeMembers(ms.others, fields[1..]) else None
    else Join(Encode(ms.kind, fields[0].value), EncodeMembers(ms.others, fields[1..]))
  }

  // ---------------------------------------------------------------- reading

  function TakeOctets(b: Bits, n: nat): (r: Option<(Octets, Bits)>)
    ensures r.Some? ==> |b| == 8 * n + |r.value.1|
    decreases n
  {
    if n == 0 then Some(([], b))
    else if |b| < 8 then None
    else
      PutOfValue(b[..8]);
      PowOfOctet();
      match TakeOctets(b[8..], n - 1)
      case None => None
      case Some((o, rest)) => Some(([NumberOf(b[..8])] + o, rest))
  }

  lemma PowOfOctet()
    ensures Pow2(8) == 256
  {
    assert Pow2(4) == 16;
  }

  /** Octets behind a length: short, long, or in fragments of 16384. */
  function TakeFragments(b: Bits): Option<(Octets, Bits)>
    decreases |b|
  {
    if |b| < 8 then None
    else
      var first, rest := NumberOf(b[..8]), b[8..];
      if first < 128 then TakeOctets(rest, first)
      else if first < 192 then
        if |rest| < 8 then None else TakeOctets(rest[8..], (first - 128) * 256 + NumberOf(rest[..8]))
      else if first - 192 < 1 || first - 192 > 4 then None
      else
        match TakeOctets(rest, (first - 192) * 16384)
        case None => None
        case Some((o, rest')) =>
          match TakeFragments(rest')
          case None => None
          case Some((o', rest'')) => Some((o + o', rest''))
  }

  lemma LongIsEightOctets(v: int)
    ensures -HalfSpan(OCTETS_IN_LONG) <= v < HalfSpan(OCTETS_IN_LONG)
      <==> -0x8000_0000_0000_0000 <= v < 0x8000_0000_0000_0000
  {
    assert Span(2) == 0x1_0000;
    assert Span(4) == 0x1_0000_0000;
    assert Span(6) == 0x1_0000_0000_0000;
    assert Span(7) == 0x100_0000_0000_0000;
  }

  lemma ShortOctetsAreLong(o: Octets)
    requires |o| <= OCTETS_IN_LONG
    ensures -0x8000_0000_0000_0000 <= Signed(o) < 0x8000_0000_0000_0000
  {
    if o != [] {
      SignedIsBounded(o);
      SpanGrows(|o| - 1, OCTETS_IN_LONG - 1);
      LongIsEightOctets(Signed(o));
    }
  }

  /** A machine number from octets, if it fits once leading octets are skipped. */
  function LongOf(o: Octets): Option<Long> {
    var s := if |o| > OCTETS_IN_LONG then Strip(o) else o;
    if |s| > OCTETS_IN_LONG then None
    else
      ShortOctetsAreLong(s);
      Some(Signed(s))
  }

  function TakeOpen(b: Bits): Option<(Long, Bits)> {
    match TakeFragments(b)
    case None => None
    case Some((o, rest)) => if LongOf(o).None? then None else Some((LongOf(o).value, rest))
  }

  /** A number inside the bounds. Offsets that the width allows but the bounds do not
      are refused. */
  function TakeRanged(r: Range, b: Bits): Option<(Long, Bits)> {
    match TakeWhole(b, r.width)
    case None => None
    case Some((u, rest)) => if u > r.upper - r.lower then None else Some((u + r.lower, rest))
  }

  function DecodeInteger(r: Range, b: Bits): Option<(Long, Bits)> {
    if !r.extensible then TakeRanged(r, b)
    else if b == [] then None
    else if b[0] then TakeOpen(b[1..])
    else TakeRanged(r, b[1..])
  }

  function Decode(t: Type, b: Bits): Option<(Value, Bits)>
    decreases t, 0
  {
    match t
    case Integer(r) =>
      (match DecodeInteger(r, b)
       case None => None
       case Some((n, rest)) => Some((Number(n), rest)))
    case Sequence(ms) =>
      var optional := CountOptional(ms);
      if |b| < optional then None
      else
        (match DecodeMembers(ms, b[..optional], b[optional..])
         case None => None
         case Some((fields, rest)) => Some((Record(fields), rest)))
    case SequenceOf(size, element) =>
      (match DecodeCount(size, b)
       case None => None
       case Some((count, rest)) =>
         if count > LONGEST_LIST then None
         else
           match DecodeItems(element, count, rest)
           case None => None
           case Some((items, rest')) => Some((List(items), rest')))
  }

  /** The upper bound of a size is not looked at. */
  function DecodeCount(size: Size, b: Bits): Option<(nat, Bits)> {
    if size.width > CHUNK || Take(b, size.width).None? then None
    else Some((Take(b, size.width).value.0 + size.lower, Take(b, size.width).value.1))
  }

  function DecodeItems(element: Type, n: nat, b: Bits): Option<(seq<Value>, Bits)>
    decreases element, n + 1
  {
    if n == 0 then Some(([], b))
    else
      match Decode(element, b)
      case None => None
      case Some((v, rest)) =>
        match DecodeItems(element, n - 1, rest)
        case None => None
        case Some((vs, rest')) => Some(([v] + vs, rest'))
  }

  function CountOptional(ms: Members): nat {
    if ms.End? then 0 else (if ms.optional then 1 else 0) + CountOptional(ms.others)
  }

  function DecodeMembers(ms: Members, presence: Bits, b: Bits): Option<(seq<Option<Value>>, Bits)>
    requires |presence| == CountOptional(ms)
    decreases ms, 0
  {
    if ms.End? then Some(([], b))
    else
      var later := if ms.optional then presence[1..] else presence;
      if ms.optional && !presence[0] then
        match DecodeMembers(ms.others, later, b)
        case None => None
        case Some((fields, rest)) => Some(([None] + fields, rest))
      else
        match Decode(ms.kind, b)
        case None => None
        case Some((v, rest)) =>
          match DecodeMembers(ms.others, later, rest)
          case None => None
          case Some((fields, rest')) => Some(([Some(v)] + fields, rest'))
  }

  // ---------------------------------------------------------------- tables that fit

  predicate RangeIsSound(r: Range) {
    r.lower <= r.upper && r.width <= 64 && r.upper - r.lower < Pow2(r.width)
  }

  predicate SizeIsSound(size: Size) {
    size.lower <= size.upper <= 200 && size.width <= 31 && size.upper - size.lower < Pow2(size.width)
  }

  /** The widths hold the bounds, throughout the table. */
  predicate IsSound(t: Type)
    decreases t
  {
    match t
    case Integer(r) => RangeIsSound(r)
    case Sequence(ms) => MembersAreSound(ms)
    case SequenceOf(size, element) => SizeIsSound(size) && IsSound(element)
  }

  predicate MembersAreSound(ms: Members)
    decreases ms
  {
    ms.Member? ==> IsSound(ms.kind) && MembersAreSound(ms.others)
  }

  // ---------------------------------------------------------------- round trip of numbers

  lemma TakeFirstOctet(x: Byte, rest: Bits)
    ensures var b := Put(x, 8) + rest; |b| >= 8 && NumberOf(b[..8]) == x && b[8..] == rest
  {
    hide Put, Pow2, NumberOf;
    PowOfOctet();
    TakeAfterFittingPut(x, 8, rest);
  }

  lemma {:induction false} OctetsRoundTrip(o: Octets, rest: Bits)
    ensures TakeOctets(PutOctets(o) + rest, |o|) == Some((o, rest))
  {
    hide Put, Pow2, NumberOf;
    if o == [] {
      assert PutOctets(o) + rest == rest;
    } else {
      var b := PutOctets(o) + rest;
      TakeFirstOctet(o[0], PutOctets(o[1..]) + rest);
      assert b == Put(o[0], 8) + (PutOctets(o[1..]) + rest);
      OctetsRoundTrip(o[1..], rest);
      assert [o[0]] + o[1..] == o;
    }
  }

  lemma OpenRoundTrip(v: Long, rest: Bits)
    ensures TakeOpen(PutOpen(v) + rest) == Some((v, rest))
  {
    hide PutFragments, TakeFragments, Strip, OctetsOf;
    var o := OpenIsShortest(v);
    FragmentsRoundTrip(o, rest);
    LongOfIff(o);
  }

  /** The extension form is a length octet k and then k octets, between one and eight, that
      denote the number, and no octets denote it in fewer. */
  lemma OpenIsShortest(v: Long) returns (o: Octets)
    ensures o == Strip(OctetsOf(v, OCTETS_IN_LONG))
    ensures PutOpen(v) == Put(|o|, 8) + PutOctets(o) && PutOpen(v) == PutFragments(o)
    ensures Signed(o) == v && 1 <= |o| <= 8
    ensures forall other: Octets :: other != [] && Signed(other) == v ==> |o| <= |other|
  {
    hide Strip, Signed, OctetsOf, Put, PutOctets;
    var all := OctetsOf(v, OCTETS_IN_LONG);
    o := Strip(all);
    LongIsEightOctets(v);
    SignedOfOctets(v, OCTETS_IN_LONG);
    StripKeepsTheNumber(all);
    forall other: Octets | other != [] && Signed(other) == v
      ensures |o| <= |other|
    {
      StripIsShortest(all, other);
    }
    assert o[..|o|] == o;
  }

  /** So it takes 8 bits and 8 for each octet of the least count whose span holds it. */
  lemma OpenSize(v: Long, k: nat)
    requires 1 <= k <= 8 && -HalfSpan(k) <= v < HalfSpan(k)
    requires k == 1 || v < -HalfSpan(k - 1) || v >= HalfSpan(k - 1)
    ensures |PutOpen(v)| == 8 + 8 * k
  {
    hide PutOpen, PutFragments, Signed, PutOctets, Put, OctetsOf, Strip, Span;
    var o := OpenIsShortest(v);
    SignedOfOctets(v, k);
    assert |o| <= |OctetsOf(v, k)|;
    if |o| < k {
      SignedIsBounded(o);
      SpanGrows(|o| - 1, k - 2);
    }
  }

  /** Octets give a machine number exactly when the number they denote is one, however many
      they are. */
  lemma LongOfIff(o: Octets)
    ensures LongOf(o).Some? <==> -0x8000_0000_0000_0000 <= Signed(o) < 0x8000_0000_0000_0000
    ensures LongOf(o).Some? ==> LongOf(o).value == Signed(o)
  {
    hide Signed, Strip;
    if |o| > OCTETS_IN_LONG {
      var s := Strip(o);
      StripKeepsTheNumber(o);
      if |s| > OCTETS_IN_LONG {
        NotRedundantIsWide(s);
        SpanGrows(OCTETS_IN_LONG - 1, |s| - 2);
        LongIsEightOctets(Signed(o));
      } else {
        ShortOctetsAreLong(s);
      }
    } else {
      ShortOctetsAreLong(o);
    }
  }

  /** Whatever their number, octets written behind lengths come back. */
  lemma {:induction false} FragmentsRoundTrip(o: Octets, rest: Bits)
    ensures TakeFragments(PutFragments(o) + rest) == Some((o, rest))
    decreases |o|
  {
    hide LengthBits, PutOctets, TakeOctets, Put, NumberOf, TakeFragments;
    var m := MayPut(|o|);
    var later := if |o| < 16384 then [] else PutFragments(o[m..]);
    var body := PutOctets(o[..m]);
    assert PutFragments(o) + rest == LengthBits(|o|) + (body + (later + rest));
    OctetsRoundTrip(o[..m], later + rest);
    LengthIsTaken(|o|, body + (later + rest));
    if |o| >= 16384 {
      FragmentsRoundTrip(o[m..], rest);
      assert o[..m] + o[m..] == o;
    } else {
      assert [] + rest == rest && o[..m] == o;
    }
  }

  /** What the reader does with a written length: takes that many octets, and goes on exactly
      behind a fragment. */
  lemma LengthIsTaken(n: nat, b: Bits)
    ensures TakeFragments(LengthBits(n) + b) ==
      match TakeOctets(b, MayPut(n))
      case None => None
      case Some((o, rest)) =>
        if n < 16384 then Some((o, rest))
        else match TakeFragments(rest)
          case None => None
          case Some((o', rest')) => Some((o + o', rest'))
  {
    hide TakeOctets, Put, NumberOf;
    if n <= 127 {
      TakeFirstOctet(n, b);
    } else if n < 16384 {
      TwoOctets(n, b);
    } else {
      TakeFirstOctet(0xC0 + MayPut(n) / 16384, b);
    }
  }

  lemma TwoOctets(n: nat, b: Bits)
    requires n < 16384
    ensures var w := Put(0x8000 + n, 16) + b;
      |w| >= 16 && NumberOf(w[..8]) == 128 + n / 256 && NumberOf(w[8..][..8]) == n % 256 && w[8..][8..] == b
  {
    hide Put, NumberOf;
    var v: nat := 0x8000 + n;
    var high: nat, low: nat := 128 + n / 256, n % 256;
    PowOfOctet();
    HighIsQuotient(v, 8);
    PutOfSum(v, 8, 8);
    LowOctet(v);
    assert Put(v, 16) + b == Put(high, 8) + (Put(low, 8) + b);
    TakeFirstOctet(high, Put(low, 8) + b);
    TakeFirstOctet(low, b);
  }

  lemma LowOctet(v: nat)
    ensures Put(v, 8) == Put(v % 256, 8)
  {
    hide Put, NumberOf;
    PowOfOctet();
    ValueOfSame(v, v % 256, 8);
  }

  lemma RangedRoundTrip(r: Range, v: Long, rest: Bits)
    requires RangeIsSound(r) && r.lower <= v <= r.upper
    ensures TakeRanged(r, PutWhole(v - r.lower, r.width) + rest) == Some((v, rest))
  {
    var u := v - r.lower;
    PutWholeIsPut(u, r.width);
    TakeWholeIsTake(Put(u, r.width) + rest, r.width);
    TakeAfterFittingPut(u, r.width, rest);
  }

  lemma IntegerRoundTrip(r: Range, v: Long, rest: Bits)
    requires RangeIsSound(r) && EncodeInteger(r, v).Some?
    ensures DecodeInteger(r, EncodeInteger(r, v).value + rest) == Some((v, rest))
  {
    hide PutOpen, TakeOpen, PutWhole, TakeRanged;
    var outside := v < r.lower || v > r.upper;
    var body := if outside then PutOpen(v) else PutWhole(v - r.lower, r.width);
    if outside {
      OpenRoundTrip(v, rest);
    } else {
      RangedRoundTrip(r, v, rest);
    }
    if r.extensible {
      assert ([outside] + body + rest)[1..] == body + rest;
    } else {
      assert [] + body == body;
    }
  }

  // ---------------------------------------------------------------- round trip of values

  /** Reading what was written recovers the value, whatever its type, and leaves the
      bits behind it untouched. */
  lemma {:induction false} RoundTrip(t: Type, v: Value, rest: Bits)
    requires IsSound(t) && Encode(t, v).Some?
    ensures Decode(t, Encode(t, v).value + rest) == Some((v, rest))
    decreases t, 0
  {
    hide EncodeInteger, DecodeInteger;
    match (t, v) {
      case (Integer(r), Number(n)) => IntegerRoundTrip(r, n, rest);
      case (Sequence(ms), Record(fields)) => RecordRoundTrip(ms, fields, rest);
      case (SequenceOf(size, element), List(items)) => ListRoundTrip(size, element, items, rest);
      case _ =>
    }
  }

  lemma {:induction false} RecordRoundTrip(ms: Members, fields: seq<Option<Value>>, rest: Bits)
    requires MembersAreSound(ms) && EncodeMembers(ms, fields).Some?
    ensures Decode(Sequence(ms), PresenceOf(ms, fields) + EncodeMembers(ms, fields).value + rest)
      == Some((Record(fields), rest))
    decreases ms, 2
  {
    hide DecodeMembers, EncodeMembers, PresenceOf, MembersAreSound, CountOptional;
    var presence, body := PresenceOf(ms, fields), EncodeMembers(ms, fields).value;
    PresenceIsComplete(ms, fields);
    MembersRoundTrip(ms, fields, rest);
    assert (presence + body + rest)[..|presence|] == presence;
    assert (presence + body + rest)[|presence|..] == body + rest;
  }

  lemma {:induction false} PresenceIsComplete(ms: Members, fields: seq<Option<Value>>)
    requires EncodeMembers(ms, fields).Some?
    ensures |PresenceOf(ms, fields)| == CountOptional(ms)
  {
    if ms.Member? {
      PresenceIsComplete(ms.others, fields[1..]);
    }
  }

  lemma {:induction false} MembersRoundTrip(ms: Members, fields: seq<Option<Value>>, rest: Bits)
    requires MembersAreSound(ms) && EncodeMembers(ms, fields).Some?
    requires |PresenceOf(ms, fields)| == CountOptional(ms)
    ensures DecodeMembers(ms, PresenceOf(ms, fields), EncodeMembers(ms, fields).value + rest) == Some((fields, rest))
    decreases ms, 1
  {
    hide Encode, Decode;
    if ms.Member? {
      PresenceIsComplete(ms.others, fields[1..]);
      MembersRoundTrip(ms.others, fields[1..], rest);
      assert fields == [fields[0]] + fields[1..];
      if fields[0].Some? {
        var first := Encode(ms.kind, fields[0].value).value;
        var others := EncodeMembers(ms.others, fields[1..]).value;
        RoundTrip(ms.kind, fields[0].value, others + rest);
        assert first + others + rest == first + (others + rest);
      }
      var tail := PresenceOf(ms.others, fields[1..]);
      assert ([fields[0].Some?] + tail)[1..] == tail;
      assert [] + tail == tail;
    } else {
      assert [] + rest == rest;
    }
  }

  lemma {:induction false} ListRoundTrip(size: Size, element: Type, items: seq<Value>, rest: Bits)
    requires SizeIsSound(size) && IsSound(element) && Encode(SequenceOf(size, element), List(items)).Some?
    ensures var b := Encode(SequenceOf(size, element), List(items)).value;
            Decode(SequenceOf(size, element), b + rest) == Some((List(items), rest))
    decreases element, |items| + 2
  {
    hide EncodeItems, DecodeItems, EncodeCount, DecodeCount;
    var count, body := EncodeCount(size, |items|).value, EncodeItems(element, items).value;
    assert count + body + rest == count + (body + rest);
    CountRoundTrip(size, |items|, body + rest);
    ItemsRoundTrip(element, items, rest);
  }

  lemma CountRoundTrip(size: Size, count: nat, rest: Bits)
    requires SizeIsSound(size) && EncodeCount(size, count).Some?
    ensures count <= LONGEST_LIST
    ensures DecodeCount(size, EncodeCount(size, count).value + rest) == Some((count, rest))
  {
    hide Put, Take;
    TakeAfterFittingPut(count - size.lower, size.width, rest);
  }

  lemma {:induction false} ItemsRoundTrip(element: Type, items: seq<Value>, rest: Bits)
    requires IsSound(element) && EncodeItems(element, items).Some?
    ensures DecodeItems(element, |items|, EncodeItems(element, items).value + rest) == Some((items, rest))
    decreases element, |items| + 1
  {
    hide Encode, Decode;
    if items == [] {
      assert [] + rest == rest;
    } else {
      var first := Encode(element, items[0]).value;
      var others := EncodeItems(element, items[1..]).value;
      RoundTrip(element, items[0], others + rest);
      assert first + others + rest == first + (others + rest);
      ItemsRoundTrip(element, items[1..], rest);
      assert items == [items[0]] + items[1..];
    }
  }

  /** No written value is a prefix of another: values can be told apart in a stream. */
  lemma {:induction false} WritingIsPrefixFree(t: Type, v: Value, w: Value, r: Bits, s: Bits)
    requires IsSound(t) && Encode(t, v).Some? && Encode(t, w).Some?
    requires Encode(t, v).value + r == Encode(t, w).value + s
    ensures v == w && r == s
  {
    RoundTrip(t, v, r);
    RoundTrip(t, w, s);
  }

  // ---------------------------------------------------------------- the width of a range

  predicate ComesBack(r: Range, v: Long) {
    r.lower <= v <= r.upper ==> TakeRanged(r, PutWhole(v - r.lower, r.width)) == Some((v, []))
  }

  /** A width is right exactly when every number between the bounds comes back, and
      that is exactly when it holds the largest offset. */
  lemma {:induction false} WidthSufficesIff(r: Range)
    requires r.lower <= r.upper && r.width <= WORD
    ensures (forall v: Long :: ComesBack(r, v)) <==> r.upper - r.lower < Pow2(r.width)
  {
    if r.upper - r.lower < Pow2(r.width) {
      forall v: Long | r.lower <= v <= r.upper
        ensures ComesBack(r, v)
      {
        RangedRoundTrip(r, v, []);
        assert PutWhole(v - r.lower, r.width) + [] == PutWhole(v - r.lower, r.width);
      }
    } else {
      var v: Long := r.lower + Pow2(r.width);
      OffsetsCollide(r.width);
      PutWholeIsPut(0, r.width);
      PutWholeIsPut(Pow2(r.width), r.width);
      assert !(ComesBack(r, v) && ComesBack(r, r.lower));
    }
  }

  lemma OffsetsCollide(n: nat)
    ensures Put(Pow2(n), n) == Put(0, n)
  {
    DivisionIs(Pow2(n), Pow2(n), 1, 0);
    DivisionIs(0, Pow2(n), 0, 0);
    ValueOfSame(Pow2(n), 0, n);
  }

  lemma ValueOfSame(u: nat, v: nat, n: nat)
    requires u % Pow2(n) == v % Pow2(n)
    ensures Put(u, n) == Put(v, n)
  {
    ValueOfPut(u, n);
    ValueOfPut(v, n);
    PutOfValue(Put(u, n));
    PutOfValue(Put(v, n));
  }

  // ---------------------------------------------------------------- what the reader accepts

  /** No list is longer than its table allows. */
  predicate ListsFit(t: Type, v: Value)
    decreases t, 0
  {
    match (t, v)
    case (Integer(_), Number(_)) => true
    case (Sequence(ms), Record(fields)) => FieldsFit(ms, fields)
    case (SequenceOf(size, element), List(items)) => |items| <= size.upper && ItemsFit(element, items)
    case _ => false
  }

  predicate FieldsFit(ms: Members, fields: seq<Option<Value>>)
    decreases ms, 0
  {
    ms.Member? && fields != [] ==>
      (fields[0].Some? ==> ListsFit(ms.kind, fields[0].value)) && FieldsFit(ms.others, fields[1..])
  }

  predicate ItemsFit(element: Type, items: seq<Value>)
    decreases element, |items| + 1
  {
    items != [] ==> ListsFit(element, items[0]) && ItemsFit(element, items[1..])
  }

  /** No value outside the bounds may be sent, throughout the table. */
  predicate IsRigid(t: Type)
    decreases t
  {
    match t
    case Integer(r) => !r.extensible
    case Sequence(ms) => MembersAreRigid(ms)
    case SequenceOf(_, element) => IsRigid(element)
  }

  predicate MembersAreRigid(ms: Members)
    decreases ms
  {
    ms.Member? ==> IsRigid(ms.kind) && MembersAreRigid(ms.others)
  }

  lemma DecodedIntegerIsWritten(r: Range, b: Bits)
    requires RangeIsSound(r) && DecodeInteger(r, b).Some?
    ensures var (v, rest) := DecodeInteger(r, b).value;
            EncodeInteger(r, v).Some? && (!r.extensible ==> EncodeInteger(r, v).value + rest == b)
  {
    hide Put, Pow2, NumberOf, PutOpen, TakeOpen, TakeWhole, PutWhole;
    var (v, rest) := DecodeInteger(r, b).value;
    if !r.extensible {
      TakeWholeIsTake(b, r.width);
      PutAfterTake(b, r.width);
      PutWholeIsPut(v - r.lower, r.width);
      assert [] + Put(v - r.lower, r.width) == Put(v - r.lower, r.width);
    }
  }

  /** Whatever is read can be written again exactly when its lists are not too long;
      and then, if no table is extensible, the bits read were the ones written. */
  lemma {:induction false} DecodedIsWritten(t: Type, b: Bits)
    requires IsSound(t) && Decode(t, b).Some?
    ensures var (v, rest) := Decode(t, b).value;
            (Encode(t, v).Some? <==> ListsFit(t, v))
            && (Encode(t, v).Some? && IsRigid(t) ==> Encode(t, v).value + rest == b)
    decreases t, 0
  {
    hide EncodeInteger, DecodeInteger, EncodeCount, DecodeCount;
    match t {
      case Integer(r) => DecodedIntegerIsWritten(r, b);
      case Sequence(ms) => DecodedRecordIsWritten(ms, b);
      case SequenceOf(size, element) => DecodedListIsWritten(size, element, b);
    }
  }

  lemma {:induction false} DecodedRecordIsWritten(ms: Members, b: Bits)
    requires MembersAreSound(ms) && Decode(Sequence(ms), b).Some?
    ensures var (v, rest) := Decode(Sequence(ms), b).value;
            (Encode(Sequence(ms), v).Some? <==> ListsFit(Sequence(ms), v))
            && (Encode(Sequence(ms), v).Some? && MembersAreRigid(ms) ==> Encode(Sequence(ms), v).value + rest == b)
    decreases ms, 2
  {
    hide DecodeMembers, EncodeMembers, PresenceOf, FieldsFit, MembersAreSound, MembersAreRigid, CountOptional;
    var n := CountOptional(ms);
    DecodedMembersAreWritten(ms, b[..n], b[n..]);
    var (fields, rest) := DecodeMembers(ms, b[..n], b[n..]).value;
    if EncodeMembers(ms, fields).Some? {
      var body := EncodeMembers(ms, fields).value;
      assert b[..n] + body + rest == b[..n] + (body + rest);
      assert b[..n] + b[n..] == b;
    }
  }

  lemma {:induction false} DecodedMembersAreWritten(ms: Members, presence: Bits, b: Bits)
    requires MembersAreSound(ms) && |presence| == CountOptional(ms) && DecodeMembers(ms, presence, b).Some?
    ensures var (fields, rest) := DecodeMembers(ms, presence, b).value;
            PresenceOf(ms, fields) == presence
            && (EncodeMembers(ms, fields).Some? <==> FieldsFit(ms, fields))
            && (EncodeMembers(ms, fields).Some? && MembersAreRigid(ms) ==>
              EncodeMembers(ms, fields).value + rest == b)
    decreases ms, 1
  {
    hide Encode, Decode, ListsFit;
    if ms.End? {
      assert [] + b == b;
    } else {
      var later := if ms.optional then presence[1..] else presence;
      assert presence == (if ms.optional then [presence[0]] else []) + later;
      if ms.optional && !presence[0] {
        DecodedMembersAreWritten(ms.others, later, b);
        var (fields, _) := DecodeMembers(ms.others, later, b).value;
        assert ([None] + fields)[1..] == fields;
      } else {
        DecodedIsWritten(ms.kind, b);
        var (v, b') := Decode(ms.kind, b).value;
        DecodedMembersAreWritten(ms.others, later, b');
        var (fields, rest) := DecodeMembers(ms.others, later, b').value;
        assert ([Some(v)] + fields)[1..] == fields;
        JoinedBits(Encode(ms.kind, v), EncodeMembers(ms.others, fields), rest);
      }
    }
  }

  lemma JoinedBits(first: Option<Bits>, others: Option<Bits>, rest: Bits)
    ensures first.Some? && others.Some? ==>
      Join(first, others).value + rest == first.value + (others.value + rest)
  {
  }

  lemma {:induction false} DecodedListIsWritten(size: Size, element: Type, b: Bits)
    requires SizeIsSound(size) && IsSound(element) && Decode(SequenceOf(size, element), b).Some?
    ensures var t := SequenceOf(size, element);
            var (v, rest) := Decode(t, b).value;
            (Encode(t, v).Some? <==> ListsFit(t, v))
            && (Encode(t, v).Some? && IsRigid(element) ==> Encode(t, v).value + rest == b)
    decreases element, DecodeCount(size, b).value.0 + 2
  {
    hide Put, Take, DecodeItems, EncodeItems, ItemsFit;
    var (count, b') := DecodeCount(size, b).value;
    PutAfterTake(b, size.width);
    DecodedItemsAreWritten(element, count, b');
    var (items, rest) := DecodeItems(element, count, b').value;
    DecodedCount(element, count, b');
    JoinedBits(EncodeCount(size, count), EncodeItems(element, items), rest);
  }

  lemma {:induction false} DecodedCount(element: Type, n: nat, b: Bits)
    requires DecodeItems(element, n, b).Some?
    ensures |DecodeItems(element, n, b).value.0| == n
    decreases n
  {
    hide Decode;
    if n > 0 {
      DecodedCount(element, n - 1, Decode(element, b).value.1);
    }
  }

  lemma {:induction false} DecodedItemsAreWritten(element: Type, n: nat, b: Bits)
    requires IsSound(element) && DecodeItems(element, n, b).Some?
    ensures var (items, rest) := DecodeItems(element, n, b).value;
            (EncodeItems(element, items).Some? <==> ItemsFit(element, items))
            && (EncodeItems(element, items).Some? && IsRigid(element) ==> EncodeItems(element, items).value + rest == b)
    decreases element, n + 1
  {
    hide Encode, Decode, ListsFit;
    if n == 0 {
      assert [] + b == b;
    } else {
      DecodedIsWritten(element, b);
      var (v, b') := Decode(element, b).value;
      DecodedItemsAreWritten(element, n - 1, b');
      var (items, rest) := DecodeItems(element, n - 1, b').value;
      assert ([v] + items)[1..] == items;
      JoinedBits(Encode(element, v), EncodeItems(element, items), rest);
    }
  }

  // ---------------------------------------------------------------- the layout of octets and lists

  /** Octets lie one behind the other, each with its most significant bit first. */
  lemma {:induction false} OctetIsAt(o: Octets, i: nat)
    requires i < |o|
    ensures PutOctets(o)[8 * i..8 * i + 8] == Put(o[i], 8)
  {
    hide Put;
    if i > 0 {
      OctetIsAt(o[1..], i - 1);
      var tail := PutOctets(o[1..]);
      assert PutOctets(o) == Put(o[0], 8) + tail;
      assert PutOctets(o)[8 * i..8 * i + 8] == tail[8 * (i - 1)..8 * (i - 1) + 8];
    }
  }

  /** The reader refuses lists of more than 200 elements, whatever follows the count. */
  lemma LongListsAreRefused(size: Size, element: Type, b: Bits)
    requires DecodeCount(size, b).Some? && DecodeCount(size, b).value.0 > 200
    ensures Decode(SequenceOf(size, element), b) == None
  {
  }
}
