/** Bits, most significant first: fixed-width numbers and two's-complement octets. */
module PackedBits {
  import opened Base

  type Bits = seq<bool>

  function Pow2(n: nat): (p: nat)
    ensures p >= 1
  {
    if n == 0 then 1 else 2 * Pow2(n - 1)
  }

  /** The low n bits of v. */
  function Put(v: nat, n: nat): (b: Bits)
    ensures |b| == n
  {
    if n == 0 then [] else Put(v / 2, n - 1) + [v % 2 == 1]
  }

  function BitValue(bit: bool): nat {
    if bit then 1 else 0
  }

  /** The number that a string of bits denotes. */
  function NumberOf(b: Bits): nat {
    if b == [] then 0 else 2 * NumberOf(b[..|b| - 1]) + BitValue(b[|b| - 1])
  }

  /** The number in the first n bits and what follows; None when the bits run out. */
  function Take(b: Bits, n: nat): Option<(nat, Bits)> {
    if n > |b| then None else Some((NumberOf(b[..n]), b[n..]))
  }

  // ---------------------------------------------------------------- arithmetic

  lemma {:induction false} Pow2Adds(m: nat, n: nat)
    ensures Pow2(m + n) == Pow2(m) * Pow2(n)
  {
    if m > 0 {
      Pow2Adds(m - 1, n);
    }
  }

  lemma {:induction false} Pow2Grows(m: nat, n: nat)
    requires m <= n
    ensures Pow2(m) <= Pow2(n)
  {
    if m < n {
      Pow2Grows(m, n - 1);
    }
  }

  /** Division with remainder is unique. */
  lemma DivisionIs(v: int, d: int, q: int, r: int)
    requires v == q * d + r && 0 <= r < d
    ensures v / d == q && v % d == r
  {
    var k := v / d - q;
    assert v == (v / d) * d + v % d;
    assert k * d == r - v % d;
    MultiplesAreFar(k, d);
  }

  lemma MultiplesAreFar(k: int, d: int)
    requires d > 0
    ensures k >= 1 ==> k * d >= d
    ensures k <= -1 ==> k * d <= -d
  {
  }

  lemma DividingTwice(v: int, k: nat, m: nat)
    requires k >= 1 && m >= 1
    ensures v % (k * m) == k * ((v / k) % m) + v % k
    ensures v / (k * m) == (v / k) / m
  {
    var h := v / k;
    var q, r := h / m, h % m;
    assert h == q * m + r;
    assert k * r <= k * (m - 1);
    assert k * h == q * (k * m) + k * r;
    DivisionIs(v, k * m, q, k * r + v % k);
  }

  // ---------------------------------------------------------------- round trips

  lemma {:induction false} ValueOfPut(v: nat, n: nat)
    ensures NumberOf(Put(v, n)) == v % Pow2(n)
  {
    if n > 0 {
      ValueOfPut(v / 2, n - 1);
      DividingTwice(v, 2, Pow2(n - 1));
      assert Put(v, n)[..n - 1] == Put(v / 2, n - 1);
    }
  }

  lemma {:induction false} PutOfValue(b: Bits)
    ensures Put(NumberOf(b), |b|) == b
    ensures NumberOf(b) < Pow2(|b|)
  {
    if b != [] {
      var init := b[..|b| - 1];
      PutOfValue(init);
      assert NumberOf(b) / 2 == NumberOf(init);
      assert b == init + [b[|b| - 1]];
    }
  }

  /** Writing n bits and reading n bits returns the low bits of the number and leaves
      what follows alone. */
  lemma TakeAfterPut(v: nat, n: nat, rest: Bits)
    ensures Take(Put(v, n) + rest, n) == Some((v % Pow2(n), rest))
  {
    ValueOfPut(v, n);
    assert (Put(v, n) + rest)[..n] == Put(v, n);
    assert (Put(v, n) + rest)[n..] == rest;
  }

  /** A number that fits comes back. */
  lemma TakeAfterFittingPut(v: nat, n: nat, rest: Bits)
    requires v < Pow2(n)
    ensures Take(Put(v, n) + rest, n) == Some((v, rest))
  {
    TakeAfterPut(v, n, rest);
    DivisionIs(v, Pow2(n), 0, v);
  }

  /** What was read is what would be written. */
  lemma PutAfterTake(b: Bits, n: nat)
    requires Take(b, n).Some?
    ensures var (v, rest) := Take(b, n).value; b == Put(v, n) + rest && v < Pow2(n)
  {
    PutOfValue(b[..n]);
    assert b == b[..n] + b[n..];
  }

  /** The number without its low n bits. */
  function High(v: nat, n: nat): nat {
    if n == 0 then v else High(v / 2, n - 1)
  }

  lemma {:induction false} HighIsQuotient(v: nat, n: nat)
    ensures High(v, n) == v / Pow2(n)
  {
    if n > 0 {
      HighIsQuotient(v / 2, n - 1);
      DividingTwice(v, 2, Pow2(n - 1));
    }
  }

  lemma LastBitFirst(v: nat, n: nat)
    requires n >= 1
    ensures Put(v, n) == Put(v / 2, n - 1) + [v % 2 == 1]
    ensures High(v, n) == High(v / 2, n - 1)
  {
  }

  lemma {:induction false} PutOfSum(v: nat, m: nat, n: nat)
    ensures Put(v, m + n) == Put(High(v, n), m) + Put(v, n)
    decreases n
  {
    if n == 0 {
      assert High(v, n) == v;
    } else {
      hide Put, High;
      LastBitFirst(v, n);
      LastBitFirst(v, m + n);
      PutOfSum(v / 2, m, n - 1);
      assert m + n - 1 == m + (n - 1);
    }
  }

  /** The most significant bit comes first: bit i counts 2^(n-1-i). */
  lemma {:induction false} BitIsAt(v: nat, n: nat, i: nat)
    requires i < n
    ensures Put(v, n)[i] <==> v / Pow2(n - 1 - i) % 2 == 1
  {
    if i < n - 1 {
      BitIsAt(v / 2, n - 1, i);
      DividingTwice(v, 2, Pow2(n - 2 - i));
    }
  }

  lemma {:induction false} ValueOfConcat(a: Bits, b: Bits)
    ensures NumberOf(a + b) == NumberOf(a) * Pow2(|b|) + NumberOf(b)
  {
    if b == [] {
      assert a + b == a;
    } else {
      var init := b[..|b| - 1];
      ValueOfConcat(a, init);
      assert (a + b)[..|a + b| - 1] == a + init;
      assert NumberOf(a) * Pow2(|b|) == 2 * (NumberOf(a) * Pow2(|init|));
    }
  }

  // ---------------------------------------------------------------- wide numbers

  /** The stream moves at most 31 bits at a time. */
  const CHUNK := 31
  const WORD := 64

  /** Writing a wide number: what lies above the low chunk first, then the low chunk. */
  function PutWhole(v: nat, n: nat): Bits {
    if n <= CHUNK then Put(v, n) else PutWhole(v / 0x8000_0000, n - CHUNK) + Put(v, CHUNK)
  }

  /** Reading a wide number: the high chunk first, then whatever is left. */
  function TakeWhole(b: Bits, n: nat): Option<(nat, Bits)> {
    if n <= CHUNK then Take(b, n)
    else if n > WORD then None
    else if Take(b, CHUNK).None? then None
    else
      var (high, b') := Take(b, CHUNK).value;
      match TakeWhole(b', n - CHUNK)
      case None => None
      case Some((low, rest)) => Some((high * Pow2(n - CHUNK) + low, rest))
  }

  lemma {:induction false} ChunkIs()
    ensures Pow2(CHUNK) == 0x8000_0000
  {
    assert Pow2(8) == 256;
    Pow2Adds(8, 8);
    Pow2Adds(16, 8);
    assert Pow2(7) == 128;
    Pow2Adds(24, 7);
  }

  /** The writer splits off the low bits and the reader the high bits, yet both move
      the number as one piece. */
  lemma {:induction false} PutWholeIsPut(v: nat, n: nat)
    ensures PutWhole(v, n) == Put(v, n)
  {
    if n > CHUNK {
      PutWholeIsPut(v / 0x8000_0000, n - CHUNK);
      ChunkIs();
      PutOfSum(v, n - CHUNK, CHUNK);
      HighIsQuotient(v, CHUNK);
    }
  }

  lemma {:induction false} TakeWholeIsTake(b: Bits, n: nat)
    ensures TakeWhole(b, n) == if n <= 64 then Take(b, n) else None
  {
    if CHUNK < n <= WORD && CHUNK <= |b| {
      var b' := b[CHUNK..];
      TakeWholeIsTake(b', n - CHUNK);
      if n <= |b| {
        assert b[..CHUNK] + b'[..n - CHUNK] == b[..n];
        ValueOfConcat(b[..CHUNK], b'[..n - CHUNK]);
        assert b'[n - CHUNK..] == b[n..];
      }
    }
  }

  // ---------------------------------------------------------------- octets

  type Octets = seq<Byte>

  /** How many numbers n octets can denote. */
  function Span(n: nat): (s: int)
    ensures s >= 1
  {
    if n == 0 then 1 else 256 * Span(n - 1)
  }

  /** The bound of the signed numbers of n octets: half their span. */
  function HalfSpan(n: nat): int
    requires n >= 1
  {
    128 * Span(n - 1)
  }

  function Unsigned(o: Octets): nat {
    if o == [] then 0 else 256 * Unsigned(o[..|o| - 1]) + o[|o| - 1]
  }

  /** Two's complement, most significant octet first; no octets denote zero. */
  function Signed(o: Octets): int {
    if o != [] && o[0] >= 128 then Unsigned(o) - Span(|o|) else Unsigned(o)
  }

  /** The low n octets of a number. */
  function OctetsOf(v: int, n: nat): (o: Octets)
    ensures |o| == n
    decreases n
  {
    if n == 0 then [] else OctetsOf(v / 256, n - 1) + [v % 256]
  }

  /** The first octet only repeats the sign of the second. */
  predicate IsRedundant(o: Octets) {
    |o| > 1 && ((o[0] == 0 && o[1] < 128) || (o[0] == 255 && o[1] >= 128))
  }

  /** The octets without the redundant ones in front. */
  function Strip(o: Octets): Octets {
    if IsRedundant(o) then Strip(o[1..]) else o
  }

  /** The loop that skips leading octets. */
  method SkipRedundant(o: Octets) returns (r: Octets)
    ensures r == Strip(o)
  {
    r := o;
    while |r| > 1 && IsRedundant(r)
      invariant Strip(r) == Strip(o)
    {
      r := r[1..];
    }
  }

  // ---------------------------------------------------------------- octet arithmetic

  lemma {:induction false} SpanGrows(m: nat, n: nat)
    requires m <= n
    ensures Span(m) <= Span(n)
  {
    if m < n {
      SpanGrows(m, n - 1);
    }
  }

  lemma ProductsRegroup(a: int, b: int, c: int)
    ensures a * (b * c) == b * (a * c)
  {
  }

  /** A number from its first octet and the rest. */
  lemma {:induction false} UnsignedFromFirst(o: Octets)
    requires o != []
    ensures Unsigned(o) == o[0] * Span(|o| - 1) + Unsigned(o[1..])
    ensures Unsigned(o[1..]) < Span(|o| - 1)
  {
    if |o| > 1 {
      var init, last, h := o[..|o| - 1], o[|o| - 1], Span(|o| - 2);
      UnsignedFromFirst(init);
      assert o[1..][..|o[1..]| - 1] == init[1..];
      assert Unsigned(o[1..]) == 256 * Unsigned(init[1..]) + last;
      assert Unsigned(o) == 256 * (o[0] * h) + Unsigned(o[1..]);
      ProductsRegroup(256, o[0], h);
    }
  }

  lemma TimesIsBetween(a: int, b: int, c: int, h: int)
    requires a <= b <= c && h >= 0
    ensures a * h <= b * h <= c * h
  {
  }

  lemma SignedIsBounded(o: Octets)
    requires o != []
    ensures -HalfSpan(|o|) <= Signed(o) < HalfSpan(|o|)
  {
    UnsignedFromFirst(o);
    if o[0] >= 128 {
      TimesIsBetween(128, o[0], 255, Span(|o| - 1));
    } else {
      TimesIsBetween(0, o[0], 127, Span(|o| - 1));
    }
  }

  lemma RedundantOctetIsNothing(o: Octets)
    requires IsRedundant(o)
    ensures Signed(o) == Signed(o[1..])
  {
    UnsignedFromFirst(o);
  }

  /** Without a redundant octet the number does not fit in fewer octets. */
  lemma NotRedundantIsWide(o: Octets)
    requires |o| > 1 && !IsRedundant(o)
    ensures Signed(o) < -HalfSpan(|o| - 1) || Signed(o) >= HalfSpan(|o| - 1)
  {
    var rest := o[1..];
    UnsignedFromFirst(o);
    UnsignedFromFirst(rest);
    var h, h' := Span(|o| - 1), Span(|rest| - 1);
    assert h == 256 * h';
    if o[0] == 0 {
      TimesIsBetween(128, rest[0], 255, h');
    } else if o[0] < 128 {
      TimesIsBetween(1, o[0], 127, h);
    } else if o[0] < 255 {
      TimesIsBetween(128, o[0], 254, h);
    } else {
      TimesIsBetween(0, rest[0], 127, h');
    }
  }

  lemma {:induction false} UnsignedOfOctets(v: int, n: nat)
    ensures Unsigned(OctetsOf(v, n)) == v % Span(n)
    decreases n
  {
    if n > 0 {
      UnsignedOfOctets(v / 256, n - 1);
      DividingTwice(v, 256, Span(n - 1));
      assert OctetsOf(v, n)[..n - 1] == OctetsOf(v / 256, n - 1);
    }
  }

  /** The low octets of a number that fits denote it. */
  lemma SignedOfOctets(v: int, n: nat)
    requires n >= 1 && -HalfSpan(n) <= v < HalfSpan(n)
    ensures Signed(OctetsOf(v, n)) == v
  {
    hide Unsigned, OctetsOf;
    var o := OctetsOf(v, n);
    UnsignedOfOctets(v, n);
    UnsignedFromFirst(o);
    DivisionIs(v, Span(n), if v >= 0 then 0 else -1, if v >= 0 then v else v + Span(n));
    if o[0] >= 128 {
      TimesIsBetween(128, o[0], 255, Span(n - 1));
    } else {
      TimesIsBetween(0, o[0], 127, Span(n - 1));
    }
  }

  lemma {:induction false} StripKeepsTheNumber(o: Octets)
    ensures Signed(Strip(o)) == Signed(o)
    ensures !IsRedundant(Strip(o)) && |Strip(o)| <= |o| && (o != [] ==> Strip(o) != [])
  {
    if IsRedundant(o) {
      RedundantOctetIsNothing(o);
      StripKeepsTheNumber(o[1..]);
    }
  }

  /** Stripping gives the shortest octets for the number. */
  lemma {:induction false} StripIsShortest(o: Octets, other: Octets)
    requires o != [] && other != [] && Signed(other) == Signed(o)
    ensures |Strip(o)| <= |other|
  {
    StripKeepsTheNumber(o);
    var s := Strip(o);
    if |other| < |s| {
      NotRedundantIsWide(s);
      SignedIsBounded(other);
      SpanGrows(|other| - 1, |s| - 2);
    }
  }
}
