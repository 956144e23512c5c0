/** Comparing headings on the circle. Angles are exact reals and the full circle is a
    parameter, so that one turn need not be a rational number. */
module HeadingComparison {

  /** The code for a heading that is not known; the others are tenths of a degree. */
  const HEADING_UNAVAILABLE := 3601
  const TENTHS_IN_A_TURN := 3600

  function Abs(x: real): real {
    if x < 0.0 then -x else x
  }

  /** The remainder of the C library for a non-negative dividend. */
  function Remainder(x: real, c: real): real
    requires x >= 0.0 && c > 0.0
  {
    x - (x / c).Floor as real * c
  }

  predicate SimilarAngles(a: real, b: real, limit: real, c: real)
    requires c > 0.0
  {
    var difference := Remainder(Abs(a - b), c);
    difference <= limit || difference >= c - limit
  }

  predicate IsAvailable(heading: int) {
    heading != HEADING_UNAVAILABLE
  }

  function AngleOf(heading: int, c: real): real {
    heading as real * c / TENTHS_IN_A_TURN as real
  }

  predicate SimilarToAngle(a: int, b: real, limit: real, c: real)
    requires c > 0.0
  {
    IsAvailable(a) && SimilarAngles(AngleOf(a, c), b, limit, c)
  }

  predicate SimilarHeadings(a: int, b: int, limit: real, c: real)
    requires c > 0.0
  {
    IsAvailable(a) && IsAvailable(b) && SimilarAngles(AngleOf(a, c), AngleOf(b, c), limit, c)
  }

  // ---------------------------------------------------------------- what it means

  /** The angle of k whole turns. */
  function Turns(k: int, c: real): real {
    k as real * c
  }

  /** Turning b back by k whole turns brings it within limit of a. */
  predicate WithinAfterTurns(a: real, b: real, k: int, limit: real, c: real) {
    Abs(a - b + Turns(k, c)) <= limit
  }

  lemma TurnsAddUp(m: int, n: int, c: real)
    ensures Turns(m + n, c) == Turns(m, c) + Turns(n, c)
    ensures Turns(m - n, c) == Turns(m, c) - Turns(n, c)
    ensures Turns(-m, c) == -Turns(m, c) && Turns(1, c) == c
  {
    assert (m + n) as real == m as real + n as real;
    assert (m - n) as real == m as real - n as real;
  }

  lemma TurnsLeaveTheCircle(m: int, c: real)
    requires c > 0.0
    ensures m >= 0 ==> Turns(m, c) >= 0.0
    ensures m < 0 ==> Turns(m, c) <= -c
  {
    if m < 0 {
      TurnsAddUp(m, -1, c);
      assert (-1 - m) as real * c >= 0.0;
    }
  }

  /** Truncating division: some whole turns and a rest less than one. */
  lemma RemainderIsRest(x: real, c: real) returns (q: int)
    requires x >= 0.0 && c > 0.0
    ensures x == Remainder(x, c) + Turns(q, c)
    ensures 0.0 <= Remainder(x, c) < c
  {
    var r := x / c;
    q := r.Floor;
    var f := r - q as real;
    assert x == r * c == f * c + Turns(q, c);
    assert 0.0 <= f * c < c by {
      assert (1.0 - f) * c > 0.0;
    }
  }

  /** Two angles are similar exactly when some whole-turn shift of one is within the
      limit of the other, for every limit. */
  lemma {:induction false} SimilarIffSomeTurn(a: real, b: real, limit: real, c: real)
    requires c > 0.0
    ensures SimilarAngles(a, b, limit, c) <==> exists k: int :: WithinAfterTurns(a, b, k, limit, c)
  {
    if SimilarAngles(a, b, limit, c) {
      SomeTurnBringsNear(a, b, limit, c);
    }
    if k: int :| WithinAfterTurns(a, b, k, limit, c) {
      NearIsSimilar(a, b, k, limit, c);
    }
  }

  lemma SomeTurnBringsNear(a: real, b: real, limit: real, c: real)
    requires c > 0.0 && SimilarAngles(a, b, limit, c)
    ensures exists k: int :: WithinAfterTurns(a, b, k, limit, c)
  {
    hide Remainder, Turns;
    var d := Abs(a - b);
    var q := RemainderIsRest(d, c);
    var k := if Remainder(d, c) <= limit then -q else -q - 1;
    TurnsAddUp(q, 1, c);
    TurnsAddUp(q + 1, 0, c);
    TurnsAddUp(k, 0, c);
    assert WithinAfterTurns(a, b, if a - b < 0.0 then -k else k, limit, c);
  }

  lemma NearIsSimilar(a: real, b: real, k: int, limit: real, c: real)
    requires c > 0.0 && WithinAfterTurns(a, b, k, limit, c)
    ensures SimilarAngles(a, b, limit, c)
  {
    hide Remainder, Turns;
    var d := Abs(a - b);
    var q := RemainderIsRest(d, c);
    var turns := if a - b < 0.0 then -k else k;
    TurnsAddUp(k, 0, c);
    assert Abs(d + Turns(turns, c)) <= limit;
    TurnsAddUp(q, turns, c);
    TurnsLeaveTheCircle(q + turns, c);
  }

  // ---------------------------------------------------------------- laws

  lemma SimilarityIsSymmetric(a: real, b: real, limit: real, c: real)
    requires c > 0.0
    ensures SimilarAngles(a, b, limit, c) <==> SimilarAngles(b, a, limit, c)
  {
    assert Abs(a - b) == Abs(b - a);
  }

  /** Whole turns on either side do not matter. */
  lemma {:induction false} WholeTurnsDoNotMatter(a: real, b: real, m: int, n: int, limit: real, c: real)
    requires c > 0.0
    ensures SimilarAngles(a + Turns(m, c), b + Turns(n, c), limit, c) <==> SimilarAngles(a, b, limit, c)
  {
    hide Remainder, SimilarAngles, Turns;
    var a', b' := a + Turns(m, c), b + Turns(n, c);
    SimilarIffSomeTurn(a, b, limit, c);
    SimilarIffSomeTurn(a', b', limit, c);
    TurnsAddUp(m, n, c);
    if k: int :| WithinAfterTurns(a', b', k, limit, c) {
      TurnsAddUp(k, m - n, c);
      assert WithinAfterTurns(a, b, k + (m - n), limit, c);
    }
    if k: int :| WithinAfterTurns(a, b, k, limit, c) {
      TurnsAddUp(k, m - n, c);
      assert WithinAfterTurns(a', b', k - (m - n), limit, c);
    }
  }

  /** The triangle law: similarity adds up along a chain of angles. */
  lemma {:induction false} SimilarityAddsUp(x: real, y: real, z: real, limit1: real, limit2: real, c: real)
    requires c > 0.0
    requires SimilarAngles(x, y, limit1, c) && SimilarAngles(y, z, limit2, c)
    ensures SimilarAngles(x, z, limit1 + limit2, c)
  {
    hide Remainder, SimilarAngles, Turns;
    SimilarIffSomeTurn(x, y, limit1, c);
    SimilarIffSomeTurn(y, z, limit2, c);
    var j: int :| WithinAfterTurns(x, y, j, limit1, c);
    var k: int :| WithinAfterTurns(y, z, k, limit2, c);
    TurnsAddUp(j, k, c);
    NearIsSimilar(x, z, j + k, limit1 + limit2, c);
  }

  // ---------------------------------------------------------------- the overloads

  /** On available headings the three overloads say the same. */
  lemma OverloadsAgree(a: int, b: int, limit: real, c: real)
    requires c > 0.0
    ensures SimilarHeadings(a, b, limit, c) <==> IsAvailable(b) && SimilarToAngle(a, AngleOf(b, c), limit, c)
    ensures IsAvailable(a) && IsAvailable(b) ==>
      (SimilarHeadings(a, b, limit, c) <==> SimilarAngles(AngleOf(a, c), AngleOf(b, c), limit, c))
  {
  }

  predicate WithinTenthsAfterTurns(a: int, b: int, k: int, tenths: int) {
    -tenths <= a - b + k * 3600 <= tenths
  }

  /** The comparison of two available headings is one of whole numbers: some turn of
      3600 tenths brings them within the limit, whatever the length of the circle. */
  lemma {:induction false} HeadingsCompareInTenths(a: int, b: int, tenths: int, c: real)
    requires c > 0.0
    ensures SimilarHeadings(a, b, AngleOf(tenths, c), c)
      <==> a != 3601 && b != 3601 && exists k: int :: WithinTenthsAfterTurns(a, b, k, tenths)
  {
    hide Remainder, SimilarAngles, WithinAfterTurns, WithinTenthsAfterTurns, AngleOf;
    SimilarIffSomeTurn(AngleOf(a, c), AngleOf(b, c), AngleOf(tenths, c), c);
    forall k: int
      ensures WithinAfterTurns(AngleOf(a, c), AngleOf(b, c), k, AngleOf(tenths, c), c)
        == WithinTenthsAfterTurns(a, b, k, tenths)
    {
      TenthsScale(a, b, k, tenths, c);
    }
  }

  lemma TenthsScale(a: int, b: int, k: int, tenths: int, c: real)
    requires c > 0.0
    ensures WithinAfterTurns(AngleOf(a, c), AngleOf(b, c), k, AngleOf(tenths, c), c)
      == WithinTenthsAfterTurns(a, b, k, tenths)
  {
    var unit := c / TENTHS_IN_A_TURN as real;
    var n := a - b + k * TENTHS_IN_A_TURN;
    assert AngleOf(a, c) - AngleOf(b, c) + Turns(k, c) == n as real * unit;
    OrderScales(n, tenths, unit);
    OrderScales(-tenths, n, unit);
    assert (-tenths) as real * unit == -(tenths as real * unit);
  }

  lemma OrderScales(m: int, n: int, unit: real)
    requires unit > 0.0
    ensures m <= n <==> m as real * unit <= n as real * unit
  {
    var d := n - m;
    assert n as real * unit - m as real * unit == d as real * unit;
    if d >= 0 {
      assert d as real * unit >= 0.0;
    } else {
      assert (-d) as real * unit > 0.0;
      assert (-d) as real * unit == -(d as real * unit);
    }
  }
}
