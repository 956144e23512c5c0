/** The counting matcher: for each signature it counts the keywords whose test
    holds and compares the count with the size of the pattern map. */
module GeonetDetection {
  import opened Base
  import opened Signatures
  import opened Detection
  import opened PatternReading

  /** Header-type codes of table 5 in section 9.7.4 of ETSI EN 302 636-4-1: the type
      is in the upper four bits, the subtype in the lower four. */
  const HT_GBC_CIRCLE: bv8 := 0x40
  const HT_GBC_RECT: bv8 := 0x41
  const HT_GBC_ELIP: bv8 := 0x42
  const HT_TSB_SINGLE_HOP: bv8 := 0x50
  const HT_TSB_MULTI_HOP: bv8 := 0x51

  datatype TransformStatus = TransformSuccess | TransformError

  /** The ego position and the foreign geodesy test (point, centre, radius). */
  datatype Surroundings = Surroundings(ego: Position, isWithin: (Position, Position, int) -> bool)

  datatype DetectOutcome = Report(sigs: seq<Signature>) | BadGet

  // ---------------------------------------------------------------- meaning of a keyword

  /** The header-type family a word stands for, as the upper four bits. */
  function FamilyNamed(word: string): Option<bv8> {
    if word == "TSB" || word == "SHB" then Some(5)
    else if word == "GBC" then Some(4)
    else None
  }

  function NextHeaderNamed(word: string): Option<NextHeaderBasic> {
    if word == "common" then Some(CommonNext)
    else if word == "secure" then Some(SecuredNext)
    else None
  }

  predicate NhHolds(p: Pattern, d: GeonetData) {
    p.TextPattern? && NextHeaderNamed(p.text) == Some(d.nextHeader)
  }

  predicate HtHolds(p: Pattern, d: GeonetData) {
    p.TextPattern? && FamilyNamed(p.text) == Some(d.headerType >> 4)
  }

  predicate MhlHolds(p: Pattern, d: GeonetData) {
    p.IntPattern? && p.number <= d.maximumHopLimit
  }

  predicate RangeHolds(p: Pattern, d: GeonetData, s: Surroundings) {
    p.RangePattern? && !s.isWithin(d.sourcePosition, s.ego, p.distanceA)
  }

  /** Whether the test of one keyword holds. Keywords without a test never hold. */
  predicate KeyHolds(key: string, p: Pattern, d: GeonetData, s: Surroundings) {
    (key == "nh" && NhHolds(p, d)) || (key == "ht" && HtHolds(p, d)) ||
    (key == "mhl" && MhlHolds(p, d)) || (key == "allowed_so_range" && RangeHolds(p, d, s))
  }

  /** A signature matches when every keyword it stores holds. */
  predicate Matches(sig: Signature, d: GeonetData, s: Surroundings) {
    forall k :: k in sig.patterns ==> KeyHolds(k, sig.patterns[k], d, s)
  }

  /** The signatures that match, in order and with multiplicity. */
  function Matching(sigs: seq<Signature>, d: GeonetData, s: Surroundings): (r: seq<Signature>)
    ensures forall sig :: sig in r <==> sig in sigs && Matches(sig, d, s)
  {
    Filter(sig => Matches(sig, d, s), sigs)
  }

  lemma MatchingNone(d: GeonetData, s: Surroundings)
    ensures Matching([], d, s) == []
  {
  }

  lemma MatchingLast(sigs: seq<Signature>, last: Signature, d: GeonetData, s: Surroundings)
    ensures Matching(sigs + [last], d, s) == Matching(sigs, d, s) + if Matches(last, d, s) then [last] else []
  {
    assert (sigs + [last])[..|sigs|] == sigs;
  }

  /** The type invariant of stored signatures: each keyword holds the alternative,
      and each word comes from the vocabulary, that the matcher extracts. */
  predicate WellTyped(sig: Signature) {
    && ("nh" in sig.patterns ==> sig.patterns["nh"].TextPattern? && sig.patterns["nh"].text in NH_WORDS)
    && ("ht" in sig.patterns ==> sig.patterns["ht"].TextPattern? && sig.patterns["ht"].text in HT_WORDS)
    && ("mhl" in sig.patterns ==> sig.patterns["mhl"].IntPattern?)
    && ("allowed_so_range" in sig.patterns ==> sig.patterns["allowed_so_range"].RangePattern?)
    && ("destination_area" in sig.patterns ==> sig.patterns["destination_area"].AreaPattern?)
  }

  /** When extracting a pattern throws: the first keyword, in the order of the tests,
      that either holds another alternative (throws) or a word outside the vocabulary
      (skips the signature) decides. */
  predicate GetThrows(sig: Signature) {
    var m := sig.patterns;
    ("nh" in m && !m["nh"].TextPattern?)
    || (!BadWord(sig, "nh") && "ht" in m && !m["ht"].TextPattern?)
    || (!BadWord(sig, "nh") && !BadWord(sig, "ht") && (
         ("mhl" in m && !m["mhl"].IntPattern?)
         || ("allowed_so_range" in m && !m["allowed_so_range"].RangePattern?)))
  }

  predicate BadWord(sig: Signature, key: string) {
    key in sig.patterns && sig.patterns[key].TextPattern? &&
    if key == "nh" then NextHeaderNamed(sig.patterns[key].text).None?
    else FamilyNamed(sig.patterns[key].text).None?
  }

  // ---------------------------------------------------------------- counting

  /** The number of keywords whose test holds. */
  function CountHolding(sig: Signature, d: GeonetData, s: Surroundings): nat {
    var m := sig.patterns;
    (if "nh" in m && NhHolds(m["nh"], d) then 1 else 0)
    + (if "ht" in m && HtHolds(m["ht"], d) then 1 else 0)
    + (if "mhl" in m && MhlHolds(m["mhl"], d) then 1 else 0)
    + (if "allowed_so_range" in m && RangeHolds(m["allowed_so_range"], d, s) then 1 else 0)
  }

  /** Comparing the count with the number of stored keywords is a conjunction. */
  lemma CountingIsConjunction(sig: Signature, d: GeonetData, s: Surroundings)
    ensures CountHolding(sig, d, s) == |sig.patterns| <==> Matches(sig, d, s)
  {
    var m := sig.patterns;
    var holding := set k | k in m && KeyHolds(k, m[k], d, s);
    HoldingSize(sig, d, s, holding);
    assert holding <= m.Keys;
    assert |m| == |m.Keys|;
    if |holding| == |m.Keys| {
      SubsetOfSameSize(holding, m.Keys);
    }
    if Matches(sig, d, s) {
      assert holding == m.Keys;
    }
  }

  lemma HoldingSize(sig: Signature, d: GeonetData, s: Surroundings, holding: set<string>)
    requires holding == set k | k in sig.patterns && KeyHolds(k, sig.patterns[k], d, s)
    ensures |holding| == CountHolding(sig, d, s)
  {
    KeywordsDiffer();
    assert holding <= {"nh", "ht", "mhl", "allowed_so_range"};
    SizeByFour(holding, "nh", "ht", "mhl", "allowed_so_range");
    MembersHold(sig, d, s, holding);
    hide *;
    CountUnfolds(sig, d, s);
  }

  lemma MembersHold(sig: Signature, d: GeonetData, s: Surroundings, holding: set<string>)
    requires holding == set k | k in sig.patterns && KeyHolds(k, sig.patterns[k], d, s)
    ensures "nh" in holding <==> "nh" in sig.patterns && NhHolds(sig.patterns["nh"], d)
    ensures "ht" in holding <==> "ht" in sig.patterns && HtHolds(sig.patterns["ht"], d)
    ensures "mhl" in holding <==> "mhl" in sig.patterns && MhlHolds(sig.patterns["mhl"], d)
    ensures "allowed_so_range" in holding <==>
      "allowed_so_range" in sig.patterns && RangeHolds(sig.patterns["allowed_so_range"], d, s)
  {
    KeywordsDiffer();
  }

  lemma SizeByFour<T>(s: set<T>, w: T, x: T, y: T, z: T)
    requires w != x && w != y && w != z && x != y && x != z && y != z
    requires s <= {w, x, y, z}
    ensures |s| == (if w in s then 1 else 0) + (if x in s then 1 else 0)
      + (if y in s then 1 else 0) + (if z in s then 1 else 0)
  {
    RemoveOne(s, w);
    RemoveOne(s - {w}, x);
    RemoveOne(s - {w} - {x}, y);
    RemoveOne(s - {w} - {x} - {y}, z);
    assert s - {w} - {x} - {y} - {z} == {};
  }

  lemma RemoveOne<T>(s: set<T>, x: T)
    ensures |s| == |s - {x}| + if x in s then 1 else 0
  {
    if x in s {
      assert s == (s - {x}) + {x};
    } else {
      assert s == s - {x};
    }
  }

  lemma KeywordsDiffer()
    ensures "nh" != "ht" && "nh" != "mhl" && "nh" != "allowed_so_range"
    ensures "ht" != "mhl" && "ht" != "allowed_so_range" && "mhl" != "allowed_so_range"
  {
    assert "nh"[0] != "ht"[0];
    assert |"mhl"| == 3 && |"allowed_so_range"| == 16;
  }

  lemma SubsetOfSameSize<T>(a: set<T>, b: set<T>)
    requires a <= b && |a| == |b|
    ensures a == b
  {
    assert b == a + (b - a);
    assert |b| == |a| + |b - a|;
  }

  // ---------------------------------------------------------------- the detector

  class GeonetDetector {
    const data: GeonetData
    const surroundings: Surroundings

    constructor (data: GeonetData, surroundings: Surroundings)
      ensures this.data == data && this.surroundings == surroundings
    {
      this.data, this.surroundings := data, surroundings;
    }

    method TransformNh(word: string, nh0: NextHeaderBasic) returns (st: TransformStatus, nh: NextHeaderBasic)
      ensures NextHeaderNamed(word) == if st == TransformSuccess then Some(nh) else None
      ensures st == TransformError ==> nh == nh0
    {
      if word == "common" {
        st, nh := TransformSuccess, CommonNext;
      } else if word == "secure" {
        st, nh := TransformSuccess, SecuredNext;
      } else {
        st, nh := TransformError, nh0;
      }
    }

    method TransformHt(word: string, ht0: bv8) returns (st: TransformStatus, ht: bv8)
      ensures FamilyNamed(word) == if st == TransformSuccess then Some(ht >> 4) else None
      ensures st == TransformError ==> ht == ht0
    {
      if word == "TSB" {
        st, ht := TransformSuccess, HT_TSB_MULTI_HOP;
      } else if word == "SHB" {
        st, ht := TransformSuccess, HT_TSB_SINGLE_HOP;
      } else if word == "GBC" {
        st, ht := TransformSuccess, HT_GBC_CIRCLE | HT_GBC_RECT | HT_GBC_ELIP;
      } else {
        st, ht := TransformError, ht0;
      }
    }

    /** Reports, in order and with multiplicity, the signatures all of whose keywords
        hold; fails if extracting a pattern throws. */
    method Detect(signatures: seq<Signature>) returns (r: DetectOutcome)
      ensures r.BadGet? <==> exists i :: 0 <= i < |signatures| && GetThrows(signatures[i])
      ensures r.Report? ==> r.sigs == Matching(signatures, data, surroundings)
    {
      var matched: seq<Signature> := [];
      var i := 0;
      while i < |signatures|
        invariant 0 <= i <= |signatures|
        invariant forall j :: 0 <= j < i ==> !GetThrows(signatures[j])
        invariant matched == Matching(signatures[..i], data, surroundings)
      {
        hide Matches, GetThrows, Matching;
        var sig := signatures[i];
        MatchingLast(signatures[..i], sig, data, surroundings);
        assert signatures[..i + 1] == signatures[..i] + [sig];
        var verdict := CountKeywords(sig);
        if verdict == GetThrew { return BadGet; }
        if verdict == FullCount {
          matched := matched + [sig];
        }
        i := i + 1;
      }
      assert signatures[..i] == signatures;
      r := Report(matched);
    }

    /** One turn of the loop. A word outside its vocabulary skips the signature. */
    method CountKeywords(sig: Signature) returns (r: CountVerdict)
      ensures r == GetThrew <==> GetThrows(sig)
      ensures r == FullCount <==> !GetThrows(sig) && Matches(sig, data, surroundings)
    {
      var count := 0;
      ghost var m := sig.patterns;
      CountingIsConjunction(sig, data, surroundings);
      hide CountHolding;
      hide Matches;
      if "nh" in sig.patterns {
        if !sig.patterns["nh"].TextPattern? { return GetThrew; }
        var st, nh := TransformNh(sig.patterns["nh"].text, AnyNext);
        if st != TransformSuccess {
          SkippedDoesNotMatch(sig, data, surroundings, "nh");
          return Skipped;
        }
        if nh == data.nextHeader { count := count + 1; }
      }
      assert count == if "nh" in m && NhHolds(m["nh"], data) then 1 else 0;
      if "ht" in sig.patterns {
        if !sig.patterns["ht"].TextPattern? { return GetThrew; }
        var st, ht := TransformHt(sig.patterns["ht"].text, 0);
        if st != TransformSuccess {
          SkippedDoesNotMatch(sig, data, surroundings, "ht");
          return Skipped;
        }
        if ht >> 4 == data.headerType >> 4 { count := count + 1; }
      }
      ghost var afterHt := count;
      if "mhl" in sig.patterns {
        if !sig.patterns["mhl"].IntPattern? { return GetThrew; }
        if sig.patterns["mhl"].number <= data.maximumHopLimit { count := count + 1; }
      }
      if "allowed_so_range" in sig.patterns {
        if !sig.patterns["allowed_so_range"].RangePattern? { return GetThrew; }
        var range := sig.patterns["allowed_so_range"];
        match range.shape {
          case Circle =>
            if !surroundings.isWithin(data.sourcePosition, surroundings.ego, range.distanceA) { count := count + 1; }
        }
      }
      assert count == CountHolding(sig, data, surroundings) by { CountUnfolds(sig, data, surroundings); }
      r := if count == |sig.patterns| then FullCount else PartialCount;
    }
  }

  datatype CountVerdict = GetThrew | Skipped | PartialCount | FullCount

  lemma CountUnfolds(sig: Signature, d: GeonetData, s: Surroundings)
    ensures CountHolding(sig, d, s) ==
      (if "nh" in sig.patterns && NhHolds(sig.patterns["nh"], d) then 1 else 0)
      + (if "ht" in sig.patterns && HtHolds(sig.patterns["ht"], d) then 1 else 0)
      + (if "mhl" in sig.patterns && MhlHolds(sig.patterns["mhl"], d) then 1 else 0)
      + (if "allowed_so_range" in sig.patterns && RangeHolds(sig.patterns["allowed_so_range"], d, s) then 1 else 0)
  {}

  lemma SkippedDoesNotMatch(sig: Signature, d: GeonetData, s: Surroundings, key: string)
    requires key in sig.patterns && !KeyHolds(key, sig.patterns[key], d, s)
    ensures !Matches(sig, d, s)
  {}

  // ---------------------------------------------------------------- against the manual

  /** The manual promises a match when the hop limit is larger than the rule's; the code
      also matches equality, and the two agree exactly off it. */
  lemma MhlAgainstManual(m: int, d: GeonetData)
    ensures (MhlHolds(IntPattern(m), d) <==> m < d.maximumHopLimit as int) <==> m != d.maximumHopLimit as int
  {}

  /** The manual promises one forwarding scheme per word. The words for multi-hop and
      single-hop broadcast match the same packets, so each is right exactly when the
      packet is not of the other kind. */
  lemma HtAgainstManual(d: GeonetData)
    requires d.headerType >> 4 == 5 ==> d.headerType == HT_TSB_MULTI_HOP || d.headerType == HT_TSB_SINGLE_HOP
    ensures HtHolds(TextPattern("TSB"), d) <==> HtHolds(TextPattern("SHB"), d)
    ensures (HtHolds(TextPattern("TSB"), d) <==> d.headerType == HT_TSB_MULTI_HOP)
      <==> d.headerType != HT_TSB_SINGLE_HOP
    ensures (HtHolds(TextPattern("SHB"), d) <==> d.headerType == HT_TSB_SINGLE_HOP)
      <==> d.headerType != HT_TSB_MULTI_HOP
    ensures HtHolds(TextPattern("GBC"), d) <==> 0x40 <= d.headerType <= 0x4F
  {
    assert d.headerType >> 4 == 4 <==> 0x40 <= d.headerType <= 0x4F;
  }

  // ---------------------------------------------------------------- in literal terms

  /** What each keyword tests: the next header, the upper half of the header type, the hop
      limit, and that the source does not lie within the first distance of the own position.
      A destination area is never satisfied. */
  lemma KeywordsTest(d: GeonetData, s: Surroundings, n: int, a: int, b: int)
    ensures KeyHolds("nh", TextPattern("common"), d, s) <==> d.nextHeader == CommonNext
    ensures KeyHolds("nh", TextPattern("secure"), d, s) <==> d.nextHeader == SecuredNext
    ensures KeyHolds("ht", TextPattern("GBC"), d, s) <==> 0x40 <= d.headerType <= 0x4F
    ensures KeyHolds("ht", TextPattern("TSB"), d, s) <==> 0x50 <= d.headerType <= 0x5F
    ensures KeyHolds("ht", TextPattern("SHB"), d, s) <==> 0x50 <= d.headerType <= 0x5F
    ensures KeyHolds("mhl", IntPattern(n), d, s) <==> n <= d.maximumHopLimit
    ensures KeyHolds("allowed_so_range", RangePattern(Circle, a, b), d, s) <==> !s.isWithin(d.sourcePosition, s.ego, a)
    ensures !KeyHolds("destination_area", AreaPattern(a, b), d, s)
  {
    KeywordsDiffer();
    WordsDiffer();
    assert d.headerType >> 4 == 4 <==> 0x40 <= d.headerType <= 0x4F;
    assert d.headerType >> 4 == 5 <==> 0x50 <= d.headerType <= 0x5F;
  }

  lemma WordsDiffer()
    ensures "common" != "secure" && "GBC" != "TSB" && "GBC" != "SHB" && "TSB" != "SHB"
    ensures "destination_area" !in {"nh", "ht", "mhl", "allowed_so_range"}
  {
    assert "common"[0] == 'c' && "secure"[0] == 's' && "GBC"[0] == 'G' && "TSB"[0] == 'T' && "SHB"[0] == 'S';
    assert "destination_area"[0] == 'd' && "nh"[0] == 'n' && "ht"[0] == 'h' && "mhl"[0] == 'm';
    assert "allowed_so_range"[0] == 'a';
  }
}
