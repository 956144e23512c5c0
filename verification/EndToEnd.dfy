/** From the text of the rule file to the frames on the other link. */
module EndToEnd {
  import opened Base
  import opened Yaml
  import opened Signatures
  import opened PatternReading
  import opened RuleReading
  import opened RuleAcceptance
  import opened Detection
  import opened GeonetDecoding
  import opened GeonetDetection
  import opened MessageHandling
  import opened Bridge

  // ---------------------------------------------------------------- rules as text

  /** The facts about a packet the keywords speak of. */
  datatype Facts = Facts(nextHeader: NextHeaderBasic, headerType: bv8, maximumHopLimit: Byte, source: Position)

  /** The facts as the headers state them. */
  function FactsOf(f: ParsedFrame): Facts
    requires HasSource(f)
  {
    Facts(f.basic.value.nextHeader, f.common.value.headerType, f.common.value.maximumHopLimit, SourceOf(f))
  }

  /** The facts as the matcher sees them, stated by a header or not. */
  function FactsIn(d: GeonetData): Facts {
    Facts(d.nextHeader, d.headerType, d.maximumHopLimit, d.sourcePosition)
  }

  lemma FactsAreStated(f: ParsedFrame, d: GeonetData)
    requires HasSource(f) && IsFreshData(d)
    ensures FactsIn(Decoded(d, f)) == FactsOf(f)
  {
    AssignsBeforeUse(f, d, d);
  }

  predicate IsDropRule(rule: Node) {
    Child(rule, "action").Scalar? && Lower(Child(rule, "action").text) == "drop" && IsGeonetRule(rule)
  }

  predicate IsGeonetRule(rule: Node) {
    Child(rule, "protocol").Scalar? && Lower(Child(rule, "protocol").text) in {"geonetworking", "geonet"}
  }

  predicate NhFires(c: Conversions, rule: Node, x: Facts) {
    var node := Child(rule, "nh");
    node.Undefined?
    || (AsText(c, node) == Some("common") && x.nextHeader == CommonNext)
    || (AsText(c, node) == Some("secure") && x.nextHeader == SecuredNext)
  }

  predicate HtFires(c: Conversions, rule: Node, x: Facts) {
    var node := Child(rule, "ht");
    node.Undefined?
    || (AsText(c, node) == Some("GBC") && 0x40 <= x.headerType <= 0x4F)
    || (AsText(c, node) in {Some("TSB"), Some("SHB")} && 0x50 <= x.headerType <= 0x5F)
  }

  predicate MhlFires(c: Conversions, rule: Node, x: Facts) {
    var node := Child(rule, "mhl");
    node.Undefined? || (AsInt(c, node).Some? && AsInt(c, node).value <= x.maximumHopLimit)
  }

  predicate RangeFires(c: Conversions, rule: Node, x: Facts, s: Surroundings) {
    var node := Child(rule, "allowed_so_range");
    node.Undefined?
    || (AsInt(c, Child(node, "distance_a")).Some?
        && !s.isWithin(x.source, s.ego, AsInt(c, Child(node, "distance_a")).value))
  }

  /** A rule fires when every keyword it gives is satisfied; one that gives a
      destination area never does. */
  predicate RuleFires(c: Conversions, rule: Node, x: Facts, s: Surroundings) {
    && NhFires(c, rule, x) && HtFires(c, rule, x) && MhlFires(c, rule, x) && RangeFires(c, rule, x, s)
    && Child(rule, "destination_area").Undefined?
  }

  /** The rules in force: the longest prefix of the file without a faulty rule. */
  function RulesInForce(c: Conversions, file: Option<Node>): (r: seq<Node>)
    ensures AreAccepted(c, r)
  {
    var rules := RuleList(file).1;
    rules[..CleanPrefix(c, rules)]
  }

  // ---------------------------------------------------------------- what the reader guarantees

  /** Every GeoNetworking signature the reader stores holds, per keyword, what the
      matcher extracts. */
  lemma AcceptedIsWellTyped(c: Conversions, rule: Node)
    requires ParseRule(c, rule).Accepted?
    ensures WellTyped(ParseRule(c, rule).sig)
  {
    hide WellTyped;
    var sig := ParseRule(c, rule).sig;
    if sig.protocol == GeoNetworking {
      StoredIsRead(c, rule, GEONET_KEYWORDS, "nh");
      StoredIsRead(c, rule, GEONET_KEYWORDS, "ht");
      StoredIsRead(c, rule, GEONET_KEYWORDS, "mhl");
      StoredIsRead(c, rule, GEONET_KEYWORDS, "destination_area");
      StoredIsRead(c, rule, GEONET_KEYWORDS, "allowed_so_range");
      ReadingsAreTyped(c, rule);
      assert sig.patterns == StoredPatterns(c, rule, GEONET_KEYWORDS);
    } else {
      assert sig.patterns == map[];
    }
    hide *;
    TypedByParts(sig);
  }

  lemma TypedByParts(sig: Signature)
    requires "nh" in sig.patterns ==> sig.patterns["nh"].TextPattern? && sig.patterns["nh"].text in NH_WORDS
    requires "ht" in sig.patterns ==> sig.patterns["ht"].TextPattern? && sig.patterns["ht"].text in HT_WORDS
    requires "mhl" in sig.patterns ==> sig.patterns["mhl"].IntPattern?
    requires "allowed_so_range" in sig.patterns ==> sig.patterns["allowed_so_range"].RangePattern?
    requires "destination_area" in sig.patterns ==> sig.patterns["destination_area"].AreaPattern?
    ensures WellTyped(sig)
  {}

  lemma ReadingsAreTyped(c: Conversions, rule: Node)
    ensures var r := KeywordReading(c, rule, "nh");
      r.Value? ==> r.pattern.TextPattern? && r.pattern.text in NH_WORDS
    ensures var r := KeywordReading(c, rule, "ht");
      r.Value? ==> r.pattern.TextPattern? && r.pattern.text in HT_WORDS
    ensures var r := KeywordReading(c, rule, "mhl"); r.Value? ==> r.pattern.IntPattern?
    ensures var r := KeywordReading(c, rule, "destination_area"); r.Value? ==> r.pattern.AreaPattern?
    ensures var r := KeywordReading(c, rule, "allowed_so_range"); r.Value? ==> r.pattern.RangePattern?
  {
    KeywordsDiffer();
    assert |"destination_area"| == 16 && "destination_area"[0] != "allowed_so_range"[0];
  }

  /** On well-typed signatures no extraction throws and no word is skipped over. */
  lemma WellTypedNeverThrows(sig: Signature)
    requires WellTyped(sig)
    ensures !GetThrows(sig) && !BadWord(sig, "nh") && !BadWord(sig, "ht")
  {}

  // ---------------------------------------------------------------- one rule: stored form against text

  lemma MatchesByKeyword(sig: Signature, d: GeonetData, s: Surroundings)
    requires forall k :: k in sig.patterns ==> k in GEONET_KEYWORDS
    ensures Matches(sig, d, s) <==>
      && ("nh" in sig.patterns ==> NhHolds(sig.patterns["nh"], d))
      && ("ht" in sig.patterns ==> HtHolds(sig.patterns["ht"], d))
      && ("mhl" in sig.patterns ==> MhlHolds(sig.patterns["mhl"], d))
      && ("allowed_so_range" in sig.patterns ==> RangeHolds(sig.patterns["allowed_so_range"], d, s))
      && "destination_area" !in sig.patterns
  {
    KeywordsDiffer();
    AreaKeyNeverHolds(sig, d, s);
    if Matches(sig, d, s) {
      assert forall k :: k in sig.patterns ==> KeyHolds(k, sig.patterns[k], d, s);
    }
  }

  lemma AreaKeyNeverHolds(sig: Signature, d: GeonetData, s: Surroundings)
    ensures "destination_area" in sig.patterns ==> !KeyHolds("destination_area", sig.patterns["destination_area"], d, s)
  {
    assert |"destination_area"| == 16 && "destination_area"[0] != "allowed_so_range"[0];
  }

  lemma NhAgrees(c: Conversions, rule: Node, d: GeonetData, x: Facts)
    requires !rule.Scalar? && x.nextHeader == d.nextHeader
    requires !KeywordReading(c, rule, "nh").Fault?
    ensures var r := KeywordReading(c, rule, "nh"); (r.Value? ==> NhHolds(r.pattern, d)) <==> NhFires(c, rule, x)
  {}

  lemma HtAgrees(c: Conversions, rule: Node, d: GeonetData, x: Facts)
    requires !rule.Scalar? && x.headerType == d.headerType
    requires !KeywordReading(c, rule, "ht").Fault?
    ensures var r := KeywordReading(c, rule, "ht"); (r.Value? ==> HtHolds(r.pattern, d)) <==> HtFires(c, rule, x)
  {
    HeaderFamilies(d.headerType);
    KeywordsDiffer();
  }

  /** The families in terms of the upper four bits. */
  lemma HeaderFamilies(h: bv8)
    ensures h >> 4 == 4 <==> 0x40 <= h <= 0x4F
    ensures h >> 4 == 5 <==> 0x50 <= h <= 0x5F
  {}

  lemma MhlAgrees(c: Conversions, rule: Node, d: GeonetData, x: Facts)
    requires !rule.Scalar? && x.maximumHopLimit == d.maximumHopLimit
    requires !KeywordReading(c, rule, "mhl").Fault?
    ensures var r := KeywordReading(c, rule, "mhl"); (r.Value? ==> MhlHolds(r.pattern, d)) <==> MhlFires(c, rule, x)
  {
    KeywordsDiffer();
  }

  lemma RangeAgrees(c: Conversions, rule: Node, d: GeonetData, x: Facts, s: Surroundings)
    requires !rule.Scalar? && x.source == d.sourcePosition
    requires !KeywordReading(c, rule, "allowed_so_range").Fault?
    ensures var r := KeywordReading(c, rule, "allowed_so_range");
      (r.Value? ==> RangeHolds(r.pattern, d, s)) <==> RangeFires(c, rule, x, s)
  {
    KeywordsDiffer();
    assert "destination_area"[0] != "allowed_so_range"[0];
  }

  /** The counting matcher on the stored signature decides what the text of the rule says. */
  lemma StoredMatchesText(c: Conversions, rule: Node, d: GeonetData, x: Facts, s: Surroundings)
    requires ParseRule(c, rule).Accepted? && IsGeonetRule(rule)
    requires x == Facts(d.nextHeader, d.headerType, d.maximumHopLimit, d.sourcePosition)
    ensures Matches(ParseRule(c, rule).sig, d, s) <==> RuleFires(c, rule, x, s)
  {
    var sig := ParseRule(c, rule).sig;
    var keys := GEONET_KEYWORDS;
    GeonetRuleIsStored(c, rule);
    SucceedsWithoutFaults(c, rule, keys);
    forall k
      ensures k in sig.patterns <==> k in keys && KeywordReading(c, rule, k).Value?
      ensures k in sig.patterns ==> sig.patterns[k] == KeywordReading(c, rule, k).pattern
    {
      StoredIsRead(c, rule, keys, k);
    }
    assert keys[0] == "nh" && keys[1] == "ht" && keys[2] == "mhl";
    assert keys[3] == "destination_area" && keys[4] == "allowed_so_range";
    hide *;
    MatchesByKeyword(sig, d, s);
    NhAgrees(c, rule, d, x);
    HtAgrees(c, rule, d, x);
    MhlAgrees(c, rule, d, x);
    RangeAgrees(c, rule, d, x, s);
    AreaIsStored(c, rule);
    FiresByParts(c, rule, x, s);
  }

  lemma GeonetRuleIsStored(c: Conversions, rule: Node)
    requires ParseRule(c, rule).Accepted?
    ensures IsGeonetRule(rule) <==> ParseRule(c, rule).sig.protocol == GeoNetworking
    ensures IsGeonetRule(rule) ==>
      !rule.Scalar? && FirstFault(c, rule, GEONET_KEYWORDS) == Success
      && ParseRule(c, rule).sig.patterns == StoredPatterns(c, rule, GEONET_KEYWORDS)
    ensures IsDropRule(rule) <==> IsGeonetRule(rule) && ParseRule(c, rule).sig.action != Alert
  {
    ProtocolWordsOfGeonet(Child(rule, "protocol").text);
  }

  lemma ProtocolWordsOfGeonet(word: string)
    ensures ProtocolNamed(word) == GeoNetworking <==> Lower(word) in {"geonetworking", "geonet"}
  {}

  lemma AreaIsStored(c: Conversions, rule: Node)
    requires !rule.Scalar? && !KeywordReading(c, rule, "destination_area").Fault?
    ensures KeywordReading(c, rule, "destination_area").Value? <==> !Child(rule, "destination_area").Undefined?
  {
    KeywordsDiffer();
    assert |"destination_area"| == 16;
  }

  lemma FiresByParts(c: Conversions, rule: Node, x: Facts, s: Surroundings)
    ensures RuleFires(c, rule, x, s) <==>
      NhFires(c, rule, x) && HtFires(c, rule, x) && MhlFires(c, rule, x) && RangeFires(c, rule, x, s)
      && Child(rule, "destination_area").Undefined?
  {}

  // ---------------------------------------------------------------- the whole file

  /** Membership in a collected vector. */
  lemma {:induction false} CollectedMembers(c: Conversions, rules: seq<Node>, p: Protocol, sig: Signature)
    requires AreAccepted(c, rules)
    ensures sig in Collected(c, rules, p) <==>
      (p == GeoNetworking || p == Facility) && sig.protocol == p
      && exists i :: 0 <= i < |rules| && ParseRule(c, rules[i]).sig == sig
  {
    hide ParseRule;
    if rules != [] {
      var n := |rules| - 1;
      CollectedMembers(c, rules[..n], p, sig);
      var last := ParseRule(c, rules[n]).sig;
      var before := Collected(c, rules[..n], p);
      assert Collected(c, rules, p) == before + if last.protocol == p && IsStored(p) then [last] else [];
      if exists i :: 0 <= i < n && ParseRule(c, rules[..n][i]).sig == sig {
        var i :| 0 <= i < n && ParseRule(c, rules[..n][i]).sig == sig;
        assert ParseRule(c, rules[i]).sig == sig;
      }
      if exists i :: 0 <= i < |rules| && ParseRule(c, rules[i]).sig == sig {
        var i :| 0 <= i < |rules| && ParseRule(c, rules[i]).sig == sig;
        assert i < n ==> ParseRule(c, rules[..n][i]).sig == sig;
      }
    }
  }

  /** Some rule in force that drops fires. */
  predicate SomeDropRuleFires(c: Conversions, rules: seq<Node>, x: Facts, s: Surroundings) {
    exists i :: 0 <= i < |rules| && IsDropRule(rules[i]) && RuleFires(c, rules[i], x, s)
  }

  /** The stored vector condemns a packet exactly when the text does. */
  lemma CondemnedByText(c: Conversions, rules: seq<Node>, d: GeonetData, x: Facts, s: Surroundings)
    requires AreAccepted(c, rules)
    requires x == Facts(d.nextHeader, d.headerType, d.maximumHopLimit, d.sourcePosition)
    ensures Condemned(Collected(c, rules, GeoNetworking), d, s) <==> SomeDropRuleFires(c, rules, x, s)
  {
    hide ParseRule;
    hide RuleFires;
    hide IsDropRule;
    hide IsGeonetRule;
    hide Matches;
    var sigs := Collected(c, rules, GeoNetworking);
    if Condemned(sigs, d, s) {
      var k :| 0 <= k < |sigs| && Matches(sigs[k], d, s) && sigs[k].action != Alert;
      assert sigs[k] in sigs;
      CollectedMembers(c, rules, GeoNetworking, sigs[k]);
      var i :| 0 <= i < |rules| && ParseRule(c, rules[i]).sig == sigs[k];
      GeonetRuleIsStored(c, rules[i]);
      StoredMatchesText(c, rules[i], d, x, s);
    }
    if SomeDropRuleFires(c, rules, x, s) {
      var i :| 0 <= i < |rules| && IsDropRule(rules[i]) && RuleFires(c, rules[i], x, s);
      var sig := ParseRule(c, rules[i]).sig;
      GeonetRuleIsStored(c, rules[i]);
      StoredMatchesText(c, rules[i], d, x, s);
      CollectedMembers(c, rules, GeoNetworking, sig);
      assert sig in sigs;
      var k :| 0 <= k < |sigs| && sigs[k] == sig;
    }
  }

  /** The reader's vector never makes the matcher throw. */
  lemma CollectedNeverThrows(c: Conversions, rules: seq<Node>)
    requires AreAccepted(c, rules)
    ensures forall k :: 0 <= k < |Collected(c, rules, GeoNetworking)| ==>
      WellTyped(Collected(c, rules, GeoNetworking)[k]) && !GetThrows(Collected(c, rules, GeoNetworking)[k])
  {
    hide ParseRule, GetThrows, WellTyped, Collected;
    var sigs := Collected(c, rules, GeoNetworking);
    forall k | 0 <= k < |sigs|
      ensures WellTyped(sigs[k]) && !GetThrows(sigs[k])
    {
      assert sigs[k] in sigs;
      CollectedMembers(c, rules, GeoNetworking, sigs[k]);
      var i :| 0 <= i < |rules| && ParseRule(c, rules[i]).sig == sigs[k];
      AcceptedIsWellTyped(c, rules[i]);
      WellTypedNeverThrows(sigs[k]);
    }
  }

  lemma {:induction false} SomeGeonetRuleCollected(c: Conversions, rules: seq<Node>)
    requires AreAccepted(c, rules)
    ensures Collected(c, rules, GeoNetworking) != [] <==> exists i :: 0 <= i < |rules| && IsGeonetRule(rules[i])
  {
    hide ParseRule;
    hide IsGeonetRule;
    var sigs := Collected(c, rules, GeoNetworking);
    if sigs != [] {
      assert sigs[0] in sigs;
      CollectedMembers(c, rules, GeoNetworking, sigs[0]);
      var i :| 0 <= i < |rules| && ParseRule(c, rules[i]).sig == sigs[0];
      GeonetRuleIsStored(c, rules[i]);
      assert IsGeonetRule(rules[i]);
    }
    if exists i :: 0 <= i < |rules| && IsGeonetRule(rules[i]) {
      var i :| 0 <= i < |rules| && IsGeonetRule(rules[i]);
      GeonetRuleIsStored(c, rules[i]);
      CollectedMembers(c, rules, GeoNetworking, ParseRule(c, rules[i]).sig);
    }
  }

  // ---------------------------------------------------------------- the verdict

  /** The configuration main builds from a rule file. */
  predicate Configured(cfg: Config, c: Conversions, file: Option<Node>) {
    cfg.table == Filled(c, map[], RulesInForce(c, file))
  }

  predicate SomeGeonetRule(c: Conversions, file: Option<Node>) {
    exists i :: 0 <= i < |RulesInForce(c, file)| && IsGeonetRule(RulesInForce(c, file)[i])
  }

  /** Foreign GeoNetworking frames that decode to a registered port if they are BTP. */
  predicate IsHandled(cfg: Config, bytes: Frame) {
    EthernetOf(bytes).Some? && IsForeign(cfg, EthernetOf(bytes).value) && !LacksParser(cfg.parsers, cfg.parse(bytes))
  }

  /** Those of them that decode through a header with a source position. */
  predicate IsProper(cfg: Config, bytes: Frame) {
    IsHandled(cfg, bytes) && HasSource(cfg.parse(bytes))
  }

  /** What the configured table is: the reader's vector, if there is a GeoNetworking rule. */
  lemma ConfiguredTable(cfg: Config, c: Conversions, file: Option<Node>)
    requires Configured(cfg, c, file)
    ensures Listed(cfg.table, GeoNetworking) == Collected(c, RulesInForce(c, file), GeoNetworking)
    ensures GeoNetworking in cfg.table <==> SomeGeonetRule(c, file)
    ensures !TableThrows(cfg.table)
  {
    hide ParseRule, GetThrows, IsGeonetRule, Filled;
    var rules := RulesInForce(c, file);
    FilledIsCollected(c, map[], rules, GeoNetworking);
    FilledWhenCollected(c, map[], rules, GeoNetworking);
    SomeGeonetRuleCollected(c, rules);
    CollectedNeverThrows(c, rules);
    assert [] + Collected(c, rules, GeoNetworking) == Collected(c, rules, GeoNetworking);
  }

  /** With at least one GeoNetworking rule in force, a foreign frame is forwarded exactly
      when no drop rule in force has all its keywords satisfied by the facts the matcher
      sees, be they stated or garbage. */
  lemma VerdictOnFacts(cfg: Config, c: Conversions, file: Option<Node>, bytes: Frame, ego: Position, g: Garbage)
    requires Configured(cfg, c, file) && IsHandled(cfg, bytes) && SomeGeonetRule(c, file)
    ensures Dispose(cfg, bytes, ego, g) ==
      if SomeDropRuleFires(c, RulesInForce(c, file), FactsIn(Decoded(g.data, cfg.parse(bytes))),
                           Surroundings(ego, cfg.isWithin))
      then Dropped else Forwarded
  {
    hide ParseRule, SomeGeonetRule, Condemned, SomeDropRuleFires, TableThrows, RulesInForce, Configured, Decoded;
    var rules := RulesInForce(c, file);
    var d := Decoded(g.data, cfg.parse(bytes));
    ConfiguredTable(cfg, c, file);
    CondemnedByText(c, rules, d, FactsIn(d), Surroundings(ego, cfg.isWithin));
  }

  /** End to end: with at least one GeoNetworking rule in force, a proper frame is
      forwarded exactly when no drop rule in force has all its keywords satisfied,
      whatever the uninitialised memory holds. */
  lemma VerdictFromText(cfg: Config, c: Conversions, file: Option<Node>, bytes: Frame, ego: Position, g: Garbage)
    requires Configured(cfg, c, file) && IsProper(cfg, bytes) && IsFreshData(g.data) && SomeGeonetRule(c, file)
    ensures Dispose(cfg, bytes, ego, g) ==
      if SomeDropRuleFires(c, RulesInForce(c, file), FactsOf(cfg.parse(bytes)), Surroundings(ego, cfg.isWithin))
      then Dropped else Forwarded
  {
    hide Dispose, SomeDropRuleFires, RulesInForce, FactsIn, FactsOf, Decoded;
    VerdictOnFacts(cfg, c, file, bytes, ego, g);
    FactsAreStated(cfg.parse(bytes), g.data);
  }

  /** Without a GeoNetworking rule in force nothing asks for a drop, and a foreign frame is
      forwarded exactly when the two variables nobody set happen to allow it. */
  lemma VerdictWithoutRules(cfg: Config, c: Conversions, file: Option<Node>, bytes: Frame, ego: Position, g: Garbage,
      x: Facts)
    requires Configured(cfg, c, file) && IsHandled(cfg, bytes) && !SomeGeonetRule(c, file)
    ensures !SomeDropRuleFires(c, RulesInForce(c, file), x, Surroundings(ego, cfg.isWithin))
    ensures Dispose(cfg, bytes, ego, g) == Forwarded <==> g.detected || g.report == AllowReport
  {
    hide ParseRule, TableThrows, RulesInForce, Configured, IsGeonetRule, RuleFires, Decoded;
    ConfiguredTable(cfg, c, file);
  }

  // ---------------------------------------------------------------- frames without a source

  /** A file with one rule: drop what comes from outside a circle. */
  function RangeFile(msg: string, sid: string, rev: string, radius: string): Node {
    Mapping(map["rules" := Sequence([RangeRule(msg, sid, rev, radius)])])
  }

  function RangeRule(msg: string, sid: string, rev: string, radius: string): Node {
    Mapping(map[
      "action" := Scalar("drop"),
      "protocol" := Scalar("geonet"),
      "meta" := Mapping(map["msg" := Scalar(msg), "sid" := Scalar(sid), "rev" := Scalar(rev)]),
      "allowed_so_range" := RangeNode(radius)])
  }

  function RangeNode(radius: string): Node {
    Mapping(map["shape" := Scalar("circle"), "distance_a" := Scalar(radius), "distance_b" := Scalar(radius)])
  }

  /** The numbers of the rule convert. */
  predicate Converts(c: Conversions, sid: string, rev: string, radius: string, n: int) {
    c.toUint32(sid).Some? && c.toUint16(rev).Some? && c.toInt(radius) == Some(n)
  }

  lemma RuleWordsDiffer()
    ensures forall k :: k in GEONET_KEYWORDS ==> k !in {"action", "protocol", "meta"}
    ensures "action" != "protocol" && "action" != "meta" && "protocol" != "meta"
    ensures "msg" != "sid" && "msg" != "rev" && "sid" != "rev"
    ensures "shape" != "distance_a" && "shape" != "distance_b" && "distance_a" != "distance_b"
    ensures "allowed_so_range" !in {"nh", "ht", "mhl", "destination_area", "action", "protocol", "meta"}
  {
    assert |"action"| == 6 && |"protocol"| == 8 && |"meta"| == 4;
    assert "msg"[0] == 'm' && "sid"[0] == 's' && "rev"[0] == 'r';
    assert |"shape"| == 5 && "distance_a"[9] == 'a' && "distance_b"[9] == 'b' && |"distance_a"| == 10;
    assert |"nh"| == 2 && |"ht"| == 2 && |"mhl"| == 3;
    assert "destination_area"[0] == 'd' && "allowed_so_range"[0] == 'a' && |"allowed_so_range"| == 16;
  }

  lemma LowerWords()
    ensures Lower("drop") == "drop" && Lower("geonet") == "geonet" && Lower("circle") == "circle"
  {
    LowerKeeps("drop");
    LowerKeeps("geonet");
    LowerKeeps("circle");
  }

  lemma LowerKeeps(word: string)
    requires forall i :: 0 <= i < |word| ==> !('A' <= word[i] <= 'Z')
    ensures Lower(word) == word
  {
  }

  lemma RangeRuleReads(c: Conversions, msg: string, sid: string, rev: string, radius: string, n: int, key: string)
    requires Converts(c, sid, rev, radius, n) && key in GEONET_KEYWORDS
    ensures KeywordReading(c, RangeRule(msg, sid, rev, radius), key)
      == if key == "allowed_so_range" then Reading.Value(RangePattern(Circle, n, n)) else Absent
  {
    RuleWordsDiffer();
    KeywordsDiffer();
    LowerWords();
  }

  lemma RangeRuleHasSoundHead(c: Conversions, msg: string, sid: string, rev: string, radius: string, n: int)
    requires Converts(c, sid, rev, radius, n)
    ensures HeadFault(c, RangeRule(msg, sid, rev, radius)).None?
    ensures IsDropRule(RangeRule(msg, sid, rev, radius))
  {
    RuleWordsDiffer();
    LowerWords();
  }

  lemma RangeRuleIsInForce(c: Conversions, msg: string, sid: string, rev: string, radius: string, n: int)
    requires Converts(c, sid, rev, radius, n)
    ensures RulesInForce(c, Some(RangeFile(msg, sid, rev, radius))) == [RangeRule(msg, sid, rev, radius)]
    ensures SomeGeonetRule(c, Some(RangeFile(msg, sid, rev, radius)))
  {
    var rule := RangeRule(msg, sid, rev, radius);
    var file := Some(RangeFile(msg, sid, rev, radius));
    RangeRuleHasSoundHead(c, msg, sid, rev, radius, n);
    forall k | k in GEONET_KEYWORDS
      ensures !KeywordReading(c, rule, k).Fault?
    {
      RangeRuleReads(c, msg, sid, rev, radius, n, k);
    }
    hide KeywordReading, HeadFault, RangeRule, Lower;
    SucceedsWithoutFaults(c, rule, GEONET_KEYWORDS);
    assert ParseRule(c, rule).Accepted?;
    CleanPrefixIsUnique(c, [rule], 1);
    assert RuleList(file).1 == [rule];
    assert IsGeonetRule(RulesInForce(c, file)[0]);
  }

  lemma RangeRuleFires(c: Conversions, msg: string, sid: string, rev: string, radius: string, n: int,
      x: Facts, s: Surroundings)
    requires Converts(c, sid, rev, radius, n)
    ensures RuleFires(c, RangeRule(msg, sid, rev, radius), x, s) <==> !s.isWithin(x.source, s.ego, n)
  {
    RuleWordsDiffer();
    KeywordsDiffer();
  }

  /** The verdict under that rule: the source position the matcher sees decides. */
  lemma VerdictUnderRangeRule(cfg: Config, c: Conversions, msg: string, sid: string, rev: string, radius: string,
      n: int, bytes: Frame, ego: Position, g: Garbage)
    requires Converts(c, sid, rev, radius, n) && Configured(cfg, c, Some(RangeFile(msg, sid, rev, radius)))
    requires IsHandled(cfg, bytes)
    ensures Dispose(cfg, bytes, ego, g) ==
      if cfg.isWithin(Decoded(g.data, cfg.parse(bytes)).sourcePosition, ego, n) then Forwarded else Dropped
  {
    hide RulesInForce, Configured, RangeRule, RangeFile, RuleFires, Dispose, Decoded, IsDropRule, IsHandled;
    var file, rule := Some(RangeFile(msg, sid, rev, radius)), RangeRule(msg, sid, rev, radius);
    var x, s := FactsIn(Decoded(g.data, cfg.parse(bytes))), Surroundings(ego, cfg.isWithin);
    RangeRuleIsInForce(c, msg, sid, rev, radius, n);
    RangeRuleHasSoundHead(c, msg, sid, rev, radius, n);
    VerdictOnFacts(cfg, c, file, bytes, ego, g);
    RangeRuleFires(c, msg, sid, rev, radius, n, x, s);
    assert SomeDropRuleFires(c, [rule], x, s) <==> RuleFires(c, rule, x, s) by {
      assert [rule][0] == rule;
    }
  }

  /** Uninitialised memory never decides a frame exactly when its headers state a source
      position: for any other, such as a beacon, one rule file yields both verdicts as soon
      as the geodesy test separates two positions. */
  lemma VerdictIsSettledIffSource(cfg: Config, c: Conversions, msg: string, sid: string, rev: string, radius: string,
      n: int, bytes: Frame, ego: Position, p: Position, q: Position)
    requires Converts(c, sid, rev, radius, n) && Configured(cfg, c, Some(RangeFile(msg, sid, rev, radius)))
    requires IsHandled(cfg, bytes) && cfg.isWithin(p, ego, n) && !cfg.isWithin(q, ego, n)
    ensures HasSource(cfg.parse(bytes)) <==>
      forall g: Garbage, h: Garbage :: IsFreshData(g.data) && IsFreshData(h.data) ==>
        Dispose(cfg, bytes, ego, g) == Dispose(cfg, bytes, ego, h)
  {
    hide Dispose, Configured, IsHandled;
    var f := cfg.parse(bytes);
    if HasSource(f) {
      forall g: Garbage, h: Garbage | IsFreshData(g.data) && IsFreshData(h.data)
        ensures Dispose(cfg, bytes, ego, g) == Dispose(cfg, bytes, ego, h)
      {
        AssignsBeforeUse(f, g.data, h.data);
        VerdictUnderRangeRule(cfg, c, msg, sid, rev, radius, n, bytes, ego, g);
        VerdictUnderRangeRule(cfg, c, msg, sid, rev, radius, n, bytes, ego, h);
      }
    } else {
      var g := Garbage(BlankData(AnyNext, 0, 0, p), 0, false, AllowReport);
      var h := Garbage(BlankData(AnyNext, 0, 0, q), 0, false, AllowReport);
      VerdictUnderRangeRule(cfg, c, msg, sid, rev, radius, n, bytes, ego, g);
      VerdictUnderRangeRule(cfg, c, msg, sid, rev, radius, n, bytes, ego, h);
      assert Dispose(cfg, bytes, ego, g) != Dispose(cfg, bytes, ego, h);
    }
  }

  // ---------------------------------------------------------------- alerts

  /** The lines the text calls for: one for each rule that fires, in file order, with its
      message, identifiers and action. */
  function TextAlerts(c: Conversions, rules: seq<Node>, x: Facts, s: Surroundings): seq<LogLine>
    requires AreAccepted(c, rules)
  {
    if rules == [] then []
    else
      var last := rules[|rules| - 1];
      TextAlerts(c, rules[..|rules| - 1], x, s)
        + if IsGeonetRule(last) && RuleFires(c, last, x, s) then [AlertFor(c, last)] else []
  }

  function AlertFor(c: Conversions, rule: Node): LogLine
    requires ParseRule(c, rule).Accepted?
  {
    AlertLine(MetaReading(c, Child(rule, "meta")).1, if IsDropRule(rule) then Drop else Alert, GeoNetworking)
  }

  /** The line in literal terms: message, identifier and revision of the text, "drop" if that
      is its action. */
  lemma AlertIsStated(c: Conversions, rule: Node)
    requires ParseRule(c, rule).Accepted? && IsGeonetRule(rule)
    ensures IsSoundRule(c, rule)
    ensures var meta, action := Child(rule, "meta"), Child(rule, "action");
      AlertFor(c, rule) == AlertLine(
        MetaData(Child(meta, "msg").text, c.toUint32(Child(meta, "sid").text).value,
                 c.toUint16(Child(meta, "rev").text).value),
        if Lower(action.text) == "drop" then Drop else Alert, GeoNetworking)
  {
    hide ParseRule, IsSoundRule;
    AcceptedIffSound(c, rule);
    SoundRuleShape(c, rule);
    LineIsAlert(c, rule);
    AcceptedHead(c, rule);
  }

  lemma SoundRuleShape(c: Conversions, rule: Node)
    requires IsSoundRule(c, rule)
    ensures Child(rule, "action").Scalar? && Child(rule, "protocol").Scalar? && Child(rule, "meta").Mapping?
    ensures var meta := Child(rule, "meta");
      Child(meta, "msg").Scalar? && Child(meta, "sid").Scalar? && Child(meta, "rev").Scalar?
      && c.toUint32(Child(meta, "sid").text).Some? && c.toUint16(Child(meta, "rev").text).Some?
  {
  }

  lemma LineIsAlert(c: Conversions, rule: Node)
    requires ParseRule(c, rule).Accepted? && IsGeonetRule(rule)
    ensures LineFor(ParseRule(c, rule).sig) == AlertFor(c, rule)
  {
    GeonetRuleIsStored(c, rule);
  }

  lemma {:induction false} CollectedAlerts(c: Conversions, rules: seq<Node>, d: GeonetData, x: Facts, s: Surroundings)
    requires AreAccepted(c, rules)
    requires x == Facts(d.nextHeader, d.headerType, d.maximumHopLimit, d.sourcePosition)
    ensures LinesFor(Matching(Collected(c, rules, GeoNetworking), d, s)) == TextAlerts(c, rules, x, s)
  {
    hide ParseRule, RuleFires, IsGeonetRule, IsDropRule, Matches, Matching, AlertFor, LineFor;
    if rules != [] {
      var before, last := rules[..|rules| - 1], rules[|rules| - 1];
      var sigs, sig := Collected(c, before, GeoNetworking), ParseRule(c, last).sig;
      CollectedAlerts(c, before, d, x, s);
      GeonetRuleIsStored(c, last);
      if IsGeonetRule(last) {
        assert Collected(c, rules, GeoNetworking) == sigs + [sig];
        StoredMatchesText(c, last, d, x, s);
        LineIsAlert(c, last);
        MatchingLast(sigs, sig, d, s);
        LinesLast(Matching(sigs, d, s), sig);
      } else {
        assert Collected(c, rules, GeoNetworking) == sigs + [];
        assert sigs + [] == sigs;
      }
      assert Matching(sigs, d, s) + [] == Matching(sigs, d, s);
      assert TextAlerts(c, before, x, s) + [] == TextAlerts(c, before, x, s);
    } else {
      MatchingNone(d, s);
    }
  }

  lemma LinesLast(sigs: seq<Signature>, last: Signature)
    ensures LinesFor(sigs + [last]) == LinesFor(sigs) + [LineFor(last)]
  {
    assert (sigs + [last])[..|sigs|] == sigs;
  }

  /** What is logged for a foreign frame is what the text calls for on the facts the matcher
      sees. */
  lemma AlertsOnFacts(cfg: Config, c: Conversions, file: Option<Node>, bytes: Frame, ego: Position, g: Garbage)
    requires Configured(cfg, c, file) && IsHandled(cfg, bytes)
    ensures AlertsOf(cfg, ReadBytes(bytes, ego, g))
      == TextAlerts(c, RulesInForce(c, file), FactsIn(Decoded(g.data, cfg.parse(bytes))),
                    Surroundings(ego, cfg.isWithin))
  {
    hide ParseRule, Configured, RulesInForce, TextAlerts, LinesFor, Matching, TableThrows, IsCondemned, Decoded;
    var d := Decoded(g.data, cfg.parse(bytes));
    ConfiguredTable(cfg, c, file);
    CollectedAlerts(c, RulesInForce(c, file), d, FactsIn(d), Surroundings(ego, cfg.isWithin));
  }

  /** For a proper frame those are the facts its headers state. */
  lemma AlertsFromText(cfg: Config, c: Conversions, file: Option<Node>, bytes: Frame, ego: Position, g: Garbage)
    requires Configured(cfg, c, file) && IsProper(cfg, bytes) && IsFreshData(g.data)
    ensures AlertsOf(cfg, ReadBytes(bytes, ego, g))
      == TextAlerts(c, RulesInForce(c, file), FactsOf(cfg.parse(bytes)), Surroundings(ego, cfg.isWithin))
  {
    hide AlertsOf, RulesInForce, TextAlerts, FactsIn, FactsOf, Decoded;
    AlertsOnFacts(cfg, c, file, bytes, ego, g);
    FactsAreStated(cfg.parse(bytes), g.data);
  }

  // ---------------------------------------------------------------- whole runs

  /** The positions of the forwarded frames among the completions. */
  function Picks(cfg: Config, events: seq<ReadEvent>): (r: seq<nat>)
    ensures forall i :: 0 <= i < |r| ==> r[i] < |events|
  {
    if events == [] then []
    else
      var n := |events| - 1;
      Picks(cfg, events[..n])
        + if PassesAt(cfg, events, n) then [n] else []
  }

  /** The frame of this completion passes, and the loop was still receiving. */
  predicate PassesAt(cfg: Config, events: seq<ReadEvent>, n: nat)
    requires n < |events|
  {
    Passes(cfg, events[n]) && forall k :: 0 <= k < n ==> Continues(cfg, events[k])
  }

  function BytesAt(events: seq<ReadEvent>, i: nat): Frame {
    if i < |events| && events[i].ReadBytes? then events[i].bytes else []
  }

  predicate AllContinue(cfg: Config, events: seq<ReadEvent>) {
    forall k :: 0 <= k < |events| ==> Continues(cfg, events[k])
  }

  lemma {:induction false} FilterRunSnoc(cfg: Config, events: seq<ReadEvent>, ev: ReadEvent)
    ensures FilterRun(cfg, events + [ev])
      == FilterRun(cfg, events) + if AllContinue(cfg, events) then Passed(cfg, ev) else []
    decreases |events|
  {
    hide Continues, Passed, AllContinue;
    var last := if AllContinue(cfg, events) then Passed(cfg, ev) else [];
    if events == [] {
      AllContinueInNone(cfg);
      assert [ev][1..] == [] && [] + [ev] == [ev];
      assert Passed(cfg, ev) + [] == [] + Passed(cfg, ev);
    } else {
      var passed, rest := Passed(cfg, events[0]), FilterRun(cfg, events[1..]);
      assert (events + [ev])[0] == events[0] && (events + [ev])[1..] == events[1..] + [ev];
      FilterRunSnoc(cfg, events[1..], ev);
      AllContinueFromFirst(cfg, events);
      assert passed + (rest + last) == passed + rest + last;
      assert passed + [] + [] == passed + [];
    }
  }

  lemma AllContinueInNone(cfg: Config)
    ensures AllContinue(cfg, [])
  {
  }

  lemma AllContinueFromFirst(cfg: Config, events: seq<ReadEvent>)
    requires events != []
    ensures AllContinue(cfg, events) <==> Continues(cfg, events[0]) && AllContinue(cfg, events[1..])
  {
    hide Continues;
    assert forall k :: 0 <= k < |events[1..]| ==> events[1..][k] == events[k + 1];
    assert forall k :: 0 < k < |events| ==> events[k] == events[1..][k - 1];
  }

  predicate IsIncreasing(s: seq<nat>) {
    forall i, j :: 0 <= i < j < |s| ==> s[i] < s[j]
  }

  lemma IncreasingExtends(s: seq<nat>, n: nat)
    requires IsIncreasing(s) && forall i :: 0 <= i < |s| ==> s[i] < n
    ensures IsIncreasing(s + [n])
  {}

  lemma {:induction false} PicksIncrease(cfg: Config, events: seq<ReadEvent>)
    ensures IsIncreasing(Picks(cfg, events))
  {
    if events != [] {
      var n := |events| - 1;
      hide PassesAt;
      PicksIncrease(cfg, events[..n]);
      IncreasingExtends(Picks(cfg, events[..n]), n);
    }
  }

  lemma {:induction false} PicksArePassing(cfg: Config, events: seq<ReadEvent>, n: nat)
    ensures n in Picks(cfg, events) <==> n < |events| && PassesAt(cfg, events, n)
  {
    hide Passes, Continues;
    if events != [] {
      var last := |events| - 1;
      PicksArePassing(cfg, events[..last], n);
      if n < last {
        PassesInPrefix(cfg, events, last, n);
      }
    }
  }

  lemma PassesInPrefix(cfg: Config, events: seq<ReadEvent>, m: nat, n: nat)
    requires n < m <= |events|
    ensures PassesAt(cfg, events[..m], n) <==> PassesAt(cfg, events, n)
  {
    hide Passes;
    hide Continues;
    assert forall k :: 0 <= k < m ==> events[..m][k] == events[k];
  }

  /** The frames at the picked positions. */
  function FramesAt(events: seq<ReadEvent>, picks: seq<nat>): (r: seq<Frame>)
    ensures |r| == |picks|
    ensures forall i :: 0 <= i < |picks| ==> r[i] == BytesAt(events, picks[i])
  {
    if picks == [] then [] else FramesAt(events, picks[..|picks| - 1]) + [BytesAt(events, picks[|picks| - 1])]
  }

  lemma {:induction false} FilterRunIsPicked(cfg: Config, events: seq<ReadEvent>)
    ensures FilterRun(cfg, events) == FramesAt(events, Picks(cfg, events))
  {
    if events != [] {
      var n := |events| - 1;
      var before := events[..n];
      FilterRunIsPicked(cfg, before);
      FilterRunLast(cfg, events);
      hide PassesAt;
      FramesOfPrefix(events, n, Picks(cfg, before));
      FramesExtend(events, Picks(cfg, before), n);
      assert Picks(cfg, events) == Picks(cfg, before) + if PassesAt(cfg, events, n) then [n] else [];
      hide *;
    }
  }

  lemma {:induction false} FramesOfPrefix(events: seq<ReadEvent>, n: nat, picks: seq<nat>)
    requires n <= |events| && forall i :: 0 <= i < |picks| ==> picks[i] < n
    ensures FramesAt(events, picks) == FramesAt(events[..n], picks)
  {
    forall i | 0 <= i < |picks|
      ensures FramesAt(events, picks)[i] == FramesAt(events[..n], picks)[i]
    {
      assert BytesAt(events, picks[i]) == BytesAt(events[..n], picks[i]);
    }
  }

  lemma FramesExtend(events: seq<ReadEvent>, picks: seq<nat>, n: nat)
    ensures FramesAt(events, picks + [n]) == FramesAt(events, picks) + [BytesAt(events, n)]
    ensures FramesAt(events, picks + []) == FramesAt(events, picks) + []
  {
    assert (picks + [n])[..|picks|] == picks;
    assert picks + [] == picks;
  }

  lemma FilterRunLast(cfg: Config, events: seq<ReadEvent>)
    requires events != []
    ensures var n := |events| - 1;
      FilterRun(cfg, events)
        == FilterRun(cfg, events[..n]) + if PassesAt(cfg, events, n) then [BytesAt(events, n)] else []
  {
    hide FilterRun, Continues, Passes;
    var n := |events| - 1;
    var before := events[..n];
    assert events == before + [events[n]];
    FilterRunSnoc(cfg, before, events[n]);
    PassingIsReading(cfg, events[n]);
    assert forall k :: 0 <= k < n ==> before[k] == events[k];
  }

  /** Transparent filter: the transmitted frames are the received ones at strictly
      increasing positions, unchanged, and exactly those that pass before the loop ends. */
  lemma RunIsInOrderFilter(cfg: Config, events: seq<ReadEvent>)
    ensures IsIncreasing(Picks(cfg, events))
    ensures FilterRun(cfg, events) == FramesAt(events, Picks(cfg, events))
    ensures forall n: nat :: n in Picks(cfg, events) <==> n < |events| && PassesAt(cfg, events, n)
  {
    PicksIncrease(cfg, events);
    FilterRunIsPicked(cfg, events);
    forall n: nat
      ensures n in Picks(cfg, events) <==> n < |events| && PassesAt(cfg, events, n)
    {
      PicksArePassing(cfg, events, n);
    }
  }

  lemma PassingIsReading(cfg: Config, ev: ReadEvent)
    ensures Passes(cfg, ev) ==> ev.ReadBytes?
  {}

  /** A completion the text alone decides: an error, a frame that is not the filter's
      business, or a proper frame. */
  predicate IsExpected(cfg: Config, ev: ReadEvent) {
    ev.ReadBytes? ==>
      IsFreshData(ev.garbage.data) &&
      (EthernetOf(ev.bytes).Some? && IsForeign(cfg, EthernetOf(ev.bytes).value) ==> IsProper(cfg, ev.bytes))
  }

  /** The text lets the frame through on the facts its headers state. */
  predicate HeadersPass(cfg: Config, c: Conversions, file: Option<Node>, ev: ReadEvent) {
    ev.ReadBytes? && IsProper(cfg, ev.bytes)
    && !SomeDropRuleFires(c, RulesInForce(c, file), FactsOf(cfg.parse(ev.bytes)), Surroundings(ev.ego, cfg.isWithin))
  }

  /** Completion by completion: while the loop receives, an expected completion has its
      frame forwarded exactly when the text lets it through, whatever the other completions
      of the run are. */
  lemma PickedByHeaders(cfg: Config, c: Conversions, file: Option<Node>, events: seq<ReadEvent>, n: nat)
    requires Configured(cfg, c, file) && SomeGeonetRule(c, file)
    requires n < |events| && (forall k :: 0 <= k < n ==> Continues(cfg, events[k]))
    requires IsExpected(cfg, events[n])
    ensures n in Picks(cfg, events) <==> HeadersPass(cfg, c, file, events[n])
  {
    hide Picks, Configured, SomeGeonetRule, SomeDropRuleFires, RulesInForce, FactsOf, Verdict, Continues;
    PicksArePassing(cfg, events, n);
    var ev := events[n];
    if ev.ReadBytes? && IsProper(cfg, ev.bytes) {
      VerdictFromText(cfg, c, file, ev.bytes, ev.ego, ev.garbage);
    }
  }

  /** The facts the matcher sees when this completion is processed. */
  function FactsAt(cfg: Config, ev: ReadEvent): Facts
    requires ev.ReadBytes?
  {
    FactsIn(Decoded(ev.garbage.data, cfg.parse(ev.bytes)))
  }

  /** The text lets the frame through. */
  predicate TextPasses(cfg: Config, c: Conversions, file: Option<Node>, ev: ReadEvent) {
    ev.ReadBytes? && IsHandled(cfg, ev.bytes)
    && !SomeDropRuleFires(c, RulesInForce(c, file), FactsAt(cfg, ev), Surroundings(ev.ego, cfg.isWithin))
  }

  /** The loop goes on: anything but an error or a BTP frame to a port without a parser. */
  predicate TextContinues(cfg: Config, ev: ReadEvent) {
    ev.ReadBytes?
    && (EthernetOf(ev.bytes).Some? && IsForeign(cfg, EthernetOf(ev.bytes).value) ==> IsHandled(cfg, ev.bytes))
  }

  function TextPassed(cfg: Config, c: Conversions, file: Option<Node>, ev: ReadEvent): seq<Frame> {
    if TextPasses(cfg, c, file, ev) then [ev.bytes] else []
  }

  function TextAlertsOf(cfg: Config, c: Conversions, file: Option<Node>, ev: ReadEvent): seq<LogLine> {
    if ev.ReadBytes? && IsHandled(cfg, ev.bytes)
    then TextAlerts(c, RulesInForce(c, file), FactsAt(cfg, ev), Surroundings(ev.ego, cfg.isWithin)) else []
  }

  /** The frames the text of the rule file lets through. */
  function TextRun(cfg: Config, c: Conversions, file: Option<Node>, events: seq<ReadEvent>): seq<Frame> {
    if events == [] then []
    else
      TextPassed(cfg, c, file, events[0])
        + if TextContinues(cfg, events[0]) then TextRun(cfg, c, file, events[1..]) else []
  }

  /** The lines the text of the rule file calls for. */
  function TextAlertRun(cfg: Config, c: Conversions, file: Option<Node>, events: seq<ReadEvent>): seq<LogLine> {
    if events == [] then []
    else
      TextAlertsOf(cfg, c, file, events[0])
        + if TextContinues(cfg, events[0]) then TextAlertRun(cfg, c, file, events[1..]) else []
  }

  /** One completion: the loop goes on, the frame passes and lines are logged as the text
      says. */
  lemma CompletionFromText(cfg: Config, c: Conversions, file: Option<Node>, ev: ReadEvent)
    requires Configured(cfg, c, file)
    ensures Continues(cfg, ev) <==> TextContinues(cfg, ev)
    ensures AlertsOf(cfg, ev) == TextAlertsOf(cfg, c, file, ev)
    ensures SomeGeonetRule(c, file) ==> Passed(cfg, ev) == TextPassed(cfg, c, file, ev)
  {
    hide Configured, RulesInForce, SomeGeonetRule, SomeDropRuleFires, TextAlerts, Alerts, TableThrows, IsCondemned;
    hide Decoded, LacksParser;
    ConfiguredTable(cfg, c, file);
    if ev.ReadBytes? && IsHandled(cfg, ev.bytes) {
      AlertsOnFacts(cfg, c, file, ev.bytes, ev.ego, ev.garbage);
      if SomeGeonetRule(c, file) {
        VerdictOnFacts(cfg, c, file, ev.bytes, ev.ego, ev.garbage);
      }
    }
  }

  /** Over every sequence of completions, the frames forwarded are those the text lets
      through on the facts the matcher sees, if a GeoNetworking rule is in force. */
  lemma {:induction false} RunFromText(cfg: Config, c: Conversions, file: Option<Node>, events: seq<ReadEvent>)
    requires Configured(cfg, c, file)
    ensures SomeGeonetRule(c, file) ==> FilterRun(cfg, events) == TextRun(cfg, c, file, events)
    decreases |events|
  {
    hide Configured, SomeGeonetRule, Continues, TextContinues, Passed, TextPassed;
    if events != [] {
      CompletionFromText(cfg, c, file, events[0]);
      RunFromText(cfg, c, file, events[1..]);
    }
  }

  /** And the lines logged are those the text calls for, with or without rules in force. */
  lemma {:induction false} AlertRunFromText(cfg: Config, c: Conversions, file: Option<Node>, events: seq<ReadEvent>)
    requires Configured(cfg, c, file)
    ensures AlertRun(cfg, events) == TextAlertRun(cfg, c, file, events)
    decreases |events|
  {
    hide Configured, SomeGeonetRule, Continues, TextContinues, AlertsOf, TextAlertsOf;
    if events != [] {
      CompletionFromText(cfg, c, file, events[0]);
      AlertRunFromText(cfg, c, file, events[1..]);
    }
  }

  // ---------------------------------------------------------------- the program

  /** The parsers enabled one after the other; port 0 is skipped. */
  function Registered(apps: seq<App>): map<nat, Option<ParserId>> {
    if apps == [] then map[]
    else
      var before, app := Registered(apps[..|apps| - 1]), apps[|apps| - 1];
      if app.port == 0 then before else before[app.port := Some(app.id)]
  }

  predicate IsLastFor(apps: seq<App>, i: nat, port: nat) {
    i < |apps| && apps[i].port == port && forall j :: i < j < |apps| ==> apps[j].port != port
  }

  /** The parser of a port is the last one given for it; port 0 has none. */
  lemma {:induction false} LastParserIsRegistered(apps: seq<App>, port: nat)
    ensures port in Registered(apps) <==> port != 0 && exists i :: 0 <= i < |apps| && apps[i].port == port
    ensures forall i: nat :: port != 0 && IsLastFor(apps, i, port) ==>
      port in Registered(apps) && Registered(apps)[port] == Some(apps[i].id)
  {
    if apps != [] {
      var n := |apps| - 1;
      var before := apps[..n];
      LastParserIsRegistered(before, port);
      assert forall i :: 0 <= i < n ==> before[i] == apps[i];
      if port != 0 && apps[n].port != port {
        if i :| 0 <= i < |apps| && apps[i].port == port {
          assert before[i].port == port;
        }
        forall i: nat | IsLastFor(apps, i, port)
          ensures port in Registered(apps) && Registered(apps)[port] == Some(apps[i].id)
        {
          assert IsLastFor(before, i, port);
        }
      }
    }
  }

  function Deployed(c: Conversions, file: Option<Node>, apps: seq<App>, localMac: seq<Byte>,
      parse: Frame -> ParsedFrame, isWithin: (Position, Position, int) -> bool): Config
  {
    Config(Filled(c, map[], RulesInForce(c, file)), Registered(apps), localMac, parse, isWithin)
  }

  /** The program: read the rules, keep what was read even on failure, wire source and
      destination, enable the parsers and serve the source link. An exception while the
      rules are read ends the program instead. */
  method FilterTraffic(c: Conversions, file: Option<Node>, apps: seq<App>, localMac: seq<Byte>,
      parse: Frame -> ParsedFrame, isWithin: (Position, Position, int) -> bool, events: seq<ReadEvent>)
    returns (st: ReadStatus, sent: seq<Frame>, log: seq<LogLine>, outstanding: nat)
    requires forall k :: 0 <= k < |events| ==> IsRead(events[k])
    ensures st == StatusOf(c, file)
    ensures st == ReadThrew ==> sent == [] && log == [] && outstanding == 0
    ensures var cfg := Deployed(c, file, apps, localMac, parse, isWithin);
      st != ReadThrew ==>
        sent == FilterRun(cfg, events) && log == AlertRun(cfg, events)
        && outstanding == if forall k :: 0 <= k < |events| ==> Continues(cfg, events[k]) then 1 else 0
    ensures var cfg := Deployed(c, file, apps, localMac, parse, isWithin);
      st != ReadThrew ==>
        log == TextAlertRun(cfg, c, file, events)
        && (SomeGeonetRule(c, file) ==> sent == TextRun(cfg, c, file, events))
    ensures forall frame :: frame in sent ==>
      |frame| >= 14 && frame[6..12] != localMac && frame[12] == 0x89 && frame[13] == 0x47
  {
    hide FilterRun, AlertRun, LeakRun, Continues, TextRun, TextAlertRun, SomeGeonetRule;
    hide ParseRule, Filled, Registered, IsRead;
    var source := new RawSocketLink();
    var destination := new RawSocketLink();
    var store := new SignatureStore();
    var reader := new RuleReader(file, c);
    st := reader.Read(store);
    if st == ReadThrew { return st, [], [], 0; }
    assert store.table == Filled(c, map[], RulesInForce(c, file));
    var context := new IdpsContext(localMac, parse, isWithin, store, destination);
    source.Indicate(context);
    EnableAll(context, apps);
    ghost var cfg := Deployed(c, file, apps, localMac, parse, isWithin);
    assert context.Cfg() == cfg;
    source.Serve(events, context);
    sent, log, outstanding := destination.sent, context.handler.log, source.outstanding;
    AlertRunFromText(cfg, c, file, events);
    RunFromText(cfg, c, file, events);
    forall frame | frame in sent
      ensures |frame| >= 14 && frame[6..12] != localMac && frame[12] == 0x89 && frame[13] == 0x47
    {
      OnlyForeignFramesAreSent(cfg, events, frame);
    }
  }

  method EnableAll(context: IdpsContext, apps: seq<App>)
    requires context.parsers == map[]
    modifies context`parsers
    ensures context.parsers == Registered(apps)
  {
    for i := 0 to |apps|
      invariant context.parsers == Registered(apps[..i])
    {
      context.Enable(apps[i]);
      assert apps[..i + 1][..i] == apps[..i];
    }
    assert apps[..|apps|] == apps;
  }
}
