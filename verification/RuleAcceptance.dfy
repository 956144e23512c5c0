/** Which rules are accepted, with which status the others are refused, and what an
    accepted rule stores: in terms of the text and the conversions only. */
module RuleAcceptance {
  import opened Base
  import opened Yaml
  import opened Signatures
  import opened PatternReading
  import opened RuleReading

  // ---------------------------------------------------------------- sound rules

  predicate IsNumber(c: Conversions, node: Node) {
    node.Scalar? && c.toInt(node.text).Some?
  }

  predicate HasSoundAction(rule: Node) {
    var node := Child(rule, "action");
    node.Scalar? && Lower(node.text) in {"alert", "drop"}
  }

  predicate HasSoundProtocol(rule: Node) {
    var node := Child(rule, "protocol");
    node.Scalar?
    && Lower(node.text) in {"geonetworking", "geonet", "btp", "facility", "ca", "cam", "den", "denm",
                            "spat", "spatem", "tlm", "map", "mapem", "rlt"}
  }

  predicate HasSoundMeta(c: Conversions, rule: Node) {
    var meta := Child(rule, "meta");
    meta.Mapping? && Child(meta, "msg").Scalar?
    && Child(meta, "sid").Scalar? && c.toUint32(Child(meta, "sid").text).Some?
    && Child(meta, "rev").Scalar? && c.toUint16(Child(meta, "rev").text).Some?
  }

  predicate IsForGeonet(rule: Node) {
    Child(rule, "protocol").Scalar? && Lower(Child(rule, "protocol").text) in {"geonetworking", "geonet"}
  }

  predicate NhIsSound(c: Conversions, node: Node) {
    node.Undefined? || AsText(c, node) in {Some("common"), Some("secure")}
  }

  predicate HtIsSound(c: Conversions, node: Node) {
    node.Undefined? || AsText(c, node) in {Some("TSB"), Some("GBC"), Some("SHB")}
  }

  predicate MhlIsSound(c: Conversions, node: Node) {
    node.Undefined? || IsNumber(c, node)
  }

  /** The shape of a destination area, before any number is read. */
  predicate AreaHasShape(node: Node) {
    node.Mapping? && Child(node, "destination_a").Scalar? && Child(node, "destination_b").Scalar?
  }

  predicate AreaIsSound(c: Conversions, node: Node) {
    node.Undefined?
    || (node.Mapping? && IsNumber(c, Child(node, "destination_a")) && IsNumber(c, Child(node, "destination_b")))
  }

  predicate RangeHasShape(node: Node) {
    node.Mapping? && Child(node, "shape").Scalar? && Lower(Child(node, "shape").text) == "circle"
    && Child(node, "distance_a").Scalar? && Child(node, "distance_b").Scalar?
  }

  predicate RangeIsSound(c: Conversions, node: Node) {
    node.Undefined?
    || (RangeHasShape(node) && IsNumber(c, Child(node, "distance_a")) && IsNumber(c, Child(node, "distance_b")))
  }

  predicate HasSoundPatterns(c: Conversions, rule: Node) {
    NhIsSound(c, Child(rule, "nh")) && HtIsSound(c, Child(rule, "ht")) && MhlIsSound(c, Child(rule, "mhl"))
    && AreaIsSound(c, Child(rule, "destination_area")) && RangeIsSound(c, Child(rule, "allowed_so_range"))
  }

  predicate HasSoundHead(c: Conversions, rule: Node) {
    HasSoundAction(rule) && HasSoundProtocol(rule) && HasSoundMeta(c, rule)
  }

  predicate IsSoundRule(c: Conversions, rule: Node) {
    HasSoundHead(c, rule) && (IsForGeonet(rule) ==> HasSoundPatterns(c, rule))
  }

  // ---------------------------------------------------------------- words

  lemma ActionWords(word: string)
    ensures ActionNamed(word) != NotSupportedAction <==> Lower(word) in {"alert", "drop"}
    ensures ActionNamed(word) == if Lower(word) == "drop" then Drop
      else if Lower(word) == "alert" then Alert else NotSupportedAction
  {
    assert |"alert"| == 5 && |"drop"| == 4;
  }

  /** The protocol each of the fourteen words names, and no other word names one. */
  lemma ProtocolWords(word: string)
    ensures ProtocolNamed(word) == GeoNetworking <==> Lower(word) in {"geonetworking", "geonet"}
    ensures ProtocolNamed(word) == BTP <==> Lower(word) == "btp"
    ensures ProtocolNamed(word) == Facility <==> Lower(word) == "facility"
    ensures ProtocolNamed(word) == CA <==> Lower(word) in {"ca", "cam"}
    ensures ProtocolNamed(word) == DEN <==> Lower(word) in {"den", "denm"}
    ensures ProtocolNamed(word) == SPAT <==> Lower(word) in {"spat", "spatem", "tlm"}
    ensures ProtocolNamed(word) == MAP <==> Lower(word) in {"map", "mapem", "rlt"}
  {
  }

  // ---------------------------------------------------------------- the head

  lemma HeadIsSound(c: Conversions, rule: Node)
    ensures HeadFault(c, rule).None? <==> HasSoundHead(c, rule)
  {
    if Child(rule, "action").Scalar? {
      ActionWords(Child(rule, "action").text);
    }
    if Child(rule, "protocol").Scalar? {
      ProtocolWords(Child(rule, "protocol").text);
    }
  }

  /** The status of a rule whose head is not sound: that of the first thing wrong with it. */
  lemma HeadStatus(c: Conversions, rule: Node)
    requires !HasSoundHead(c, rule)
    ensures var action := Child(rule, "action");
      !HasSoundAction(rule) ==> ParseRule(c, rule) == Faulty(
        if rule.Scalar? then ReadThrew else if action.Undefined? then UndefinedAction else BadAction)
    ensures var protocol := Child(rule, "protocol");
      HasSoundAction(rule) && !HasSoundProtocol(rule) ==> ParseRule(c, rule) == Faulty(
        if protocol.Undefined? then UndefinedProtocol else BadProtocol)
    ensures var meta := Child(rule, "meta");
      HasSoundAction(rule) && HasSoundProtocol(rule) ==> ParseRule(c, rule) == Faulty(
        if meta.Undefined? then UndefinedMetaData
        else if MetaThrows(c, meta) then ReadThrew
        else BadMetaData)
  {
    if Child(rule, "action").Scalar? {
      ActionWords(Child(rule, "action").text);
    }
    if Child(rule, "protocol").Scalar? {
      ProtocolWords(Child(rule, "protocol").text);
    }
  }

  /** A number of the metadata does not convert, and everything before it is in order. */
  predicate MetaThrows(c: Conversions, meta: Node) {
    var sid, rev := Child(meta, "sid"), Child(meta, "rev");
    meta.Mapping? && Child(meta, "msg").Scalar? && sid.Scalar?
    && (c.toUint32(sid.text).None? || (rev.Scalar? && c.toUint16(rev.text).None?))
  }

  // ---------------------------------------------------------------- the patterns

  lemma KeysInOrder()
    ensures GEONET_KEYWORDS == ["nh", "ht", "mhl", "destination_area", "allowed_so_range"]
    ensures "nh" != "ht" && "nh" != "mhl" && "ht" != "mhl"
    ensures "destination_area" !in {"nh", "ht", "mhl"} && "allowed_so_range" !in {"nh", "ht", "mhl"}
    ensures "destination_area" != "allowed_so_range"
  {
    assert |"nh"| == 2 && |"mhl"| == 3 && |"destination_area"| == 16 && |"allowed_so_range"| == 16;
    assert "nh"[0] == 'n' && "ht"[0] == 'h' && "destination_area"[0] == 'd' && "allowed_so_range"[0] == 'a';
  }

  /** What each keyword amounts to, from the text. */
  lemma NhReading(c: Conversions, rule: Node)
    requires !rule.Scalar?
    ensures var node := Child(rule, "nh");
      KeywordReading(c, rule, "nh") == if node.Undefined? then Absent
        else if NhIsSound(c, node) then Value(TextPattern(AsText(c, node).value))
        else Fault(if AsText(c, node).None? then Threw else Error)
  {
  }

  lemma HtReading(c: Conversions, rule: Node)
    requires !rule.Scalar?
    ensures var node := Child(rule, "ht");
      KeywordReading(c, rule, "ht") == if node.Undefined? then Absent
        else if HtIsSound(c, node) then Value(TextPattern(AsText(c, node).value))
        else Fault(if AsText(c, node).None? then Threw else Error)
  {
    KeysInOrder();
  }

  lemma MhlReading(c: Conversions, rule: Node)
    requires !rule.Scalar?
    ensures var node := Child(rule, "mhl");
      KeywordReading(c, rule, "mhl") == if node.Undefined? then Absent
        else if MhlIsSound(c, node) then Value(IntPattern(c.toInt(node.text).value)) else Fault(Threw)
  {
    KeysInOrder();
  }

  lemma AreaReadingIs(c: Conversions, rule: Node)
    requires !rule.Scalar?
    ensures var node := Child(rule, "destination_area");
      KeywordReading(c, rule, "destination_area") == if node.Undefined? then Absent
        else if AreaIsSound(c, node) then
          Value(AreaPattern(c.toInt(Child(node, "destination_a").text).value,
                            c.toInt(Child(node, "destination_b").text).value))
        else Fault(if AreaHasShape(node) then Threw else Error)
  {
    KeysInOrder();
  }

  lemma RangeReadingIs(c: Conversions, rule: Node)
    requires !rule.Scalar?
    ensures var node := Child(rule, "allowed_so_range");
      KeywordReading(c, rule, "allowed_so_range") == if node.Undefined? then Absent
        else if RangeIsSound(c, node) then
          Value(RangePattern(Circle, c.toInt(Child(node, "distance_a").text).value,
                             c.toInt(Child(node, "distance_b").text).value))
        else Fault(if RangeHasShape(node) then Threw else Error)
  {
    KeysInOrder();
  }

  /** The first fault of the five keywords, one after the other. */
  lemma {:induction false} FiveKeywords(c: Conversions, rule: Node)
    ensures FirstFault(c, rule, GEONET_KEYWORDS) ==
      FaultOr(KeywordReading(c, rule, "nh"), FaultOr(KeywordReading(c, rule, "ht"),
        FaultOr(KeywordReading(c, rule, "mhl"), FaultOr(KeywordReading(c, rule, "destination_area"),
          FaultOr(KeywordReading(c, rule, "allowed_so_range"), Success)))))
  {
    hide KeywordReading;
    KeysInOrder();
    var keys := GEONET_KEYWORDS;
    assert keys[..5] == keys && keys[..5][..4] == keys[..4] && keys[..4][..3] == keys[..3];
    assert keys[..3][..2] == keys[..2] && keys[..2][..1] == keys[..1] && keys[..1][..0] == [];
    NoFaultIsSuccess(c, rule, "nh");
    NoFaultIsSuccess(c, rule, "ht");
    NoFaultIsSuccess(c, rule, "mhl");
    NoFaultIsSuccess(c, rule, "destination_area");
    NoFaultIsSuccess(c, rule, "allowed_so_range");
    assert FirstFault(c, rule, keys[..1]) == FaultOr(KeywordReading(c, rule, "nh"), Success);
    assert FirstFault(c, rule, keys[..2])
      == FaultOr(KeywordReading(c, rule, "nh"), FaultOr(KeywordReading(c, rule, "ht"), Success));
    assert FirstFault(c, rule, keys[..3])
      == FaultOr(KeywordReading(c, rule, "nh"), FaultOr(KeywordReading(c, rule, "ht"),
        FaultOr(KeywordReading(c, rule, "mhl"), Success)));
    assert FirstFault(c, rule, keys[..4])
      == FaultOr(KeywordReading(c, rule, "nh"), FaultOr(KeywordReading(c, rule, "ht"),
        FaultOr(KeywordReading(c, rule, "mhl"), FaultOr(KeywordReading(c, rule, "destination_area"), Success))));
  }

  function FaultOr(r: Reading, later: PatternStatus): PatternStatus {
    match r
    case Fault(st) => st
    case _ => later
  }

  lemma NoFaultIsSuccess(c: Conversions, rule: Node, key: string)
    ensures KeywordReading(c, rule, key) != Fault(Success)
  {
    FaultsFail(c, rule, key);
  }

  /** A rule with a sound head is read by its keywords if it is for GeoNetworking, and is
      accepted as it is otherwise. */
  lemma SoundHeadIsParsed(c: Conversions, rule: Node)
    requires HasSoundHead(c, rule)
    ensures HeadFault(c, rule).None? && !rule.Scalar?
    ensures ParseRule(c, rule) ==
      if !IsForGeonet(rule) then Accepted(HeadOf(c, rule))
      else match FirstFault(c, rule, GEONET_KEYWORDS)
        case Success => Accepted(HeadOf(c, rule).(patterns := StoredPatterns(c, rule, GEONET_KEYWORDS)))
        case Error => Faulty(BadPattern)
        case Threw => Faulty(ReadThrew)
  {
    hide FirstFault, StoredPatterns, HasSoundHead, HeadFault;
    HeadIsSound(c, rule);
    SoundHeadHasShape(c, rule);
    ProtocolWords(Child(rule, "protocol").text);
  }

  lemma SoundHeadHasShape(c: Conversions, rule: Node)
    requires HasSoundHead(c, rule)
    ensures !rule.Scalar? && Child(rule, "action").Scalar? && Child(rule, "protocol").Scalar?
    ensures Child(rule, "meta").Mapping?
  {
  }

  /** The status of a GeoNetworking rule with a sound head and an unsound keyword: that of
      the first one, in the order nh, ht, mhl, destination_area, allowed_so_range. */
  lemma {:induction false} PatternStatusIs(c: Conversions, rule: Node)
    requires HasSoundHead(c, rule) && IsForGeonet(rule)
    ensures var nh, ht, mhl := Child(rule, "nh"), Child(rule, "ht"), Child(rule, "mhl");
      var area, range := Child(rule, "destination_area"), Child(rule, "allowed_so_range");
      !HasSoundPatterns(c, rule) ==> ParseRule(c, rule) == Faulty(
        if !NhIsSound(c, nh) then (if AsText(c, nh).None? then ReadThrew else BadPattern)
        else if !HtIsSound(c, ht) then (if AsText(c, ht).None? then ReadThrew else BadPattern)
        else if !MhlIsSound(c, mhl) then ReadThrew
        else if !AreaIsSound(c, area) then (if AreaHasShape(area) then ReadThrew else BadPattern)
        else if RangeHasShape(range) then ReadThrew else BadPattern)
    ensures HasSoundPatterns(c, rule) ==> ParseRule(c, rule).Accepted?
  {
    hide ParseRule, KeywordReading, FirstFault, StoredPatterns, AreaHasShape, RangeHasShape, IsForGeonet;
    hide NhIsSound, HtIsSound, MhlIsSound, AreaIsSound, RangeIsSound, HasSoundHead;
    SoundHeadIsParsed(c, rule);
    FiveKeywords(c, rule);
    NhReading(c, rule);
    HtReading(c, rule);
    MhlReading(c, rule);
    AreaReadingIs(c, rule);
    RangeReadingIs(c, rule);
    AbsentIsSound(c);
  }

  lemma AbsentIsSound(c: Conversions)
    ensures NhIsSound(c, Undefined) && HtIsSound(c, Undefined) && MhlIsSound(c, Undefined)
    ensures AreaIsSound(c, Undefined) && RangeIsSound(c, Undefined)
  {
  }

  // ---------------------------------------------------------------- the theorems

  /** Exactly the sound rules are accepted. */
  lemma AcceptedIffSound(c: Conversions, rule: Node)
    ensures ParseRule(c, rule).Accepted? <==> IsSoundRule(c, rule)
  {
    hide ParseRule, HasSoundHead, HasSoundPatterns, IsForGeonet, FirstFault, StoredPatterns;
    if !HasSoundHead(c, rule) {
      UnsoundHeadIsFaulty(c, rule);
    } else if IsForGeonet(rule) {
      PatternStatusIs(c, rule);
    } else {
      SoundHeadIsParsed(c, rule);
    }
  }

  lemma UnsoundHeadIsFaulty(c: Conversions, rule: Node)
    requires !HasSoundHead(c, rule)
    ensures ParseRule(c, rule).Faulty?
  {
    hide HeadFault, HasSoundHead;
    HeadIsSound(c, rule);
  }

  /** The rules in force are the sound ones before the first that is not. */
  lemma CleanPrefixIsSound(c: Conversions, rules: seq<Node>)
    ensures forall i :: 0 <= i < CleanPrefix(c, rules) ==> IsSoundRule(c, rules[i])
    ensures CleanPrefix(c, rules) < |rules| ==> !IsSoundRule(c, rules[CleanPrefix(c, rules)])
    ensures RulesStatus(c, rules) == ReadSuccess <==> forall i :: 0 <= i < |rules| ==> IsSoundRule(c, rules[i])
  {
    hide ParseRule, IsSoundRule;
    var n := CleanPrefix(c, rules);
    forall i | 0 <= i < |rules|
      ensures ParseRule(c, rules[i]).Accepted? <==> IsSoundRule(c, rules[i])
    {
      AcceptedIffSound(c, rules[i]);
    }
    if n < |rules| {
      FaultyIsNotSuccess(c, rules[n]);
    }
  }

  // ---------------------------------------------------------------- what is stored

  /** Action, protocol and metadata of an accepted rule, as its text says. */
  lemma AcceptedHead(c: Conversions, rule: Node)
    requires IsSoundRule(c, rule)
    ensures ParseRule(c, rule).Accepted?
    ensures var sig, word := ParseRule(c, rule).sig, Lower(Child(rule, "action").text);
      (sig.action == Drop <==> word == "drop") && (sig.action == Alert <==> word == "alert")
    ensures var sig, word := ParseRule(c, rule).sig, Child(rule, "protocol").text;
      sig.protocol == ProtocolNamed(word)
    ensures var sig, meta := ParseRule(c, rule).sig, Child(rule, "meta");
      sig.meta == MetaData(Child(meta, "msg").text, c.toUint32(Child(meta, "sid").text).value,
                           c.toUint16(Child(meta, "rev").text).value)
  {
    hide ParseRule, HasSoundPatterns, FirstFault, StoredPatterns;
    AcceptedIffSound(c, rule);
    SoundHeadIsParsed(c, rule);
    ActionWords(Child(rule, "action").text);
    HeadOfSound(c, rule);
  }

  lemma HeadOfSound(c: Conversions, rule: Node)
    requires HasSoundHead(c, rule)
    ensures HeadFault(c, rule).None?
    ensures HeadOf(c, rule).action == ActionNamed(Child(rule, "action").text)
    ensures HeadOf(c, rule).protocol == ProtocolNamed(Child(rule, "protocol").text)
    ensures var meta := Child(rule, "meta");
      HeadOf(c, rule).meta == MetaData(Child(meta, "msg").text, c.toUint32(Child(meta, "sid").text).value,
                                       c.toUint16(Child(meta, "rev").text).value)
    ensures HeadOf(c, rule).patterns == map[]
  {
    HeadIsSound(c, rule);
  }

  /** The patterns of an accepted GeoNetworking rule: one for each keyword the text gives,
      holding what the text says, and no others. */
  lemma {:induction false} AcceptedPatterns(c: Conversions, rule: Node)
    requires IsSoundRule(c, rule) && IsForGeonet(rule)
    ensures ParseRule(c, rule).Accepted?
    ensures var m, node := ParseRule(c, rule).sig.patterns, Child(rule, "nh");
      ("nh" in m <==> !node.Undefined?) && ("nh" in m ==> m["nh"] == TextPattern(AsText(c, node).value))
    ensures var m, node := ParseRule(c, rule).sig.patterns, Child(rule, "ht");
      ("ht" in m <==> !node.Undefined?) && ("ht" in m ==> m["ht"] == TextPattern(AsText(c, node).value))
    ensures var m, node := ParseRule(c, rule).sig.patterns, Child(rule, "mhl");
      ("mhl" in m <==> !node.Undefined?) && ("mhl" in m ==> m["mhl"] == IntPattern(c.toInt(node.text).value))
    ensures var m, node := ParseRule(c, rule).sig.patterns, Child(rule, "destination_area");
      ("destination_area" in m <==> !node.Undefined?)
      && ("destination_area" in m ==>
            m["destination_area"] == AreaPattern(c.toInt(Child(node, "destination_a").text).value,
                                                 c.toInt(Child(node, "destination_b").text).value))
    ensures var m, node := ParseRule(c, rule).sig.patterns, Child(rule, "allowed_so_range");
      ("allowed_so_range" in m <==> !node.Undefined?)
      && ("allowed_so_range" in m ==>
            m["allowed_so_range"] == RangePattern(Circle, c.toInt(Child(node, "distance_a").text).value,
                                                  c.toInt(Child(node, "distance_b").text).value))
    ensures forall k :: k in ParseRule(c, rule).sig.patterns ==>
      k in {"nh", "ht", "mhl", "destination_area", "allowed_so_range"}
  {
    hide ParseRule, KeywordReading, FirstFault, StoredPatterns, IsForGeonet, HeadOf, HasSoundHead;
    hide NhIsSound, HtIsSound, MhlIsSound, AreaIsSound, RangeIsSound, AreaHasShape, RangeHasShape, IsNumber;
    AcceptedIffSound(c, rule);
    SoundHeadIsParsed(c, rule);
    assert ParseRule(c, rule).sig.patterns == StoredPatterns(c, rule, GEONET_KEYWORDS);
    forall k
      ensures k in StoredPatterns(c, rule, GEONET_KEYWORDS)
        <==> k in GEONET_KEYWORDS && KeywordReading(c, rule, k).Value?
      ensures k in StoredPatterns(c, rule, GEONET_KEYWORDS) ==>
        StoredPatterns(c, rule, GEONET_KEYWORDS)[k] == KeywordReading(c, rule, k).pattern
    {
      StoredIsRead(c, rule, GEONET_KEYWORDS, k);
    }
    KeysInOrder();
    NhReading(c, rule);
    HtReading(c, rule);
    MhlReading(c, rule);
    AreaReadingIs(c, rule);
    RangeReadingIs(c, rule);
  }

  /** The status of a whole file: an exception if it does not load, a broken structure if it
      is not a mapping with a sequence of rules, and otherwise that of the first rule that is
      not sound, if there is one. */
  lemma FileStatusIs(c: Conversions, file: Option<Node>)
    ensures file.None? ==> StatusOf(c, file) == ReadThrew
    ensures file.Some? && !(file.value.Mapping? && Child(file.value, "rules").Sequence?) ==>
      StatusOf(c, file) == BrokenRuleStructure
    ensures file.Some? && file.value.Mapping? && Child(file.value, "rules").Sequence? ==>
      RuleList(file).1 == Child(file.value, "rules").items
      && StatusOf(c, file) == RulesStatus(c, Child(file.value, "rules").items)
  {
  }
}
