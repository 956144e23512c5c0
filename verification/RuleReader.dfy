/** The rule reader: a loop over the rules of a file that appends one signature
    per accepted rule and returns at the first faulty one. */
module RuleReading {
  import opened Base
  import opened Yaml
  import opened Signatures
  import opened PatternReading

  datatype MetaStatus =
    | MetaSuccess | UndefinedMsg | BadMsg | UndefinedSid | BadSid | UndefinedRev | BadRev | MetaThrew

  datatype ReadStatus =
    | ReadSuccess | BrokenRuleStructure | UndefinedAction | BadAction | UndefinedProtocol | BadProtocol
    | UndefinedMetaData | BadMetaData | BadPattern | ReadThrew

  /** What one rule amounts to. */
  datatype Parsed = Faulty(status: ReadStatus) | Accepted(sig: Signature)

  // ---------------------------------------------------------------- the words of a rule

  function ActionNamed(word: string): Action {
    var w := Lower(word);
    if w == "alert" then Alert else if w == "drop" then Drop else NotSupportedAction
  }

  const PROTOCOL_WORDS: map<string, Protocol> := map[
    "geonetworking" := GeoNetworking, "geonet" := GeoNetworking,
    "btp" := BTP, "facility" := Facility,
    "ca" := CA, "cam" := CA, "den" := DEN, "denm" := DEN,
    "spat" := SPAT, "spatem" := SPAT, "tlm" := SPAT,
    "map" := MAP, "mapem" := MAP, "rlt" := MAP]

  function ProtocolNamed(word: string): Protocol {
    if Lower(word) in PROTOCOL_WORDS then PROTOCOL_WORDS[Lower(word)] else NotSupportedProtocol
  }

  method ReadAction(word: string) returns (action: Action)
    ensures action == ActionNamed(word)
  {
    var w := Lower(word);
    if w == "alert" {
      action := Alert;
    } else if w == "drop" {
      action := Drop;
    } else {
      action := NotSupportedAction;
    }
  }

  method ReadProtocol(word: string) returns (protocol: Protocol)
    ensures protocol == ProtocolNamed(word)
  {
    var w := Lower(word);
    if w == "geonetworking" || w == "geonet" {
      protocol := GeoNetworking;
    } else if w == "btp" {
      protocol := BTP;
    } else if w == "facility" {
      protocol := Facility;
    } else if w == "ca" || w == "cam" {
      protocol := CA;
    } else if w == "den" || w == "denm" {
      protocol := DEN;
    } else if w == "spat" || w == "spatem" || w == "tlm" {
      protocol := SPAT;
    } else if w == "map" || w == "mapem" || w == "rlt" {
      protocol := MAP;
    } else {
      protocol := NotSupportedProtocol;
    }
  }

  // ---------------------------------------------------------------- metadata

  /** A missing or ill-formed revision is reported with the codes of the
      identifier; every code but success reads as bad metadata further up. */
  function MetaReading(c: Conversions, node: Node): (MetaStatus, MetaData)
    requires node.Mapping?
  {
    var msg, sid, rev := Child(node, "msg"), Child(node, "sid"), Child(node, "rev");
    if msg.Undefined? then (UndefinedMsg, NO_META)
    else if !msg.Scalar? then (BadMsg, NO_META)
    else if sid.Undefined? then (UndefinedSid, NO_META)
    else if !sid.Scalar? then (BadSid, NO_META)
    else if c.toUint32(sid.text).None? then (MetaThrew, NO_META)
    else if rev.Undefined? then (UndefinedSid, NO_META)
    else if !rev.Scalar? then (BadSid, NO_META)
    else if c.toUint16(rev.text).None? then (MetaThrew, NO_META)
    else (MetaSuccess, MetaData(msg.text, c.toUint32(sid.text).value, c.toUint16(rev.text).value))
  }

  const NO_META := MetaData("", 0, 0)

  /** Fills the fields one after the other, stopping at the first that is wrong. */
  method ReadMetadata(c: Conversions, node: Node) returns (st: MetaStatus, meta: MetaData)
    requires node.Mapping?
    ensures st == MetaReading(c, node).0
    ensures st == MetaSuccess ==> meta == MetaReading(c, node).1
  {
    meta := NO_META;
    var msg := Child(node, "msg");
    if msg.Undefined? { return UndefinedMsg, meta; }
    if !msg.Scalar? { return BadMsg, meta; }
    meta := meta.(msg := msg.text);
    var sid := Child(node, "sid");
    if sid.Undefined? { return UndefinedSid, meta; }
    if !sid.Scalar? { return BadSid, meta; }
    var sidNumber := c.toUint32(sid.text);
    if sidNumber.None? { return MetaThrew, meta; }
    meta := meta.(sid := sidNumber.value);
    var rev := Child(node, "rev");
    if rev.Undefined? { return UndefinedSid, meta; }
    if !rev.Scalar? { return BadSid, meta; }
    var revNumber := c.toUint16(rev.text);
    if revNumber.None? { return MetaThrew, meta; }
    meta := meta.(rev := revNumber.value);
    st := MetaSuccess;
  }

  // ---------------------------------------------------------------- one rule

  /** A scalar field of a rule: its text, or the status its absence or shape calls for. */
  function FieldFault(rule: Node, key: string, undefined: ReadStatus, bad: ReadStatus): Option<ReadStatus> {
    match Subscript(rule, key)
    case None => Some(ReadThrew)
    case Some(Undefined) => Some(undefined)
    case Some(Scalar(_)) => None
    case Some(_) => Some(bad)
  }

  /** The status the head of a rule (action, protocol, metadata) calls for, if it is faulty. */
  function HeadFault(c: Conversions, rule: Node): Option<ReadStatus> {
    var action := FieldFault(rule, "action", UndefinedAction, BadAction);
    var protocol := FieldFault(rule, "protocol", UndefinedProtocol, BadProtocol);
    if action.Some? then action
    else if ActionNamed(Child(rule, "action").text) == NotSupportedAction then Some(BadAction)
    else if protocol.Some? then protocol
    else if ProtocolNamed(Child(rule, "protocol").text) == NotSupportedProtocol then Some(BadProtocol)
    else if Child(rule, "meta").Undefined? then Some(UndefinedMetaData)
    else if !Child(rule, "meta").Mapping? then Some(BadMetaData)
    else match MetaReading(c, Child(rule, "meta")).0
      case MetaSuccess => None
      case MetaThrew => Some(ReadThrew)
      case _ => Some(BadMetaData)
  }

  /** The signature a rule with a sound head gives, before its patterns are read. */
  function HeadOf(c: Conversions, rule: Node): Signature
    requires HeadFault(c, rule).None?
  {
    Signature(
      ActionNamed(Child(rule, "action").text),
      ProtocolNamed(Child(rule, "protocol").text),
      MetaReading(c, Child(rule, "meta")).1,
      map[])
  }

  function ParseRule(c: Conversions, rule: Node): Parsed {
    match HeadFault(c, rule)
    case Some(st) => Faulty(st)
    case None =>
      var head := HeadOf(c, rule);
      if head.protocol != GeoNetworking then Accepted(head)
      else match FirstFault(c, rule, GEONET_KEYWORDS)
        case Success => Accepted(head.(patterns := StoredPatterns(c, rule, GEONET_KEYWORDS)))
        case Error => Faulty(BadPattern)
        case Threw => Faulty(ReadThrew)
  }

  /** Faults never carry the success code. */
  lemma FaultyIsNotSuccess(c: Conversions, rule: Node)
    ensures ParseRule(c, rule) != Faulty(ReadSuccess)
  {}

  /** The part of the loop body that reads action, protocol and metadata. */
  method ReadHead(c: Conversions, rule: Node) returns (st: ReadStatus, sig: Signature)
    ensures st == (match HeadFault(c, rule) case Some(f) => f case None => ReadSuccess)
    ensures st == ReadSuccess ==> HeadFault(c, rule).None? && sig == HeadOf(c, rule)
  {
    sig := Signature(NotSupportedAction, NotSupportedProtocol, NO_META, map[]);

    var actionNode := Subscript(rule, "action");
    if actionNode.None? { return ReadThrew, sig; }
    if actionNode.value.Undefined? { return UndefinedAction, sig; }
    if !actionNode.value.Scalar? { return BadAction, sig; }
    var action := ReadAction(actionNode.value.text);
    if action == NotSupportedAction { return BadAction, sig; }
    sig := sig.(action := action);

    var protocolNode := Child(rule, "protocol");
    if protocolNode.Undefined? { return UndefinedProtocol, sig; }
    if !protocolNode.Scalar? { return BadProtocol, sig; }
    var protocol := ReadProtocol(protocolNode.text);
    if protocol == NotSupportedProtocol { return BadProtocol, sig; }
    sig := sig.(protocol := protocol);

    var metaNode := Child(rule, "meta");
    if metaNode.Undefined? { return UndefinedMetaData, sig; }
    if !metaNode.Mapping? { return BadMetaData, sig; }
    var metaStatus, meta := ReadMetadata(c, metaNode);
    if metaStatus == MetaThrew { return ReadThrew, sig; }
    if metaStatus != MetaSuccess { return BadMetaData, sig; }
    sig := sig.(meta := meta);
    st := ReadSuccess;
  }

  // ---------------------------------------------------------------- the whole file

  /** The rule list of a file, or the status of a file without one. The file is
      None when loading it throws. */
  function RuleList(file: Option<Node>): (r: (ReadStatus, seq<Node>)) {
    match file
    case None => (ReadThrew, [])
    case Some(Mapping(entries)) =>
      if "rules" in entries && entries["rules"].Sequence? then (ReadSuccess, entries["rules"].items)
      else (BrokenRuleStructure, [])
    case Some(_) => (BrokenRuleStructure, [])
  }

  /** The length of the longest prefix without a faulty rule. */
  function CleanPrefix(c: Conversions, rules: seq<Node>): (n: nat)
    ensures n <= |rules|
    ensures forall i :: 0 <= i < n ==> ParseRule(c, rules[i]).Accepted?
    ensures n < |rules| ==> ParseRule(c, rules[n]).Faulty?
  {
    if rules == [] || ParseRule(c, rules[0]).Faulty? then 0
    else 1 + CleanPrefix(c, rules[1..])
  }

  predicate AreAccepted(c: Conversions, rules: seq<Node>) {
    forall i :: 0 <= i < |rules| ==> ParseRule(c, rules[i]).Accepted?
  }

  lemma AcceptedPrefix(c: Conversions, rules: seq<Node>)
    requires AreAccepted(c, rules) && rules != []
    ensures AreAccepted(c, rules[..|rules| - 1]) && ParseRule(c, rules[|rules| - 1]).Accepted?
  {
  }

  /** The signatures a list of accepted rules stores under a protocol, in order. */
  function Collected(c: Conversions, rules: seq<Node>, p: Protocol): seq<Signature>
    requires AreAccepted(c, rules)
  {
    if rules == [] then []
    else
      var sig := ParseRule(c, rules[|rules| - 1]).sig;
      Collected(c, rules[..|rules| - 1], p)
        + if sig.protocol == p && IsStored(p) then [sig] else []
  }

  /** Only two protocols have a vector; rules for the others are accepted and forgotten. */
  predicate IsStored(p: Protocol) {
    p == GeoNetworking || p == Facility
  }

  function RulesStatus(c: Conversions, rules: seq<Node>): ReadStatus {
    var n := CleanPrefix(c, rules);
    if n == |rules| then ReadSuccess else ParseRule(c, rules[n]).status
  }

  function StatusOf(c: Conversions, file: Option<Node>): ReadStatus {
    var (st, rules) := RuleList(file);
    if st != ReadSuccess then st else RulesStatus(c, rules)
  }

  /** The table after one accepted rule. */
  function Push(table: map<Protocol, seq<Signature>>, sig: Signature): map<Protocol, seq<Signature>> {
    if IsStored(sig.protocol) then table[sig.protocol := Listed(table, sig.protocol) + [sig]] else table
  }

  /** The table after a list of accepted rules. */
  function Filled(c: Conversions, table: map<Protocol, seq<Signature>>, rules: seq<Node>): map<Protocol, seq<Signature>>
    requires AreAccepted(c, rules)
  {
    if rules == [] then table
    else Push(Filled(c, table, rules[..|rules| - 1]), ParseRule(c, rules[|rules| - 1]).sig)
  }

  /** Prefix law: each vector is its old value followed by the signatures of its
      protocol in file order. */
  lemma {:induction false} FilledIsCollected(
      c: Conversions, table: map<Protocol, seq<Signature>>, rules: seq<Node>, p: Protocol)
    requires AreAccepted(c, rules)
    ensures Listed(Filled(c, table, rules), p) == Listed(table, p) + Collected(c, rules, p)
  {
    hide ParseRule, Push, Listed, IsStored, AreAccepted;
    if rules != [] {
      AcceptedPrefix(c, rules);
      var before, sig := rules[..|rules| - 1], ParseRule(c, rules[|rules| - 1]).sig;
      FilledIsCollected(c, table, before, p);
      PushAppends(Filled(c, table, before), sig, p);
    }
  }

  /** A vector exists only if it did or received a signature. */
  lemma {:induction false} FilledWhenCollected(
      c: Conversions, table: map<Protocol, seq<Signature>>, rules: seq<Node>, p: Protocol)
    requires AreAccepted(c, rules)
    ensures p in Filled(c, table, rules) <==> p in table || Collected(c, rules, p) != []
  {
    hide ParseRule, Push, Listed, IsStored, AreAccepted;
    if rules != [] {
      AcceptedPrefix(c, rules);
      var before, sig := rules[..|rules| - 1], ParseRule(c, rules[|rules| - 1]).sig;
      FilledWhenCollected(c, table, before, p);
      PushAppends(Filled(c, table, before), sig, p);
    }
  }

  /** One accepted rule: its own vector grows by one, and no other changes. */
  lemma PushAppends(table: map<Protocol, seq<Signature>>, sig: Signature, p: Protocol)
    ensures Listed(Push(table, sig), p) == Listed(table, p) + (if sig.protocol == p && IsStored(p) then [sig] else [])
    ensures p in Push(table, sig) <==> p in table || (sig.protocol == p && IsStored(p))
  {
  }

  /** The error-free prefix is the only one followed by the end or a faulty rule. */
  lemma CleanPrefixIsUnique(c: Conversions, rules: seq<Node>, n: nat)
    requires n <= |rules|
    requires forall i :: 0 <= i < n ==> ParseRule(c, rules[i]).Accepted?
    requires n < |rules| ==> ParseRule(c, rules[n]).Faulty?
    ensures CleanPrefix(c, rules) == n
  {
  }

  class RuleReader {
    const file: Option<Node>
    const c: Conversions

    constructor (file: Option<Node>, c: Conversions)
      ensures this.file == file && this.c == c
    {
      this.file, this.c := file, c;
    }

    /** Whatever the status, the store holds what the longest error-free prefix adds. */
    method Read(store: SignatureStore) returns (st: ReadStatus)
      modifies store
      ensures st == StatusOf(c, file)
      ensures var rules := RuleList(file).1;
        store.table == Filled(c, old(store.table), rules[..CleanPrefix(c, rules)])
    {
      if file.None? { return ReadThrew; }
      var ruleset := file.value;
      if !ruleset.Mapping? { return BrokenRuleStructure; }
      var rulesNode := Child(ruleset, "rules");
      if !rulesNode.Sequence? { return BrokenRuleStructure; }
      st := ReadRules(rulesNode.items, store);
    }

    /** The loop over the rules, which returns at the first fault. */
    method ReadRules(rules: seq<Node>, store: SignatureStore) returns (st: ReadStatus)
      modifies store
      ensures st == RulesStatus(c, rules)
      ensures store.table == Filled(c, old(store.table), rules[..CleanPrefix(c, rules)])
    {
      hide ParseRule;
      var i := 0;
      while i < |rules|
        invariant 0 <= i <= |rules|
        invariant forall j :: 0 <= j < i ==> ParseRule(c, rules[j]).Accepted?
        invariant store.table == Filled(c, old(store.table), rules[..i])
      {
        FaultyIsNotSuccess(c, rules[i]);
        var status := ReadRule(rules[i], store);
        if status != ReadSuccess {
          CleanPrefixIsUnique(c, rules, i);
          return status;
        }
        assert rules[..i + 1][..i] == rules[..i];
        i := i + 1;
      }
      CleanPrefixIsUnique(c, rules, i);
      st := ReadSuccess;
    }

    /** The loop body: reads one rule and, if it is accepted, stores it. */
    method ReadRule(rule: Node, store: SignatureStore) returns (st: ReadStatus)
      modifies store
      ensures match ParseRule(c, rule)
        case Faulty(fault) => st == fault && store.table == old(store.table)
        case Accepted(sig) => st == ReadSuccess && store.table == Push(old(store.table), sig)
    {
      var sig;
      st, sig := ReadHead(c, rule);
      if st != ReadSuccess { return; }
      if sig.protocol == GeoNetworking {
        var patternStatus, full := ReadGeonetPattern(c, rule, sig);
        if patternStatus == Threw { return ReadThrew; }
        if patternStatus != Success { return BadPattern; }
        Append(store, GeoNetworking, full);
      } else if sig.protocol == Facility {
        var patternStatus, full := ReadFacilityPattern(rule, sig);
        if patternStatus != Success { return BadPattern; }
        Append(store, Facility, full);
      }
    }

    /** Creates the vector with its first signature or appends to it. */
    method Append(store: SignatureStore, p: Protocol, sig: Signature)
      modifies store
      ensures store.table == old(store.table)[p := Listed(old(store.table), p) + [sig]]
    {
      if p !in store.table {
        store.table := store.table[p := [sig]];
        assert [] + [sig] == [sig];
      } else {
        store.table := store.table[p := store.table[p] + [sig]];
      }
    }
  }
}
