/** The keyword loop of the GeoNetworking pattern reader. */
module PatternReading {
  import opened Base
  import opened Yaml
  import opened Signatures

  datatype PatternStatus = Success | Error | Threw

  /** What one keyword of a rule amounts to: not given, a pattern, or a fault. */
  datatype Reading = Absent | Value(pattern: Pattern) | Fault(status: PatternStatus)

  /** Two distances, if both convert. */
  function Distances(c: Conversions, area: Node, keyA: string, keyB: string): Option<(int, int)> {
    match (AsInt(c, Child(area, keyA)), AsInt(c, Child(area, keyB)))
    case (Some(a), Some(b)) => Some((a, b))
    case _ => None
  }

  /** The shape checks on two distances, all of which come before either conversion. */
  predicate BothScalar(area: Node, keyA: string, keyB: string) {
    Child(area, keyA).Scalar? && Child(area, keyB).Scalar?
  }

  /** The meaning of a text keyword restricted to a fixed vocabulary. */
  function TextReading(c: Conversions, node: Node, vocabulary: set<string>): Reading {
    match AsText(c, node)
    case None => Fault(Threw)
    case Some(text) => if text in vocabulary then Value(TextPattern(text)) else Fault(Error)
  }

  function IntReading(c: Conversions, node: Node): Reading {
    match AsInt(c, node)
    case None => Fault(Threw)
    case Some(n) => Value(IntPattern(n))
  }

  function AreaReading(c: Conversions, node: Node): Reading {
    if !node.Mapping? || !BothScalar(node, "destination_a", "destination_b") then Fault(Error)
    else match Distances(c, node, "destination_a", "destination_b")
      case None => Fault(Threw)
      case Some((a, b)) => Value(AreaPattern(a, b))
  }

  function RangeReading(c: Conversions, node: Node): Reading {
    if !node.Mapping? || !Child(node, "shape").Scalar? || Lower(Child(node, "shape").text) != "circle" then Fault(Error)
    else if !BothScalar(node, "distance_a", "distance_b") then Fault(Error)
    else match Distances(c, node, "distance_a", "distance_b")
      case None => Fault(Threw)
      case Some((a, b)) => Value(RangePattern(Circle, a, b))
  }

  const NH_WORDS: set<string> := {"common", "secure"}
  const HT_WORDS: set<string> := {"TSB", "GBC", "SHB"}

  function KeywordReading(c: Conversions, rule: Node, key: string): Reading {
    match Subscript(rule, key)
    case None => Fault(Threw)
    case Some(node) =>
      if node.Undefined? then Absent
      else if key == "nh" then TextReading(c, node, NH_WORDS)
      else if key == "ht" then TextReading(c, node, HT_WORDS)
      else if key == "mhl" then IntReading(c, node)
      else if key == "destination_area" then AreaReading(c, node)
      else if key == "allowed_so_range" then RangeReading(c, node)
      else Absent
  }

  /** The status the reader returns: that of the first faulty keyword. */
  function FirstFault(c: Conversions, rule: Node, keys: seq<string>): PatternStatus {
    if keys == [] then Success
    else
      var before := FirstFault(c, rule, keys[..|keys| - 1]);
      if before != Success then before
      else match KeywordReading(c, rule, keys[|keys| - 1])
        case Fault(st) => st
        case _ => Success
  }

  /** The pattern map of a rule without faults: one entry for each keyword given. */
  function StoredPatterns(c: Conversions, rule: Node, keys: seq<string>): map<string, Pattern> {
    if keys == [] then map[]
    else
      var before := StoredPatterns(c, rule, keys[..|keys| - 1]);
      match KeywordReading(c, rule, keys[|keys| - 1])
      case Value(pattern) => before[keys[|keys| - 1] := pattern]
      case _ => before
  }

  /** A fault within a prefix of the keywords is the outcome for all of them. */
  lemma {:induction false} FaultIsFinal(c: Conversions, rule: Node, keys: seq<string>, i: nat)
    requires i <= |keys|
    requires FirstFault(c, rule, keys[..i]) != Success
    ensures FirstFault(c, rule, keys) == FirstFault(c, rule, keys[..i])
    decreases |keys|
  {
    if i == |keys| {
      assert keys[..i] == keys;
    } else {
      assert keys[..|keys| - 1][..i] == keys[..i];
      FaultIsFinal(c, rule, keys[..|keys| - 1], i);
    }
  }

  /** The reader succeeds exactly on the rules none of whose keywords is faulty. */
  lemma {:induction false} SucceedsWithoutFaults(c: Conversions, rule: Node, keys: seq<string>)
    ensures FirstFault(c, rule, keys) == Success
      <==> forall i :: 0 <= i < |keys| ==> !KeywordReading(c, rule, keys[i]).Fault?
  {
    if keys != [] {
      FaultsFail(c, rule, keys[|keys| - 1]);
      SucceedsWithoutFaults(c, rule, keys[..|keys| - 1]);
      assert forall i :: 0 <= i < |keys| - 1 ==> keys[i] == keys[..|keys| - 1][i];
    }
  }

  /** The stored map holds a keyword exactly when the rule gives it, with its reading. */
  lemma {:induction false} StoredIsRead(c: Conversions, rule: Node, keys: seq<string>, k: string)
    ensures k in StoredPatterns(c, rule, keys) <==> k in keys && KeywordReading(c, rule, k).Value?
    ensures k in StoredPatterns(c, rule, keys) ==>
      StoredPatterns(c, rule, keys)[k] == KeywordReading(c, rule, k).pattern
  {
    if keys != [] {
      StoredIsRead(c, rule, keys[..|keys| - 1], k);
      assert keys == keys[..|keys| - 1] + [keys[|keys| - 1]];
    }
  }

  /** Faults carry a failing status. */
  lemma FaultsFail(c: Conversions, rule: Node, key: string)
    ensures KeywordReading(c, rule, key) != Fault(Success)
  {}

  method ReadArea(c: Conversions, node: Node) returns (r: Reading)
    ensures r == AreaReading(c, node)
  {
    if !node.Mapping? { return Fault(Error); }
    var a := Child(node, "destination_a");
    if a.Undefined? { return Fault(Error); }
    if !a.Scalar? { return Fault(Error); }
    var b := Child(node, "destination_b");
    if b.Undefined? { return Fault(Error); }
    if !b.Scalar? { return Fault(Error); }
    var distanceA := AsInt(c, a);
    if distanceA.None? { return Fault(Threw); }
    var distanceB := AsInt(c, b);
    if distanceB.None? { return Fault(Threw); }
    r := Value(AreaPattern(distanceA.value, distanceB.value));
  }

  method ReadRange(c: Conversions, node: Node) returns (r: Reading)
    ensures r == RangeReading(c, node)
  {
    if !node.Mapping? { return Fault(Error); }
    var shape := Child(node, "shape");
    if shape.Undefined? { return Fault(Error); }
    if !shape.Scalar? { return Fault(Error); }
    if Lower(shape.text) != "circle" { return Fault(Error); }
    var a := Child(node, "distance_a");
    if a.Undefined? { return Fault(Error); }
    if !a.Scalar? { return Fault(Error); }
    var b := Child(node, "distance_b");
    if b.Undefined? { return Fault(Error); }
    if !b.Scalar? { return Fault(Error); }
    var distanceA := AsInt(c, a);
    if distanceA.None? { return Fault(Threw); }
    var distanceB := AsInt(c, b);
    if distanceB.None? { return Fault(Threw); }
    r := Value(RangePattern(Circle, distanceA.value, distanceB.value));
  }

  /** One turn of the loop: what the keyword's branch reads. */
  method ReadKeyword(c: Conversions, rule: Node, key: string) returns (r: Reading)
    ensures r == KeywordReading(c, rule, key)
  {
    var child := Subscript(rule, key);
    if child.None? { return Fault(Threw); }
    var node := child.value;
    if node.Undefined? { return Absent; }
    if key == "nh" {
      var nh := AsText(c, node);
      if nh.None? { return Fault(Threw); }
      if nh.value != "common" && nh.value != "secure" { return Fault(Error); }
      r := Value(TextPattern(nh.value));
    } else if key == "ht" {
      var ht := AsText(c, node);
      if ht.None? { return Fault(Threw); }
      if ht.value != "TSB" && ht.value != "GBC" && ht.value != "SHB" { return Fault(Error); }
      r := Value(TextPattern(ht.value));
    } else if key == "mhl" {
      var mhl := AsInt(c, node);
      if mhl.None? { return Fault(Threw); }
      r := Value(IntPattern(mhl.value));
    } else if key == "destination_area" {
      r := ReadArea(c, node);
    } else if key == "allowed_so_range" {
      r := ReadRange(c, node);
    } else {
      r := Absent;
    }
  }

  /** The reader proper: walks the keyword list, stores what it can read into the
      signature and returns at the first fault. */
  method ReadGeonetPattern(c: Conversions, rule: Node, sig: Signature)
    returns (st: PatternStatus, out: Signature)
    requires sig.patterns == map[]
    ensures st == FirstFault(c, rule, GEONET_KEYWORDS)
    ensures st == Success ==> out == sig.(patterns := StoredPatterns(c, rule, GEONET_KEYWORDS))
  {
    out := sig;
    var keys := GEONET_KEYWORDS;
    var i := 0;
    while i < |keys|
      invariant 0 <= i <= |keys|
      invariant FirstFault(c, rule, keys[..i]) == Success
      invariant out == sig.(patterns := StoredPatterns(c, rule, keys[..i]))
    {
      var key := keys[i];
      FaultsFail(c, rule, key);
      assert keys[..i + 1][..i] == keys[..i];
      var reading := ReadKeyword(c, rule, key);
      match reading {
        case Fault(status) =>
          FaultIsFinal(c, rule, keys, i + 1);
          return status, out;
        case Value(pattern) => out := out.(patterns := out.patterns[key := pattern]);
        case Absent =>
      }
      i := i + 1;
    }
    assert keys[..i] == keys;
    st := Success;
  }

  /** Reading a facility rule walks the GeoNetworking keywords, none of which is
      the identity list, so it stores nothing and fails only if subscripting does. */
  method ReadFacilityPattern(rule: Node, sig: Signature) returns (st: PatternStatus, out: Signature)
    ensures out == sig
    ensures st == if rule.Scalar? then Threw else Success
  {
    out := sig;
    for i := 0 to |GEONET_KEYWORDS|
      invariant out == sig
      invariant i > 0 ==> !rule.Scalar?
    {
      if Subscript(rule, GEONET_KEYWORDS[i]).None? { return Threw, out; }
    }
    assert !rule.Scalar?;
    st := Success;
  }
}
