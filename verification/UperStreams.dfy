/** The packing runtime as it works: streams that are written to and read from, member
    by member and element by element. */
module UperStreams {
  import opened Base
  import opened PackedBits
  import opened Uper

  // ---------------------------------------------------------------- writing

  lemma {:induction false} ItemsOfConcat(element: Type, a: seq<Value>, b: seq<Value>)
    ensures EncodeItems(element, a + b) == Join(EncodeItems(element, a), EncodeItems(element, b))
  {
    hide Encode;
    if a == [] {
      assert a + b == b;
      if EncodeItems(element, b).Some? {
        assert [] + EncodeItems(element, b).value == EncodeItems(element, b).value;
      }
    } else {
      ItemsOfConcat(element, a[1..], b);
      assert (a + b)[0] == a[0] && (a + b)[1..] == a[1..] + b;
      JoinIsAssociative(Encode(element, a[0]), EncodeItems(element, a[1..]), EncodeItems(element, b));
    }
  }

  /** What one turn of the loop over fragments writes. */
  function PartOf(left: Octets): Bits {
    LengthBits(|left|) + PutOctets(left[..MayPut(|left|)])
      + if |left| >= 16384 && MayPut(|left|) == |left| then LengthBits(0) else []
  }

  lemma PartThenRest(left: Octets)
    requires left != []
    ensures var n := MayPut(|left|);
      n > 0 && PutFragments(left) == PartOf(left) + if left[n..] == [] then [] else PutFragments(left[n..])
  {
    hide LengthBits, PutOctets;
    var n := MayPut(|left|);
    if |left| >= 16384 && n == |left| {
      NoFragments();
      assert left[n..] == [];
    }
  }

  lemma NoFragments()
    ensures PutFragments([]) == LengthBits(0)
  {
    hide LengthBits;
    assert PutOctets([]) == [];
    assert LengthBits(0) + [] + [] == LengthBits(0);
  }

  lemma JoinIsAssociative(a: Option<Bits>, b: Option<Bits>, c: Option<Bits>)
    ensures Join(Join(a, b), c) == Join(a, Join(b, c))
  {
    if a.Some? && b.Some? && c.Some? {
      assert a.value + b.value + c.value == a.value + (b.value + c.value);
    }
  }

  class OutStream {
    var bits: Bits

    constructor ()
      ensures bits == []
    {
      bits := [];
    }

    /** At most 31 bits at a time. */
    method PutFewBits(v: nat, n: nat) returns (ok: bool)
      modifies this
      ensures ok <==> n <= CHUNK
      ensures bits == if ok then old(bits) + Put(v, n) else old(bits)
    {
      ok := n <= CHUNK;
      if ok {
        bits := bits + Put(v, n);
      }
    }

    method PutWholeNumber(v: nat, n: nat)
      modifies this
      ensures bits == old(bits) + Put(v, n)
      decreases n
    {
      PutWholeIsPut(v, n);
      if n <= CHUNK {
        var _ := PutFewBits(v, n);
      } else {
        PutWholeNumber(v / 0x8000_0000, n - CHUNK);
        var _ := PutFewBits(v, CHUNK);
        PutWholeIsPut(v / 0x8000_0000, n - CHUNK);
      }
    }

    method PutOctetString(o: Octets)
      modifies this
      ensures bits == old(bits) + PutOctets(o)
    {
      hide Put;
      var i := 0;
      assert o[0..] == o;
      while i < |o|
        invariant 0 <= i <= |o|
        invariant bits + PutOctets(o[i..]) == old(bits) + PutOctets(o)
      {
        ghost var before := bits;
        var _ := PutFewBits(o[i], 8);
        assert o[i..][0] == o[i] && o[i..][1..] == o[i + 1..];
        assert before + (Put(o[i], 8) + PutOctets(o[i + 1..])) == bits + PutOctets(o[i + 1..]);
        i := i + 1;
      }
      assert bits + [] == bits;
    }

    method PutInteger(r: Range, v: Long) returns (ok: bool)
      modifies this
      ensures ok <==> EncodeInteger(r, v).Some?
      ensures ok ==> bits == old(bits) + EncodeInteger(r, v).value
    {
      hide OctetsOf, PutOpen, Put, PutWhole;
      var outside := v < r.lower || v > r.upper;
      ghost var mark := if r.extensible then [outside] else [];
      if r.extensible {
        bits := bits + [outside];
      } else if outside {
        return false;
      }
      ok := true;
      assert bits == old(bits) + mark;
      if outside {
        PutOpenInteger(v);
      } else {
        PutWholeNumber(v - r.lower, r.width);
        PutWholeIsPut(v - r.lower, r.width);
      }
    }

    method PutOpenInteger(v: Long)
      modifies this
      ensures bits == old(bits) + PutOpen(v)
    {
      hide OctetsOf, PutFragments;
      var o := SkipRedundant(OctetsOf(v, OCTETS_IN_LONG));
      ghost var _ := OpenIsShortest(v);
      PutOctetsWithLengths(o);
    }

    /** A length, or part of it: how many units may follow, and whether a length of zero has
        to follow those. */
    method PutLength(length: nat) returns (mayPut: nat, needsEnd: bool)
      modifies this
      ensures bits == old(bits) + LengthBits(length) && mayPut == MayPut(length)
      ensures needsEnd <==> length >= 16384 && mayPut == length
    {
      hide Put;
      if length <= 127 {
        var _ := PutFewBits(length, 8);
        return length, false;
      }
      if length < 16384 {
        var _ := PutFewBits(0x8000 + length, 16);
        return length, false;
      }
      needsEnd := length % 16384 == 0;
      var blocks := length / 16384;
      if blocks > 4 {
        needsEnd, blocks := false, 4;
      }
      var _ := PutFewBits(0xC0 + blocks, 8);
      mayPut := blocks * 16384;
    }

    /** Octets behind their lengths, fragment by fragment. */
    method PutOctetsWithLengths(o: Octets)
      requires o != []
      modifies this
      ensures bits == old(bits) + PutFragments(o)
    {
      hide PartOf, PutFragments;
      var left := o;
      ghost var done: Bits := [];
      assert [] + PutFragments(o) == PutFragments(o) && old(bits) + [] == old(bits);
      while left != []
        invariant bits == old(bits) + done
        invariant done + (if left == [] then [] else PutFragments(left)) == PutFragments(o)
        decreases |left|
      {
        PartThenRest(left);
        var n := PutPart(left);
        ghost var rest := if left[n..] == [] then [] else PutFragments(left[n..]);
        assert done + (PartOf(left) + rest) == done + PartOf(left) + rest;
        assert old(bits) + done + PartOf(left) == old(bits) + (done + PartOf(left));
        done := done + PartOf(left);
        left := left[n..];
      }
      assert done + [] == done;
    }

    /** One turn of the loop: a length, the octets it announces, and the end if it is due. */
    method PutPart(left: Octets) returns (n: nat)
      modifies this
      ensures n == MayPut(|left|) && bits == old(bits) + PartOf(left)
    {
      hide PutOctets, LengthBits, MayPut;
      var needsEnd;
      n, needsEnd := PutLength(|left|);
      PutOctetString(left[..n]);
      if needsEnd {
        var _, _ := PutLength(0);
      }
    }

    method PutValue(t: Type, v: Value) returns (ok: bool)
      modifies this
      ensures ok <==> Encode(t, v).Some?
      ensures ok ==> bits == old(bits) + Encode(t, v).value
      decreases t, 0
    {
      hide EncodeInteger, EncodeMembers, EncodeItems, EncodeCount, PresenceOf;
      match t {
        case Integer(r) =>
          if v.Number? { ok := PutInteger(r, v.number); } else { ok := false; }
        case Sequence(ms) =>
          if v.Record? { ok := PutSequence(ms, v.fields); } else { ok := false; }
        case SequenceOf(size, element) =>
          if v.List? { ok := PutSequenceOf(size, element, v.items); } else { ok := false; }
      }
    }

    method PutPresence(members: Members, fields: seq<Option<Value>>)
      modifies this
      ensures bits == old(bits) + PresenceOf(members, fields)
    {
      var ms, i := members, 0;
      while ms.Member? && i < |fields|
        invariant 0 <= i <= |fields|
        invariant bits + PresenceOf(ms, fields[i..]) == old(bits) + PresenceOf(members, fields)
        decreases |fields| - i
      {
        if ms.optional {
          bits := bits + [fields[i].Some?];
        }
        assert fields[i..][1..] == fields[i + 1..];
        ms, i := ms.others, i + 1;
      }
    }

    /** First the presence bits, then the members that are there. */
    method PutSequence(members: Members, fields: seq<Option<Value>>) returns (ok: bool)
      modifies this
      ensures ok <==> EncodeMembers(members, fields).Some?
      ensures ok ==> bits == old(bits) + (PresenceOf(members, fields) + EncodeMembers(members, fields).value)
      decreases members, 1
    {
      hide Encode, PresenceOf;
      PutPresence(members, fields);
      ghost var start := bits;
      ghost var done: Bits := [];
      var ms, i := members, 0;
      assert fields[0..] == fields;
      JoinWithNothing(EncodeMembers(members, fields));
      while ms.Member?
        invariant 0 <= i <= |fields| && (ms == members || ms < members)
        invariant bits == start + done
        invariant EncodeMembers(members, fields) == Join(Some(done), EncodeMembers(ms, fields[i..]))
        decreases ms
      {
        if i == |fields| || (fields[i].None? && !ms.optional) {
          return false;
        }
        assert fields[i..][1..] == fields[i + 1..];
        if fields[i].Some? {
          ok := PutValue(ms.kind, fields[i].value);
          if !ok {
            return;
          }
          ghost var more := Encode(ms.kind, fields[i].value);
          JoinIsAssociative(Some(done), more, EncodeMembers(ms.others, fields[i + 1..]));
          done := done + more.value;
        }
        ms, i := ms.others, i + 1;
      }
      ok := i == |fields|;
      if ok {
        assert done + [] == done;
      }
    }

    method PutSequenceOf(size: Size, element: Type, items: seq<Value>) returns (ok: bool)
      modifies this
      ensures ok <==> Join(EncodeCount(size, |items|), EncodeItems(element, items)).Some?
      ensures ok ==> bits == old(bits) + Join(EncodeCount(size, |items|), EncodeItems(element, items)).value
      decreases element, 1
    {
      hide Encode, EncodeItems, Put;
      if |items| < size.lower || |items| > size.upper {
        return false;
      }
      ok := PutFewBits(|items| - size.lower, size.width);
      if !ok {
        return;
      }
      ghost var start := bits;
      var i := 0;
      NoItems(element);
      assert items[..0] == [] && start + [] == start;
      while i < |items|
        invariant 0 <= i <= |items|
        invariant EncodeItems(element, items[..i]).Some? && bits == start + EncodeItems(element, items[..i]).value
      {
        ok := PutValue(element, items[i]);
        OneMoreItem(element, items, i);
        if !ok {
          return;
        }
        i := i + 1;
      }
      ok := true;
      assert items[..i] == items;
    }
  }

  lemma NoItems(element: Type)
    ensures EncodeItems(element, []) == Some([])
  {
  }

  lemma JoinWithNothing(a: Option<Bits>)
    ensures Join(Some([]), a) == a
  {
    if a.Some? {
      assert [] + a.value == a.value;
    }
  }

  lemma OneMoreItem(element: Type, items: seq<Value>, i: nat)
    requires i < |items|
    ensures EncodeItems(element, items[..i + 1]) == Join(EncodeItems(element, items[..i]), Encode(element, items[i]))
    ensures Encode(element, items[i]).None? ==> EncodeItems(element, items).None?
  {
    hide Encode;
    ItemsOfConcat(element, items[..i], [items[i]]);
    assert items[..i + 1] == items[..i] + [items[i]];
    ItemsOfConcat(element, items[..i + 1], items[i + 1..]);
    assert items == items[..i + 1] + items[i + 1..];
    var last := Encode(element, items[i]);
    assert EncodeItems(element, [items[i]]) == Join(last, Some([]));
    if last.Some? {
      assert last.value + [] == last.value;
    }
  }

  // ---------------------------------------------------------------- reading

  /** What was read so far in front of what is read from here on. */
  function Prefixed<T>(done: seq<T>, more: Option<(seq<T>, Bits)>): Option<(seq<T>, Bits)> {
    match more
    case None => None
    case Some((items, rest)) => Some((done + items, rest))
  }

  lemma PrefixedTwice<T>(done: seq<T>, one: T, more: Option<(seq<T>, Bits)>)
    ensures Prefixed(done, Prefixed([one], more)) == Prefixed(done + [one], more)
  {
    if more.Some? {
      assert done + ([one] + more.value.0) == done + [one] + more.value.0;
    }
  }

  lemma PrefixedByNothing<T>(more: Option<(seq<T>, Bits)>)
    ensures Prefixed([], more) == more
  {
    if more.Some? {
      assert [] + more.value.0 == more.value.0;
    }
  }

  lemma OneOctet(b: Bits, n: nat)
    requires n >= 1
    ensures |b| < 8 ==> TakeOctets(b, n) == None
    ensures |b| >= 8 ==> NumberOf(b[..8]) < 256
    ensures |b| >= 8 ==> TakeOctets(b, n) == Prefixed([NumberOf(b[..8])], TakeOctets(b[8..], n - 1))
  {
    if |b| >= 8 {
      PutOfValue(b[..8]);
      PowOfOctet();
    }
  }

  class InStream {
    var bits: Bits

    constructor (bits: Bits)
      ensures this.bits == bits
    {
      this.bits := bits;
    }

    method GetFewBits(n: nat) returns (v: Option<nat>)
      modifies this
      ensures v.Some? <==> n <= CHUNK && n <= |old(bits)|
      ensures v.Some? ==> Take(old(bits), n) == Some((v.value, bits))
      ensures v.None? ==> bits == old(bits)
    {
      if n > CHUNK || n > |bits| {
        return None;
      }
      v := Some(NumberOf(bits[..n]));
      bits := bits[n..];
    }

    method GetWholeNumber(n: nat) returns (v: Option<nat>)
      modifies this
      ensures v.Some? <==> TakeWhole(old(bits), n).Some?
      ensures v.Some? ==> TakeWhole(old(bits), n) == Some((v.value, bits))
      decreases n
    {
      if n <= CHUNK {
        v := GetFewBits(n);
      } else if n > WORD {
        v := None;
      } else {
        var high := GetFewBits(CHUNK);
        if high.None? {
          return None;
        }
        v := GetWholeNumber(n - CHUNK);
        if v.Some? {
          v := Some(high.value * Pow2(n - CHUNK) + v.value);
        }
      }
    }

    method GetOctetString(n: nat) returns (o: Option<Octets>)
      modifies this
      ensures o.Some? <==> TakeOctets(old(bits), n).Some?
      ensures o.Some? ==> TakeOctets(old(bits), n) == Some((o.value, bits))
    {
      hide TakeOctets, NumberOf;
      var r: Octets := [];
      var i := 0;
      ghost var start := bits;
      PrefixedByNothing(TakeOctets(bits, n));
      while i < n
        invariant 0 <= i <= n
        invariant TakeOctets(start, n) == Prefixed(r, TakeOctets(bits, n - i))
      {
        OneOctet(bits, n - i);
        var v := GetFewBits(8);
        if v.None? {
          return None;
        }
        PrefixedTwice(r, v.value, TakeOctets(bits, n - i - 1));
        r := r + [v.value];
        i := i + 1;
      }
      NoOctets(bits);
      assert r + [] == r;
      o := Some(r);
    }

    method GetOpen() returns (o: Option<Octets>)
      modifies this
      ensures o.Some? <==> TakeFragments(old(bits)).Some?
      ensures o.Some? ==> TakeFragments(old(bits)) == Some((o.value, bits))
    {
      hide TakeOctets, NumberOf;
      ghost var start := bits;
      var done: Octets := [];
      PrefixedByNothing(TakeFragments(start));
      while true
        invariant TakeFragments(start) == Prefixed(done, TakeFragments(bits))
        decreases |bits|
      {
        ghost var before := bits;
        var first := GetFewBits(8);
        if first.None? {
          return None;
        }
        var repeat := false;
        var n := first.value;
        if n >= 192 {
          if n - 192 < 1 || n - 192 > 4 {
            return None;
          }
          n, repeat := (n - 192) * 16384, true;
        } else if n >= 128 {
          var low := GetFewBits(8);
          if low.None? {
            return None;
          }
          n := (n - 128) * 256 + low.value;
        }
        var part := GetOctetString(n);
        if part.None? {
          return None;
        }
        if !repeat {
          return Some(done + part.value);
        }
        FragmentsGoOn(done, part.value, TakeFragments(bits));
        done := done + part.value;
      }
    }

    method GetInteger(r: Range) returns (v: Option<Long>)
      modifies this
      ensures v.Some? <==> DecodeInteger(r, old(bits)).Some?
      ensures v.Some? ==> DecodeInteger(r, old(bits)) == Some((v.value, bits))
    {
      hide TakeFragments, TakeWhole, LongOf;
      var outside := false;
      if r.extensible {
        if bits == [] {
          return None;
        }
        outside := bits[0];
        bits := bits[1..];
      }
      if outside {
        var o := GetOpen();
        v := if o.None? then None else LongOf(o.value);
      } else {
        var u := GetWholeNumber(r.width);
        v := if u.None? || u.value > r.upper - r.lower then None else Some(u.value + r.lower);
      }
    }

    method GetValue(t: Type) returns (v: Option<Value>)
      modifies this
      ensures v.Some? <==> Decode(t, old(bits)).Some?
      ensures v.Some? ==> Decode(t, old(bits)) == Some((v.value, bits))
      decreases t, 0
    {
      hide DecodeInteger, DecodeMembers, DecodeItems, DecodeCount;
      match t {
        case Integer(r) =>
          var n := GetInteger(r);
          v := if n.None? then None else Some(Number(n.value));
        case Sequence(ms) =>
          var optional := CountOptional(ms);
          if |bits| < optional {
            return None;
          }
          var presence := bits[..optional];
          bits := bits[optional..];
          var fields := GetMembers(ms, presence);
          v := if fields.None? then None else Some(Record(fields.value));
        case SequenceOf(size, element) =>
          var items := GetSequenceOf(size, element);
          v := if items.None? then None else Some(List(items.value));
      }
    }

    method GetMembers(members: Members, presence: Bits) returns (fields: Option<seq<Option<Value>>>)
      requires |presence| == CountOptional(members)
      modifies this
      ensures fields.Some? <==> DecodeMembers(members, presence, old(bits)).Some?
      ensures fields.Some? ==> DecodeMembers(members, presence, old(bits)) == Some((fields.value, bits))
      decreases members, 1
    {
      hide Decode;
      var ms, left, done := members, presence, [];
      ghost var start := bits;
      PrefixedByNothing(DecodeMembers(ms, left, bits));
      while ms.Member?
        invariant (ms == members || ms < members) && |left| == CountOptional(ms)
        invariant DecodeMembers(members, presence, start) == Prefixed(done, DecodeMembers(ms, left, bits))
        decreases ms
      {
        var present := true;
        if ms.optional {
          present, left := left[0], left[1..];
        }
        if present {
          var v := GetValue(ms.kind);
          if v.None? {
            return None;
          }
          PrefixedTwice(done, v, DecodeMembers(ms.others, left, bits));
          done := done + [v];
        } else {
          PrefixedTwice(done, None, DecodeMembers(ms.others, left, bits));
          done := done + [None];
        }
        ms := ms.others;
      }
      assert done + [] == done;
      fields := Some(done);
    }

    method GetSequenceOf(size: Size, element: Type) returns (items: Option<seq<Value>>)
      modifies this
      ensures items.Some? <==> Decode(SequenceOf(size, element), old(bits)).Some?
      ensures items.Some? ==> Decode(SequenceOf(size, element), old(bits)) == Some((List(items.value), bits))
      decreases element, 2
    {
      hide DecodeItems, NumberOf;
      var count := GetFewBits(size.width);
      if count.None? || count.value + size.lower > LONGEST_LIST {
        return None;
      }
      var n := count.value + size.lower;
      items := GetItems(element, n);
    }

    method GetItems(element: Type, n: nat) returns (items: Option<seq<Value>>)
      modifies this
      ensures items.Some? <==> DecodeItems(element, n, old(bits)).Some?
      ensures items.Some? ==> DecodeItems(element, n, old(bits)) == Some((items.value, bits))
      decreases element, 1
    {
      hide Decode;
      var done: seq<Value> := [];
      var i := 0;
      ghost var start := bits;
      PrefixedByNothing(DecodeItems(element, n, bits));
      while i < n
        invariant 0 <= i <= n
        invariant DecodeItems(element, n, start) == Prefixed(done, DecodeItems(element, n - i, bits))
      {
        var v := GetValue(element);
        if v.None? {
          return None;
        }
        PrefixedTwice(done, v.value, DecodeItems(element, n - i - 1, bits));
        done := done + [v.value];
        i := i + 1;
      }
      assert done + [] == done;
      items := Some(done);
    }
  }

  lemma NoOctets(b: Bits)
    ensures TakeOctets(b, 0) == Some(([], b))
  {
  }

  lemma FragmentsGoOn(done: Octets, part: Octets, more: Option<(Octets, Bits)>)
    ensures Prefixed(done, Prefixed(part, more)) == Prefixed(done + part, more)
  {
    if more.Some? {
      assert done + (part + more.value.0) == done + part + more.value.0;
    }
  }

  // ---------------------------------------------------------------- both ends

  /** What is put into one stream, followed by anything, is got back from another, and what
      followed is left; nothing is got when the value cannot be put. */
  method Transfer(t: Type, v: Value, rest: Bits) returns (received: Option<Value>, left: Bits)
    requires IsSound(t)
    ensures received == if Encode(t, v).Some? then Some(v) else None
    ensures received.Some? ==> left == rest
  {
    var sender := new OutStream();
    var ok := sender.PutValue(t, v);
    if !ok { return None, rest; }
    var receiver := new InStream(sender.bits + rest);
    assert [] + Encode(t, v).value == Encode(t, v).value;
    RoundTrip(t, v, rest);
    received := receiver.GetValue(t);
    left := receiver.bits;
  }
}
