/** Owning wrappers around raw ASN.1 structs: construct, copy, move, assign, destroy. */
module Asn1Wrapping {
  import opened Base

  type StructId = nat
  type Kind = nat
  type Name = nat

  /** A raw struct: the type it was made for and what it says. */
  datatype Struct = Struct(kind: Kind, content: int)

  /** How copying through the encoder and decoder can go. A failed decoding may leave
      a partial struct behind. */
  datatype CopyOutcome = EncodingFails | DecodingFails(partial: bool) | Copied

  // ---------------------------------------------------------------- raw memory

  /** The allocator. Freeing has the memory-safety obligations: a live struct, and the
      descriptor it was made with. */
  class StructHeap {
    var live: map<StructId, Struct>
    var freed: multiset<StructId>
    var next: StructId

    constructor ()
      ensures live == map[] && freed == multiset{} && next == 0
    {
      live, freed, next := map[], multiset{}, 0;
    }

    method Allocate(kind: Kind, content: int) returns (p: StructId)
      modifies this
      ensures p == old(next) && next == p + 1 && freed == old(freed)
      ensures live == old(live)[p := Struct(kind, content)]
    {
      p := next;
      live := live[p := Struct(kind, content)];
      next := next + 1;
    }

    /** Freeing null does nothing. */
    method Free(kind: Kind, p: Option<StructId>)
      requires p.Some? ==> p.value in live && live[p.value].kind == kind
      modifies this
      ensures next == old(next)
      ensures live == if p.Some? then old(live) - {p.value} else old(live)
      ensures freed == if p.Some? then old(freed) + multiset{p.value} else old(freed)
    {
      if p.Some? {
        live := live - {p.value};
        freed := freed + multiset{p.value};
      }
    }

    /** A deep copy of a non-null struct, or None for the exception. */
    method Copy(kind: Kind, original: StructId, outcome: CopyOutcome) returns (q: Option<StructId>)
      requires original in live && live[original].kind == kind && next !in live
      modifies this
      ensures outcome == Copied ==>
        q == Some(old(next)) && next == old(next) + 1 && freed == old(freed)
        && live == old(live)[old(next) := old(live)[original]]
      ensures outcome != Copied ==> q == None && live == old(live)
      ensures outcome == DecodingFails(true) ==> freed == old(freed) + multiset{old(next)} && next == old(next) + 1
      ensures outcome == DecodingFails(false) || outcome == EncodingFails ==> freed == old(freed) && next == old(next)
    {
      var encoded := live[original].content;
      match outcome {
        case EncodingFails => q := None;
        case DecodingFails(partial) =>
          if partial {
            var p := Allocate(kind, 0);
            Free(kind, Some(p));
            assert live == old(live);
          }
          q := None;
        case Copied =>
          var p := Allocate(kind, encoded);
          q := Some(p);
      }
    }
  }

  /** A type descriptor: a mutable global that wrappers refer to. */
  class Descriptor {
    var kind: Kind

    constructor (kind: Kind)
      ensures this.kind == kind
    {
      this.kind := kind;
    }
  }

  // ---------------------------------------------------------------- the wrapper

  class Wrapper {
    var str: Option<StructId>
    const desc: Descriptor

    constructor (desc: Descriptor, heap: StructHeap)
      modifies heap
      ensures this.desc == desc && str == Some(old(heap.next))
      ensures heap.next == old(heap.next) + 1 && heap.freed == old(heap.freed)
      ensures heap.live == old(heap.live)[old(heap.next) := Struct(old(desc.kind), 0)]
    {
      this.desc := desc;
      str := None;
      new;
      var p := heap.Allocate(desc.kind, 0);
      str := Some(p);
    }

    /** The state of a wrapper that takes a struct over. */
    constructor Holding(desc: Descriptor, str: Option<StructId>)
      ensures this.desc == desc && this.str == str
    {
      this.desc, this.str := desc, str;
    }

    /** The copy constructor; null stands for the exception that leaves no object. */
    static method CopyOf(other: Wrapper, heap: StructHeap, outcome: CopyOutcome) returns (w: Wrapper?)
      requires other.str.Some? && other.str.value in heap.live && heap.next !in heap.live
      requires heap.live[other.str.value].kind == other.desc.kind
      modifies heap
      ensures w != null <==> outcome == Copied
      ensures w != null ==> fresh(w) && w.desc == other.desc && w.str == Some(old(heap.next))
      ensures Effect(outcome, old(heap.live), old(heap.freed), old(heap.next), other.str.value,
        heap.live, heap.freed, heap.next)
    {
      var q := heap.Copy(other.desc.kind, other.str.value, outcome);
      if q.None? { return null; }
      w := new Wrapper.Holding(other.desc, q);
    }

    /** What copying a struct does to memory. */
    static predicate Effect(outcome: CopyOutcome, live: map<StructId, Struct>, freed: multiset<StructId>,
        next: StructId, original: StructId, live': map<StructId, Struct>, freed': multiset<StructId>, next': StructId)
    {
      original in live &&
      match outcome
      case Copied => live' == live[next := live[original]] && freed' == freed && next' == next + 1
      case DecodingFails(true) => live' == live && freed' == freed + multiset{next} && next' == next + 1
      case _ => live' == live && freed' == freed && next' == next
    }

    /** The move constructor: starts empty and swaps. */
    constructor Moved(other: Wrapper)
      modifies other
      ensures desc == other.desc && str == old(other.str) && other.str == None
    {
      desc := other.desc;
      str := None;
      new;
      var k := other.desc.kind;
      Swap(other);
      assert other.desc.kind == k;
    }

    /** Swaps the struct pointers and, because the descriptor is held by reference, the
        contents of the two descriptors. */
    method Swap(other: Wrapper)
      modifies this`str, other`str
      modifies if desc == other.desc then {} else {desc, other.desc}
      ensures str == old(other.str) && other.str == old(str)
      ensures desc.kind == old(other.desc.kind) && other.desc.kind == old(desc.kind)
    {
      str, other.str := other.str, str;
      if desc != other.desc {
        desc.kind, other.desc.kind := other.desc.kind, desc.kind;
      }
    }

    /** Copies into a temporary, swaps with it and lets it die with the old struct. When
        copying throws, nothing has changed yet. Like the swap, it also exchanges the
        contents of the two descriptors. */
    method CopyAssign(other: Wrapper, heap: StructHeap, outcome: CopyOutcome) returns (ok: bool)
      requires other.str.Some? && other.str.value in heap.live && heap.live[other.str.value].kind == other.desc.kind
      requires str.Some? ==> str.value in heap.live && heap.live[str.value].kind == desc.kind
      requires heap.next !in heap.live
      modifies this`str, heap
      modifies if desc == other.desc then {} else {desc, other.desc}
      ensures ok <==> outcome == Copied
      ensures !ok ==> str == old(str) && desc.kind == old(desc.kind) && other.desc.kind == old(other.desc.kind)
      ensures !ok ==>
        Effect(outcome, old(heap.live), old(heap.freed), old(heap.next), old(other.str).value,
          heap.live, heap.freed, heap.next)
      ensures ok ==> desc.kind == old(other.desc.kind) && other.desc.kind == old(desc.kind)
      ensures ok ==> str == Some(old(heap.next)) && heap.next == old(heap.next) + 1
      ensures ok ==> heap.live == old(heap.live)[old(heap.next) := old(heap.live[other.str.value])] - Held(old(str))
      ensures ok ==> heap.freed == old(heap.freed) + multiset(Held(old(str)))
    {
      var tmp := CopyOf(other, heap, outcome);
      if tmp == null { return false; }
      Swap(tmp);
      tmp.Destroy(heap);
      ok := true;
    }

    /** Swaps; the source is left with what the target had. */
    method MoveAssign(other: Wrapper)
      modifies this`str, other`str
      modifies if desc == other.desc then {} else {desc, other.desc}
      ensures str == old(other.str) && other.str == old(str)
      ensures desc.kind == old(other.desc.kind) && other.desc.kind == old(desc.kind)
    {
      Swap(other);
    }

    /** The destructor. */
    method Destroy(heap: StructHeap)
      requires str.Some? ==> str.value in heap.live && heap.live[str.value].kind == desc.kind
      modifies heap
      ensures heap.next == old(heap.next)
      ensures heap.live == old(heap.live) - Held(str)
      ensures heap.freed == old(heap.freed) + multiset(Held(str))
    {
      heap.Free(desc.kind, str);
    }
  }

  function Held(p: Option<StructId>): set<StructId> {
    if p.Some? then {p.value} else {}
  }

  // ---------------------------------------------------------------- programs

  datatype Command =
    | Construct(name: Name)
    | CopyConstruct(name: Name, source: Name, outcome: CopyOutcome)
    | MoveConstruct(name: Name, source: Name)
    | CopyAssignment(name: Name, source: Name, outcome: CopyOutcome)
    | MoveAssignment(name: Name, source: Name)
    | Write(name: Name, content: int)
    | DestroyNamed(name: Name)

  /** The memory of a program over wrappers of one type. */
  datatype Memory = Memory(
    live: map<StructId, Struct>,
    freed: multiset<StructId>,
    next: StructId,
    holds: map<Name, Option<StructId>>)

  /** What the language demands: fresh names for new objects, existing ones otherwise,
      and a non-null struct to copy from or write to. */
  predicate IsLegal(m: Memory, cmd: Command) {
    match cmd
    case Construct(n) => n !in m.holds
    case CopyConstruct(n, s, _) => n !in m.holds && s in m.holds && m.holds[s].Some?
    case MoveConstruct(n, s) => n !in m.holds && s in m.holds
    case CopyAssignment(n, s, _) => n in m.holds && s in m.holds && m.holds[s].Some?
    case MoveAssignment(n, s) => n in m.holds && s in m.holds
    case Write(n, _) => n in m.holds && m.holds[n].Some?
    case DestroyNamed(n) => n in m.holds
  }

  predicate PointersAreLive(m: Memory) {
    forall n :: n in m.holds && m.holds[n].Some? ==> m.holds[n].value in m.live
  }

  predicate HoldersDiffer(m: Memory) {
    forall a, b :: a in m.holds && b in m.holds && m.holds[a].Some? && m.holds[a] == m.holds[b] ==> a == b
  }

  /** Some wrapper holds this struct. */
  predicate IsHeld(m: Memory, p: StructId) {
    exists n :: n in m.holds && m.holds[n] == Some(p)
  }

  predicate AllAreHeld(m: Memory) {
    forall p :: p in m.live ==> IsHeld(m, p)
  }

  predicate LiveAreTyped(kind: Kind, m: Memory) {
    forall p :: p in m.live ==> p < m.next && m.live[p].kind == kind
  }

  ghost predicate FreedAtMostOnce(m: Memory) {
    forall p: StructId :: m.freed[p] == if p < m.next && p !in m.live then 1 else 0
  }

  /** Ownership: non-null wrappers and live structs correspond one to one, every struct
      handed out is either live or has been freed exactly once, and types agree. */
  ghost predicate IsOwned(kind: Kind, m: Memory) {
    PointersAreLive(m) && HoldersDiffer(m) && AllAreHeld(m) && LiveAreTyped(kind, m) && FreedAtMostOnce(m)
  }

  /** The effect of one command, in one piece. */
  function Exec(kind: Kind, m: Memory, cmd: Command): Memory
    requires IsLegal(m, cmd)
    requires PointersAreLive(m)
  {
    match cmd
    case Construct(n) =>
      Memory(m.live[m.next := Struct(kind, 0)], m.freed, m.next + 1, m.holds[n := Some(m.next)])
    case CopyConstruct(n, s, outcome) =>
      if outcome == Copied then
        Memory(m.live[m.next := m.live[m.holds[s].value]], m.freed, m.next + 1, m.holds[n := Some(m.next)])
      else FailedCopy(m, outcome)
    case MoveConstruct(n, s) => m.(holds := m.holds[n := m.holds[s]][s := None])
    case CopyAssignment(n, s, outcome) =>
      if outcome == Copied then
        Memory(m.live[m.next := m.live[m.holds[s].value]] - Held(m.holds[n]),
          m.freed + multiset(Held(m.holds[n])), m.next + 1, m.holds[n := Some(m.next)])
      else FailedCopy(m, outcome)
    case MoveAssignment(n, s) => m.(holds := m.holds[n := m.holds[s]][s := m.holds[n]])
    case Write(n, content) =>
      m.(live := m.live[m.holds[n].value := m.live[m.holds[n].value].(content := content)])
    case DestroyNamed(n) =>
      Memory(m.live - Held(m.holds[n]), m.freed + multiset(Held(m.holds[n])), m.next, m.holds - {n})
  }

  function FailedCopy(m: Memory, outcome: CopyOutcome): Memory {
    if outcome == DecodingFails(true) then m.(freed := m.freed + multiset{m.next}, next := m.next + 1) else m
  }

  const EMPTY := Memory(map[], multiset{}, 0, map[])

  /** A legal program. */
  predicate IsProgram(kind: Kind, m: Memory, cmds: seq<Command>)
    decreases |cmds|
  {
    cmds != [] ==>
      IsLegal(m, cmds[0])
      && PointersAreLive(m)
      && IsProgram(kind, Exec(kind, m, cmds[0]), cmds[1..])
  }

  function ExecAll(kind: Kind, m: Memory, cmds: seq<Command>): Memory
    requires IsProgram(kind, m, cmds)
    decreases |cmds|
  {
    if cmds == [] then m else ExecAll(kind, Exec(kind, m, cmds[0]), cmds[1..])
  }

  /** Every command keeps the ownership invariant. */
  lemma ExecKeepsOwnership(kind: Kind, m: Memory, cmd: Command)
    requires IsOwned(kind, m) && IsLegal(m, cmd)
    ensures IsOwned(kind, Exec(kind, m, cmd))
  {
    var m' := Exec(kind, m, cmd);
    forall p | p in m'.live
      ensures IsHeld(m', p)
    {
      StructsStayHeld(kind, m, cmd, p);
    }
    PointersStayLive(kind, m, cmd);
    HoldersStayApart(kind, m, cmd);
    MemoryStaysAccounted(kind, m, cmd);
    hide PointersAreLive;
    hide HoldersDiffer;
    hide LiveAreTyped;
    hide FreedAtMostOnce;
    hide Exec;
    hide IsHeld;
  }

  lemma PointersStayLive(kind: Kind, m: Memory, cmd: Command)
    requires PointersAreLive(m) && HoldersDiffer(m) && LiveAreTyped(kind, m) && IsLegal(m, cmd)
    ensures PointersAreLive(Exec(kind, m, cmd))
  {}

  lemma HoldersStayApart(kind: Kind, m: Memory, cmd: Command)
    requires PointersAreLive(m) && HoldersDiffer(m) && LiveAreTyped(kind, m) && IsLegal(m, cmd)
    ensures HoldersDiffer(Exec(kind, m, cmd))
  {}

  lemma MemoryStaysAccounted(kind: Kind, m: Memory, cmd: Command)
    requires PointersAreLive(m) && LiveAreTyped(kind, m) && FreedAtMostOnce(m) && IsLegal(m, cmd)
    ensures LiveAreTyped(kind, Exec(kind, m, cmd)) && FreedAtMostOnce(Exec(kind, m, cmd))
  {}

  lemma StructsStayHeld(kind: Kind, m: Memory, cmd: Command, p: StructId)
    requires IsOwned(kind, m) && IsLegal(m, cmd) && p in Exec(kind, m, cmd).live
    ensures IsHeld(Exec(kind, m, cmd), p)
  {
    hide FreedAtMostOnce, LiveAreTyped, PointersAreLive;
    assert PointersAreLive(m);
    var m' := Exec(kind, m, cmd);
    if p !in m.live {
      assert m'.holds[cmd.name] == Some(p);
    } else {
      var n :| n in m.holds && m.holds[n] == Some(p);
      var heir := match cmd
        case MoveConstruct(t, s) => if n == s then t else n
        case MoveAssignment(t, s) => if n == s then t else if n == t then s else n
        case _ => n;
      assert heir in m'.holds && m'.holds[heir] == Some(p);
    }
  }

  /** Over every program: the invariant holds at the end of it. */
  lemma {:induction false} ProgramsKeepOwnership(kind: Kind, m: Memory, cmds: seq<Command>)
    requires IsOwned(kind, m) && IsProgram(kind, m, cmds)
    ensures IsOwned(kind, ExecAll(kind, m, cmds))
    decreases |cmds|
  {
    if cmds != [] {
      ExecKeepsOwnership(kind, m, cmds[0]);
      ProgramsKeepOwnership(kind, Exec(kind, m, cmds[0]), cmds[1..]);
    }
  }

  /** Once every wrapper is destroyed nothing is live and every struct ever handed out
      has been freed exactly once, whatever the program did in between. */
  lemma NothingLeaks(kind: Kind, cmds: seq<Command>)
    requires IsProgram(kind, EMPTY, cmds)
    ensures var m := ExecAll(kind, EMPTY, cmds);
      m.holds == map[] ==> m.live == map[] && forall p: StructId :: m.freed[p] == if p < m.next then 1 else 0
  {
    ProgramsKeepOwnership(kind, EMPTY, cmds);
  }

  /** What a wrapper says, if it is not null. */
  function ValueOf(m: Memory, n: Name): Option<int> {
    if n in m.holds && m.holds[n].Some? && m.holds[n].value in m.live then Some(m.live[m.holds[n].value].content)
    else None
  }

  /** Copies are deep and assignments touch nothing else: a command changes what a wrapper
      says only if it names it, and then to what its kind of command promises; a copy
      that throws changes nothing at all. */
  lemma CommandsAreIsolated(kind: Kind, m: Memory, cmd: Command)
    requires IsOwned(kind, m) && IsLegal(m, cmd)
    ensures var m' := Exec(kind, m, cmd);
      match cmd
      case Construct(n) => ValueOf(m', n) == Some(0)
      case CopyConstruct(n, s, outcome) =>
        ValueOf(m', n) == (if outcome == Copied then ValueOf(m, s) else ValueOf(m, n))
        && ValueOf(m', s) == ValueOf(m, s)
      case CopyAssignment(n, s, outcome) =>
        ValueOf(m', n) == (if outcome == Copied then ValueOf(m, s) else ValueOf(m, n))
        && ValueOf(m', s) == ValueOf(m, s)
      case MoveConstruct(n, s) => ValueOf(m', n) == ValueOf(m, s) && ValueOf(m', s) == None
      case MoveAssignment(n, s) => ValueOf(m', n) == ValueOf(m, s) && ValueOf(m', s) == ValueOf(m, n)
      case Write(n, content) => ValueOf(m', n) == Some(content)
      case DestroyNamed(n) => n !in m'.holds
    ensures forall k :: !Names(cmd, k) ==> ValueOf(Exec(kind, m, cmd), k) == ValueOf(m, k)
  {
    hide FreedAtMostOnce, AllAreHeld, IsHeld, Names;
    forall k | !Names(cmd, k)
      ensures ValueOf(Exec(kind, m, cmd), k) == ValueOf(m, k)
    {
      OthersKeepTheirValue(kind, m, cmd, k);
    }
  }

  predicate Names(cmd: Command, k: Name) {
    k == cmd.name
    || ((cmd.CopyConstruct? || cmd.MoveConstruct? || cmd.CopyAssignment? || cmd.MoveAssignment?) && k == cmd.source)
  }

  lemma OthersKeepTheirValue(kind: Kind, m: Memory, cmd: Command, k: Name)
    requires IsOwned(kind, m) && IsLegal(m, cmd) && !Names(cmd, k)
    ensures ValueOf(Exec(kind, m, cmd), k) == ValueOf(m, k)
  {
    hide FreedAtMostOnce, AllAreHeld, IsHeld;
  }

  // ---------------------------------------------------------------- programs over real wrappers

  lemma OwnedGives(kind: Kind, m: Memory, n: Name)
    requires IsOwned(kind, m)
    ensures PointersAreLive(m) && m.next !in m.live
    ensures n in m.holds && m.holds[n].Some? ==> m.holds[n].value in m.live && m.live[m.holds[n].value].kind == kind
  {}

  /** Named wrapper objects over one descriptor. */
  class Program {
    const heap: StructHeap
    const desc: Descriptor
    var wrappers: map<Name, Wrapper>
    ghost var repr: set<Wrapper>  // every wrapper object there has been

    ghost predicate Valid()
      reads this, heap, desc, repr
    {
      AreApart() && IsOwned(desc.kind, Mem())
    }

    /** Different names stand for different objects, all over the one descriptor. */
    ghost predicate AreApart()
      reads this
    {
      && (forall n :: n in wrappers ==> wrappers[n] in repr && wrappers[n].desc == desc)
      && (forall a, b :: a in wrappers && b in wrappers && wrappers[a] == wrappers[b] ==> a == b)
    }

    ghost function Mem(): Memory
      requires AreApart()
      reads this, heap, repr
    {
      Memory(heap.live, heap.freed, heap.next, map n | n in wrappers :: wrappers[n].str)
    }

    constructor (kind: Kind)
      ensures Valid() && Mem() == EMPTY && desc.kind == kind && fresh(heap) && fresh(desc)
    {
      heap := new StructHeap();
      desc := new Descriptor(kind);
      wrappers, repr := map[], {};
    }

    method ConstructNamed(n: Name)
      requires Valid() && IsLegal(Mem(), Construct(n))
      modifies this, heap, repr
      ensures Valid() && Mem() == Exec(desc.kind, old(Mem()), Construct(n))
      ensures fresh(repr - old(repr))
    {
      hide IsOwned;
      hide PointersAreLive;
      ghost var m := Mem();
      ExecKeepsOwnership(desc.kind, m, Construct(n));
      OwnedGives(desc.kind, m, n);
      var w := new Wrapper(desc, heap);
      wrappers, repr := wrappers[n := w], repr + {w};
      assert Mem() == Exec(desc.kind, m, Construct(n)) by {
        assert Mem().holds == Exec(desc.kind, m, Construct(n)).holds;
      }
    }

    method CopyConstructNamed(n: Name, s: Name, outcome: CopyOutcome)
      requires Valid() && IsLegal(Mem(), CopyConstruct(n, s, outcome))
      modifies this, heap, repr
      ensures Valid() && Mem() == Exec(desc.kind, old(Mem()), CopyConstruct(n, s, outcome))
      ensures fresh(repr - old(repr))
    {
      hide IsOwned;
      hide PointersAreLive;
      ghost var m := Mem();
      ExecKeepsOwnership(desc.kind, m, CopyConstruct(n, s, outcome));
      OwnedGives(desc.kind, m, s);
      var w := Wrapper.CopyOf(wrappers[s], heap, outcome);
      if w != null { wrappers, repr := wrappers[n := w], repr + {w}; }
      assert Mem() == Exec(desc.kind, m, CopyConstruct(n, s, outcome)) by {
        assert Mem().holds == Exec(desc.kind, m, CopyConstruct(n, s, outcome)).holds;
      }
    }

    method MoveConstructNamed(n: Name, s: Name)
      requires Valid() && IsLegal(Mem(), MoveConstruct(n, s))
      modifies this, heap, repr
      ensures Valid() && Mem() == Exec(desc.kind, old(Mem()), MoveConstruct(n, s))
      ensures fresh(repr - old(repr))
    {
      hide IsOwned;
      hide PointersAreLive;
      ghost var m := Mem();
      ExecKeepsOwnership(desc.kind, m, MoveConstruct(n, s));
      OwnedGives(desc.kind, m, s);
      var w := new Wrapper.Moved(wrappers[s]);
      wrappers, repr := wrappers[n := w], repr + {w};
      assert Mem() == Exec(desc.kind, m, MoveConstruct(n, s)) by {
        assert Mem().holds == Exec(desc.kind, m, MoveConstruct(n, s)).holds;
      }
    }

    method CopyAssignNamed(n: Name, s: Name, outcome: CopyOutcome)
      requires Valid() && IsLegal(Mem(), CopyAssignment(n, s, outcome))
      modifies this, heap, repr
      ensures Valid() && Mem() == Exec(desc.kind, old(Mem()), CopyAssignment(n, s, outcome))
      ensures fresh(repr - old(repr))
    {
      hide IsOwned;
      hide PointersAreLive;
      ghost var m := Mem();
      ExecKeepsOwnership(desc.kind, m, CopyAssignment(n, s, outcome));
      OwnedGives(desc.kind, m, n);
      OwnedGives(desc.kind, m, s);
      var ok := wrappers[n].CopyAssign(wrappers[s], heap, outcome);
      assert Mem() == Exec(desc.kind, m, CopyAssignment(n, s, outcome)) by {
        assert Mem().holds == Exec(desc.kind, m, CopyAssignment(n, s, outcome)).holds;
      }
    }

    method MoveAssignNamed(n: Name, s: Name)
      requires Valid() && IsLegal(Mem(), MoveAssignment(n, s))
      modifies this, heap, repr
      ensures Valid() && Mem() == Exec(desc.kind, old(Mem()), MoveAssignment(n, s))
      ensures fresh(repr - old(repr))
    {
      hide IsOwned;
      hide PointersAreLive;
      ghost var m := Mem();
      ExecKeepsOwnership(desc.kind, m, MoveAssignment(n, s));
      OwnedGives(desc.kind, m, n);
      OwnedGives(desc.kind, m, s);
      wrappers[n].MoveAssign(wrappers[s]);
      assert Mem() == Exec(desc.kind, m, MoveAssignment(n, s)) by {
        assert Mem().holds == Exec(desc.kind, m, MoveAssignment(n, s)).holds;
      }
    }

    method WriteNamed(n: Name, content: int)
      requires Valid() && IsLegal(Mem(), Write(n, content))
      modifies this, heap, repr
      ensures Valid() && Mem() == Exec(desc.kind, old(Mem()), Write(n, content))
      ensures fresh(repr - old(repr))
    {
      hide IsOwned;
      hide PointersAreLive;
      ghost var m := Mem();
      ExecKeepsOwnership(desc.kind, m, Write(n, content));
      OwnedGives(desc.kind, m, n);
      var p := wrappers[n].str.value;
      heap.live := heap.live[p := heap.live[p].(content := content)];
      assert Mem() == Exec(desc.kind, m, Write(n, content)) by {
        assert Mem().holds == Exec(desc.kind, m, Write(n, content)).holds;
      }
    }

    method DestroyNamedWrapper(n: Name)
      requires Valid() && IsLegal(Mem(), DestroyNamed(n))
      modifies this, heap, repr
      ensures Valid() && Mem() == Exec(desc.kind, old(Mem()), DestroyNamed(n))
      ensures fresh(repr - old(repr))
    {
      hide IsOwned;
      hide PointersAreLive;
      ghost var m := Mem();
      ExecKeepsOwnership(desc.kind, m, DestroyNamed(n));
      OwnedGives(desc.kind, m, n);
      wrappers[n].Destroy(heap);
      wrappers := wrappers - {n};
      assert Mem() == Exec(desc.kind, m, DestroyNamed(n)) by {
        assert Mem().holds == Exec(desc.kind, m, DestroyNamed(n)).holds;
      }
    }

    /** Step by step through temporaries and swaps, a command has the effect stated for
        it in one piece, on every legal state. */
    method Execute(cmd: Command)
      requires Valid() && IsLegal(Mem(), cmd)
      modifies this, heap, repr
      ensures Valid() && Mem() == Exec(desc.kind, old(Mem()), cmd)
      ensures fresh(repr - old(repr))
    {
      match cmd {
        case Construct(n) => ConstructNamed(n);
        case CopyConstruct(n, s, outcome) => CopyConstructNamed(n, s, outcome);
        case MoveConstruct(n, s) => MoveConstructNamed(n, s);
        case CopyAssignment(n, s, outcome) => CopyAssignNamed(n, s, outcome);
        case MoveAssignment(n, s) => MoveAssignNamed(n, s);
        case Write(n, content) => WriteNamed(n, content);
        case DestroyNamed(n) => DestroyNamedWrapper(n);
      }
    }

    /** A whole program over real objects. One that starts from nothing and destroys all
        its wrappers leaves no struct live and has freed each exactly once. */
    method Run(cmds: seq<Command>)
      requires Valid() && IsProgram(desc.kind, Mem(), cmds)
      modifies this, heap, repr
      ensures Valid() && Mem() == ExecAll(desc.kind, old(Mem()), cmds)
      ensures fresh(repr - old(repr))
      ensures old(Mem()) == EMPTY && wrappers == map[] ==>
        heap.live == map[] && forall p: StructId :: heap.freed[p] == if p < heap.next then 1 else 0
    {
      hide IsOwned, Exec, IsLegal, PointersAreLive;
      var i := 0;
      assert cmds[0..] == cmds;
      while i < |cmds|
        invariant 0 <= i <= |cmds| && Valid() && fresh(repr - old(repr))
        invariant IsProgram(desc.kind, Mem(), cmds[i..])
        invariant ExecAll(desc.kind, Mem(), cmds[i..]) == ExecAll(desc.kind, old(Mem()), cmds)
      {
        assert cmds[i..][0] == cmds[i] && cmds[i..][1..] == cmds[i + 1..];
        Execute(cmds[i]);
        i := i + 1;
      }
      if old(Mem()) == EMPTY {
        NothingLeaks(desc.kind, cmds);
        assert wrappers == map[] ==> Mem().holds == map[];
      }
    }
  }

  // ---------------------------------------------------------------- several descriptors

  /** Wrappers of one C++ type over possibly different descriptors: what each descriptor
      says, and for each wrapper what its struct was made for and its descriptor. */
  datatype Typed<D(==)> = Typed(kinds: map<D, Kind>, holds: map<Name, (Option<Kind>, D)>)

  /** Every non-null wrapper's descriptor says what its struct was made for; freeing and
      copying go wrong otherwise. */
  predicate DescriptorsFit<D(==)>(t: Typed<D>) {
    forall n :: n in t.holds && t.holds[n].0.Some? ==> Fits(t, n)
  }

  predicate Fits<D(==)>(t: Typed<D>, n: Name)
    requires n in t.holds
  {
    t.holds[n].1 in t.kinds && (t.holds[n].0.Some? ==> t.kinds[t.holds[n].1] == t.holds[n].0.value)
  }

  predicate AreKnown<D(==)>(t: Typed<D>, a: Name, b: Name) {
    a in t.holds && b in t.holds && t.holds[a].1 in t.kinds && t.holds[b].1 in t.kinds
  }

  /** Swapping two wrappers: structs change places and so do the descriptors' contents. */
  function SwapTyped<D(==)>(t: Typed<D>, a: Name, b: Name): Typed<D>
    requires AreKnown(t, a, b)
  {
    var (sa, da) := t.holds[a];
    var (sb, db) := t.holds[b];
    Typed(t.kinds[da := t.kinds[db]][db := t.kinds[da]], t.holds[a := (sb, da)][b := (sa, db)])
  }

  /** Copy-assigning b to a: a gets a struct like that of b, and the descriptors' contents
      change places. */
  function AssignTyped<D(==)>(t: Typed<D>, a: Name, b: Name): Typed<D>
    requires AreKnown(t, a, b)
  {
    var (_, da) := t.holds[a];
    var (sb, db) := t.holds[b];
    Typed(t.kinds[da := t.kinds[db]][db := t.kinds[da]], t.holds[a := (sb, da)])
  }

  /** The state of named wrapper objects, in these terms. */
  ghost function TypedOf(ws: map<Name, Wrapper>, heap: StructHeap): Typed<Descriptor>
    reads heap, ws.Values, DescriptorsOf(ws)
  {
    Typed(KindsOf(ws), HoldsOf(ws, heap))
  }

  ghost function DescriptorsOf(ws: map<Name, Wrapper>): set<Descriptor> {
    set n | n in ws :: ws[n].desc
  }

  ghost function KindsOf(ws: map<Name, Wrapper>): map<Descriptor, Kind>
    reads DescriptorsOf(ws)
  {
    map d | d in DescriptorsOf(ws) :: d.kind
  }

  ghost function HoldsOf(ws: map<Name, Wrapper>, heap: StructHeap): map<Name, (Option<Kind>, Descriptor)>
    reads heap, ws.Values
  {
    map n | n in ws :: (KindHeld(heap.live, ws[n].str), ws[n].desc)
  }

  lemma KindsAre(ws: map<Name, Wrapper>, kinds: map<Descriptor, Kind>)
    requires kinds.Keys == DescriptorsOf(ws)
    requires forall n :: n in ws ==> ws[n].desc in kinds && ws[n].desc.kind == kinds[ws[n].desc]
    ensures KindsOf(ws) == kinds
  {
  }

  lemma TypedAre(ws: map<Name, Wrapper>, heap: StructHeap)
    ensures TypedOf(ws, heap) == Typed(KindsOf(ws), HoldsOf(ws, heap))
    ensures KindsOf(ws).Keys == DescriptorsOf(ws) && HoldsOf(ws, heap).Keys == ws.Keys
    ensures forall n :: n in ws ==> ws[n].desc in KindsOf(ws) && KindsOf(ws)[ws[n].desc] == ws[n].desc.kind
    ensures forall n :: n in ws ==> HoldsOf(ws, heap)[n] == (KindHeld(heap.live, ws[n].str), ws[n].desc)
  {
  }

  lemma HoldsAre(ws: map<Name, Wrapper>, heap: StructHeap, holds: map<Name, (Option<Kind>, Descriptor)>)
    requires holds.Keys == ws.Keys
    requires forall n :: n in ws ==> holds[n] == (KindHeld(heap.live, ws[n].str), ws[n].desc)
    ensures HoldsOf(ws, heap) == holds
  {
  }

  function KindHeld(live: map<StructId, Struct>, p: Option<StructId>): Option<Kind> {
    if p.Some? && p.value in live then Some(live[p.value].kind) else None
  }

  predicate AreDistinct(ws: map<Name, Wrapper>) {
    forall m, n :: m in ws && n in ws && ws[m] == ws[n] ==> m == n
  }

  /** Swapping real wrappers has the stated effect on all of them. */
  method SwapNamed(ws: map<Name, Wrapper>, heap: StructHeap, a: Name, b: Name)
    requires a in ws && b in ws && AreDistinct(ws)
    modifies ws[a], ws[b]
    modifies if ws[a].desc == ws[b].desc then {} else {ws[a].desc, ws[b].desc}
    ensures AreKnown(old(TypedOf(ws, heap)), a, b)
    ensures TypedOf(ws, heap) == SwapTyped(old(TypedOf(ws, heap)), a, b)
  {
    hide DescriptorsOf, KindsOf, HoldsOf, KindHeld, SwapTyped, TypedOf;
    ghost var t := TypedOf(ws, heap);
    TypedAre(ws, heap);
    ws[a].Swap(ws[b]);
    SwappedAre(ws, heap, t, a, b);
  }

  lemma SwappedAre(ws: map<Name, Wrapper>, heap: StructHeap, t: Typed<Descriptor>, a: Name, b: Name)
    requires a in ws && b in ws && t.kinds.Keys == DescriptorsOf(ws) && t.holds.Keys == ws.Keys
    requires forall n :: n in ws ==> ws[n].desc in t.kinds && t.holds[n].1 == ws[n].desc
    requires forall n :: n in ws && n != a && n != b ==> t.holds[n].0 == KindHeld(heap.live, ws[n].str)
    requires KindHeld(heap.live, ws[a].str) == t.holds[b].0 && KindHeld(heap.live, ws[b].str) == t.holds[a].0
    requires ws[a].desc.kind == t.kinds[ws[b].desc] && ws[b].desc.kind == t.kinds[ws[a].desc]
    requires forall n :: n in ws && ws[n].desc != ws[a].desc && ws[n].desc != ws[b].desc ==>
      ws[n].desc.kind == t.kinds[ws[n].desc]
    ensures TypedOf(ws, heap) == SwapTyped(t, a, b)
  {
    hide DescriptorsOf, KindsOf, HoldsOf, KindHeld;
    var da, db := ws[a].desc, ws[b].desc;
    KindsAre(ws, t.kinds[da := t.kinds[db]][db := t.kinds[da]]);
    HoldsAre(ws, heap, t.holds[a := (t.holds[b].0, da)][b := (t.holds[a].0, db)]);
  }

  /** A swap keeps descriptors fitting exactly when the two descriptors say the same or no
      third non-null wrapper refers to either. */
  lemma SwapFitsIff<D>(t: Typed<D>, a: Name, b: Name)
    requires AreKnown(t, a, b) && a != b && DescriptorsFit(t)
    ensures DescriptorsFit(SwapTyped(t, a, b)) <==>
      t.kinds[t.holds[a].1] == t.kinds[t.holds[b].1]
      || forall n :: n in t.holds && n != a && n != b && t.holds[n].0.Some? ==>
           t.holds[n].1 != t.holds[a].1 && t.holds[n].1 != t.holds[b].1
  {
    var t' := SwapTyped(t, a, b);
    forall n | n in t.holds && n != a && n != b && t.holds[n].0.Some?
      ensures Fits(t', n) <==>
        t.kinds[t.holds[a].1] == t.kinds[t.holds[b].1]
        || (t.holds[n].1 != t.holds[a].1 && t.holds[n].1 != t.holds[b].1)
    {
      assert Fits(t, n);
    }
    assert t.holds[a].0.Some? ==> Fits(t, a);
    assert t.holds[b].0.Some? ==> Fits(t, b);
    assert Fits(t', a) && Fits(t', b);
    assert t'.holds.Keys == t.holds.Keys;
  }

  /** Two descriptors, three wrappers: after a swap the third, which it does not name, no
      longer fits. */
  lemma SwapCanMisfit()
    ensures exists t: Typed<nat> :: Misfits(t, 0, 1)
  {
    var t: Typed<nat> := Typed(map[0 := 5, 1 := 6], map[0 := (Some(5), 0), 1 := (Some(6), 1), 2 := (Some(5), 0)]);
    assert AreKnown(t, 0, 1) && DescriptorsFit(t);
    assert !Fits(SwapTyped(t, 0, 1), 2);
    assert Misfits(t, 0, 1);
  }

  /** All descriptors fit, and after the swap they no longer do. */
  predicate Misfits<D(==)>(t: Typed<D>, a: Name, b: Name) {
    AreKnown(t, a, b) && DescriptorsFit(t) && !DescriptorsFit(SwapTyped(t, a, b))
  }

  /** A copy assignment from a non-null wrapper keeps descriptors fitting exactly when the
      two descriptors say the same: otherwise the source itself no longer fits. */
  lemma CopyAssignFitsIff<D>(t: Typed<D>, a: Name, b: Name)
    requires AreKnown(t, a, b) && DescriptorsFit(t) && t.holds[b].0.Some?
    ensures DescriptorsFit(AssignTyped(t, a, b)) <==> t.kinds[t.holds[a].1] == t.kinds[t.holds[b].1]
  {
    var t' := AssignTyped(t, a, b);
    assert Fits(t, b);
    if t.kinds[t.holds[a].1] == t.kinds[t.holds[b].1] {
      assert t'.kinds == t.kinds;
      forall n | n in t'.holds && t'.holds[n].0.Some?
        ensures Fits(t', n)
      {
        assert n != a ==> Fits(t, n);
      }
    } else {
      assert !Fits(t', b);
    }
  }

  /** Copy-assigning real wrappers has the stated effect on all of them, provided no two of
      them own the same struct. */
  method AssignNamed(ws: map<Name, Wrapper>, heap: StructHeap, a: Name, b: Name)
    requires a in ws && b in ws && forall n :: n in ws && n != a ==> ws[n] != ws[a]
    requires forall n :: n in ws && ws[n].str.Some? ==> ws[n].str.value in heap.live
    requires forall n :: n in ws && n != a && ws[n].str.Some? ==> ws[n].str != ws[a].str
    requires ws[b].str.Some? && heap.live[ws[b].str.value].kind == ws[b].desc.kind
    requires ws[a].str.Some? ==> heap.live[ws[a].str.value].kind == ws[a].desc.kind
    requires heap.next !in heap.live
    modifies ws[a], heap
    modifies if ws[a].desc == ws[b].desc then {} else {ws[a].desc, ws[b].desc}
    ensures AreKnown(old(TypedOf(ws, heap)), a, b)
    ensures TypedOf(ws, heap) == AssignTyped(old(TypedOf(ws, heap)), a, b)
  {
    hide DescriptorsOf, KindsOf, HoldsOf, KindHeld, AssignTyped, TypedOf, Held, Wrapper.Effect;
    ghost var t, live, next := TypedOf(ws, heap), heap.live, heap.next;
    ghost var was, source := ws[a].str, ws[b].str.value;
    TypedAre(ws, heap);
    var _ := ws[a].CopyAssign(ws[b], heap, Copied);
    forall n | n in ws && n != a
      ensures KindHeld(heap.live, ws[n].str) == KindHeld(live, ws[n].str)
    {
      KindHeldAfterCopy(live, next, source, was, ws[n].str);
    }
    KindHeldAfterCopy(live, next, source, was, None);
    AssignedAre(ws, heap, t, a, b);
  }

  lemma AssignedAre(ws: map<Name, Wrapper>, heap: StructHeap, t: Typed<Descriptor>, a: Name, b: Name)
    requires a in ws && b in ws && t.kinds.Keys == DescriptorsOf(ws) && t.holds.Keys == ws.Keys
    requires forall n :: n in ws ==> ws[n].desc in t.kinds
    requires forall n :: n in ws ==> t.holds[n].1 == ws[n].desc
    requires forall n :: n in ws && n != a ==> t.holds[n].0 == KindHeld(heap.live, ws[n].str)
    requires KindHeld(heap.live, ws[a].str) == t.holds[b].0
    requires ws[a].desc.kind == t.kinds[ws[b].desc] && ws[b].desc.kind == t.kinds[ws[a].desc]
    requires forall n :: n in ws && ws[n].desc != ws[a].desc && ws[n].desc != ws[b].desc ==>
      ws[n].desc.kind == t.kinds[ws[n].desc]
    ensures TypedOf(ws, heap) == AssignTyped(t, a, b)
  {
    hide DescriptorsOf, KindsOf, HoldsOf, KindHeld;
    var da, db := ws[a].desc, ws[b].desc;
    KindsAre(ws, t.kinds[da := t.kinds[db]][db := t.kinds[da]]);
    HoldsAre(ws, heap, t.holds[a := (t.holds[b].0, da)]);
  }

  /** A copy takes over the kind of its source, and nothing else changes but what is freed. */
  lemma KindHeldAfterCopy(live: map<StructId, Struct>, next: StructId, source: StructId, was: Option<StructId>,
      p: Option<StructId>)
    requires source in live && next !in live && (was.Some? ==> was.value in live)
    ensures var live' := live[next := live[source]] - Held(was);
      KindHeld(live', Some(next)) == KindHeld(live, Some(source))
      && (p.None? || (p != was && p.value in live) ==> KindHeld(live', p) == KindHeld(live, p))
  {
  }
}
