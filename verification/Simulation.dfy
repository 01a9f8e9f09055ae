/** The relocated code does what the original did: after resolution, running the
    trampoline takes the same calls and leaves for the same address. */
module Simulation {
  import opened Words
  import opened Trampoline

  // ----- control flow of one instruction -----

  /** Where an instruction leads: on, into a call that comes back, or to the caller. */
  datatype Flow = To(addr: u32) | CallThen(dest: u32, back: u32) | Return {
    /** Where control is in the same activation afterwards. */
    function Next(): u32
      requires !Return?
    {
      if To? then addr else back
    }
  }

  /** `taken` says whether the condition of a Jcc holds. */
  function FlowOf(inst: Inst, addr: int, taken: bool): Flow {
    var next := (addr + inst.len) % TWO32;
    if inst.IsCall() then CallThen(inst.Dest(addr), next)
    else if inst.IsJmp() then To(inst.Dest(addr))
    else if inst.IsJcc() then To(if taken then inst.Dest(addr) else next)
    else if inst.IsRet() then Return
    else To(next)
  }

  // ----- the placed trampoline -----

  /** A finished trampoline, resolved for address `base`, that nothing in the original
      code refers to. */
  datatype Placed = Placed(p: Program, slots: seq<Slot>, base: u32) {
    ghost predicate Valid() {
      && p.Valid() && Built(p, slots) && Finished(p, slots) && InCode(p, slots)
      && base + DstEnd(slots) <= TWO32
      && (forall s <- slots :: s.kind != Verbatim ==> !(base <= s.dest < base + DstEnd(slots)))
    }

    function Bytes(): seq<byte>
      requires InCode(p, slots)
    {
      AllResolved(p, slots, base)
    }

    /** The instruction found at slot i of the trampoline. */
    function InstAt(i: nat): Inst
      requires InCode(p, slots) && i < |slots| && slots[i].dst <= |Bytes()|
    {
      p.dis(Bytes()[slots[i].dst..])
    }

    function SrcAddr(i: nat): int
      requires i < |slots|
    {
      p.target + slots[i].src
    }

    function DstAddr(i: nat): int
      requires i < |slots|
    {
      base + slots[i].dst
    }
  }

  /** The internal branch in slot i leads to the start of a copied instruction. */
  ghost predicate LeadsTo(t: Placed, i: nat, j: nat)
    requires i < |t.slots| && j < |t.slots|
  {
    t.slots[i].inst.Dest(t.SrcAddr(i)) == t.SrcAddr(j)
  }

  /** The code between slots i and j has the same length in the trampoline. */
  ghost predicate SameDistance(t: Placed, i: nat, j: nat)
    requires i < |t.slots| && j < |t.slots|
  {
    t.slots[j].dst - t.slots[i].dst == t.slots[j].src - t.slots[i].src
  }

  /** If slot i is an internal branch, it finds its destination in the trampoline. */
  ghost predicate Lands(t: Placed, i: nat)
    requires i < |t.slots|
  {
    IsInternalBranch(t.p, t.slots[i]) ==> exists j :: 0 <= j < |t.slots| && LeadsTo(t, i, j) && SameDistance(t, i, j)
  }

  // ----- runs -----

  datatype Event = Called(dest: u32) | Tested(loop: bool, condition: byte, taken: bool) | Executed(inst: Inst)

  /** What an instruction does, apart from passing control on. */
  function EventsOf(inst: Inst, addr: int, taken: bool): seq<Event> {
    if inst.IsCall() then [Called(inst.Dest(addr))]
    else if inst.IsJmp() then []
    else if inst.IsJcc() then [Tested(inst.IsLoop(), inst.Condition(), taken)]
    else [Executed(inst)]
  }

  /** The first `size` bytes at address `start`. */
  datatype Region = Region(dis: seq<byte> -> Inst, bytes: seq<byte>, start: u32, size: nat) {
    predicate Valid() { size <= |bytes| }

    predicate Contains(pc: u32) { start <= pc < start + size }

    function Fetch(pc: u32): Inst
      requires Valid() && Contains(pc)
    {
      dis(bytes[pc - start..])
    }
  }

  datatype End = Running(pc: u32) | Left(pc: u32) | Returned
  datatype Outcome = Outcome(trace: seq<Event>, end: End)

  /** One instruction for every element of `choices`, which decide the conditions,
      until control leaves the region; calls are taken to come back. */
  function Run(r: Region, pc: u32, choices: seq<bool>): Outcome
    requires r.Valid()
    decreases |choices|
  {
    if !r.Contains(pc) then Outcome([], Left(pc))
    else if choices == [] then Outcome([], Running(pc))
    else
      var inst := r.Fetch(pc);
      var events := EventsOf(inst, pc, choices[0]);
      var flow := FlowOf(inst, pc, choices[0]);
      if flow.Return? then Outcome(events, Returned) else After(events, Run(r, flow.Next(), choices[1..]))
  }

  function After(events: seq<Event>, rest: Outcome): Outcome {
    Outcome(events + rest.trace, rest.end)
  }

  /** The part of the function the trampoline stands for: what the long jump covers. */
  function Original(t: Placed): Region {
    Region(t.p.dis, t.p.code, t.p.target, JMP_REL_SIZE)
  }

  function Copy(t: Placed): Region
    requires InCode(t.p, t.slots)
  {
    Region(t.p.dis, t.Bytes(), t.base, |t.Bytes()|)
  }

  /** Corresponding instructions, or the same address outside both regions. */
  ghost predicate Related(t: Placed, o: u32, d: u32)
    requires InCode(t.p, t.slots)
  {
    || (exists j :: 0 <= j < |t.slots| && o == t.SrcAddr(j) && d == t.DstAddr(j))
    || (o == d && !Original(t).Contains(o) && !Copy(t).Contains(d))
  }

  ghost predicate FlowRelated(t: Placed, f: Flow, g: Flow)
    requires InCode(t.p, t.slots)
  {
    match (f, g)
    case (To(a), To(b)) => Related(t, a, b)
    case (CallThen(x, a), CallThen(y, b)) => x == y && Related(t, a, b)
    case (Return, Return) => true
    case _ => false
  }

  // ----- what each slot decodes to -----

  lemma SlotFacts(t: Placed, i: nat)
    requires t.Valid() && i < |t.slots|
    ensures Tiled(t.p, t.slots) && SlotOk(t.p, t.slots[i])
    ensures t.slots[i].dst + t.slots[i].Size() <= |t.Bytes()| == DstEnd(t.slots)
    ensures t.Bytes()[t.slots[i].dst..t.slots[i].dst + t.slots[i].Size()] == Resolved(t.p, t.slots[i], t.base)
    ensures t.slots[i] in t.slots
  {
    hide Faithful, Built, Finished, SlotOk, Template, Resolved, AllResolved;
    BuiltShape(t.p, t.slots);
    BytesTile(t.p, t.slots, t.base);
    ResolvedAt(t.p, t.slots, t.base, i);
  }

  /** Each slot's kind says how its instruction was treated. */
  lemma Treatment(t: Placed, i: nat)
    requires t.Valid() && i < |t.slots| && t.slots[i].src < |t.p.code|
    ensures Treat(t.p, t.slots[i].src, t.slots[i].dst) == [t.slots[i]]
  {
    hide Faithful, Finished, Treat, AllResolved;
    BuiltPrefix(t.p, t.slots, i + 1);
    var before := t.slots[..i];
    assert t.slots[..i + 1][..i] == before;
    NextSlotShape(t.p, before);
  }

  lemma DecodedVerbatim(t: Placed, i: nat)
    requires t.Valid() && i < |t.slots| && t.slots[i].kind == Verbatim
    requires t.slots[i].dst <= |t.Bytes()|
    ensures t.InstAt(i) == t.slots[i].inst
  {
    hide Faithful, Built, Finished, AllResolved;
    SlotFacts(t, i);
    var s := t.slots[i];
    var here, there := t.p.code[s.src..], t.Bytes()[s.dst..];
    LengthOf(t.p.dis, here);
    VerbatimStays(t.p, s, t.base);
    assert there[..s.inst.len] == t.Bytes()[s.dst..s.dst + s.Size()];
    assert here[..s.inst.len] == Template(t.p, s);
    SameInstruction(t.p.dis, here, there);
  }

  /** An operand relative to the next instruction gives back its destination. */
  lemma OperandReaches(dest: u32, next: int)
    ensures (next + (dest - next) % TWO32) % TWO32 == dest
  {
    var q := (dest - next) / TWO32;
    assert next + (dest - next) % TWO32 == dest - TWO32 * q;
    assert (dest - TWO32 * q) % TWO32 == dest % TWO32;
  }

  lemma DecodedBranch(t: Placed, i: nat)
    requires t.Valid() && i < |t.slots| && t.slots[i].kind != Verbatim
    requires t.slots[i].dst <= |t.Bytes()|
    ensures var inst := t.InstAt(i); var s := t.slots[i];
      && inst.len == s.Size() && !inst.IsShort() && inst.Dest(t.DstAddr(i)) == s.dest
      && (s.kind == Call ==> inst.IsCall())
      && (s.kind == Jmp ==> !inst.IsCall() && inst.IsJmp())
      && (s.kind.Jcc? ==>
            !inst.IsCall() && !inst.IsJmp() && inst.IsJcc() && inst.Condition() == s.kind.condition % 0x10)
  {
    hide Faithful, Built, Finished, AllResolved, WriteLE32, ReadLE32;
    SlotFacts(t, i);
    var s := t.slots[i];
    var n := s.Size();
    var there := t.Bytes()[s.dst..];
    var operand: u32 := (s.dest as int - (t.base + s.dst + n)) % TWO32;
    assert there[..n] == t.Bytes()[s.dst..s.dst + n] == Resolved(t.p, s, t.base);
    assert there[..n] == Template(t.p, s)[..n - 4] + WriteLE32(operand);
    OperandAt(there, n - 4, operand, Template(t.p, s)[..n - 4]);
    NearBranch(t.p.dis, there);
    OperandReaches(s.dest, t.base + s.dst + n);
  }

  lemma OperandAt(bytes: seq<byte>, at: nat, operand: u32, head: seq<byte>)
    requires |head| == at && at + 4 <= |bytes| && bytes[..at + 4] == head + WriteLE32(operand)
    ensures ReadLE32(bytes, at) == operand
    ensures forall i :: 0 <= i < at ==> bytes[i] == head[i]
  {
    hide WriteLE32, ReadLE32;
    var w := WriteLE32(operand);
    assert forall i :: 0 <= i < 4 ==> bytes[at + i] == bytes[..at + 4][at + i] == w[i];
    assert forall i :: 0 <= i < at ==> bytes[i] == bytes[..at + 4][i];
    WriteReadLE32(operand);
    SameRead(bytes, at, w);
  }

  lemma SameRead(bytes: seq<byte>, at: nat, w: seq<byte>)
    requires at + 4 <= |bytes| && |w| == 4 && forall i :: 0 <= i < 4 ==> bytes[at + i] == w[i]
    ensures ReadLE32(bytes, at) == ReadLE32(w, 0)
  {
    assert bytes[at] == bytes[at + 0] == w[0];
  }

  // ----- one instruction -----

  /** Falling through leads to the next slot; the last slot never falls through. */
  lemma FallsThrough(t: Placed, i: nat)
    requires t.Valid() && i < |t.slots| - 1
    ensures !t.slots[i].resume
    ensures (t.SrcAddr(i) + t.slots[i].inst.len) % TWO32 == t.SrcAddr(i + 1)
    ensures (t.DstAddr(i) + t.slots[i].Size()) % TWO32 == t.DstAddr(i + 1)
  {
    hide Faithful, Built, Finished, AllResolved, Slot.Size, SlotOk, Resolved, InCode;
    SlotFacts(t, i);
    StartsInside(t, i + 1);
    DstIsNear(t, i + 1);
    assert t.slots[i + 1].src == t.slots[i].src + t.slots[i].inst.len;
    assert t.slots[i + 1].dst == t.slots[i].dst + t.slots[i].Size();
  }

  lemma SizeIsPositive(s: Slot)
    requires s.inst.len >= 1
    ensures s.Size() >= 1
  {
  }

  lemma LastSlotExits(t: Placed)
    requires t.Valid()
    ensures |t.slots| >= 1
    ensures var s := t.slots[|t.slots| - 1];
      s.resume || s.kind == Jmp || (s.kind == Verbatim && !IsInternalBranch(t.p, s) && s.inst.IsRet())
  {
    hide Faithful, Built, JmpDest, IsInternalBranch;
  }

  /** A rewritten branch, other than the jump back, leads out of both regions. */
  lemma RewrittenLeavesBoth(t: Placed, i: nat)
    requires t.Valid() && i < |t.slots| && !t.slots[i].resume && t.slots[i].kind != Verbatim
    ensures t.slots[i].kind == Call <==> t.slots[i].inst.IsCall()
    ensures t.slots[i].dest == t.slots[i].inst.Dest(t.SrcAddr(i))
    ensures t.slots[i].kind != Call ==> Related(t, t.slots[i].dest, t.slots[i].dest)
    ensures t.slots[i].kind == Jmp ==> t.slots[i].inst.IsJmp()
    ensures t.slots[i].kind.Jcc? ==> !t.slots[i].inst.IsCall() && !t.slots[i].inst.IsJmp() && t.slots[i].inst.IsJcc()
    ensures t.slots[i].kind.Jcc? ==>
      t.slots[i].kind.condition == t.slots[i].inst.Condition() && !t.slots[i].inst.IsLoop()
  {
    hide Faithful, Built, Finished, AllResolved, Inst.Dest;
    SlotFacts(t, i);
    Treatment(t, i);
  }

  /** A copied instruction is a call only if it was rewritten. */
  lemma VerbatimIsNoCall(t: Placed, i: nat)
    requires t.Valid() && i < |t.slots| && t.slots[i].kind == Verbatim
    ensures !t.slots[i].inst.IsCall() && !t.slots[i].resume
  {
    hide Faithful, Built, Finished, AllResolved, Inst.Dest;
    SlotFacts(t, i);
    Treatment(t, i);
  }

  /** A relative branch leads as far beyond as the branch itself was moved. */
  lemma MovedBranch(inst: Inst, from: int, to: int)
    ensures inst.Dest(to) == (inst.Dest(from) + (to - from)) % TWO32
  {
    ModShift(from + inst.len + inst.Offset(), to - from);
  }

  lemma ModShift(x: int, d: int)
    ensures (x % TWO32 + d) % TWO32 == (x + d) % TWO32
  {
    var q := x / TWO32;
    assert x % TWO32 + d == x + d - TWO32 * q;
  }

  /** No rewritten instruction is more than six times as long as the one it replaces. */
  lemma {:induction false} DstIsNear(t: Placed, i: nat)
    requires |t.p.code| >= 64 && Tiled(t.p, t.slots) && i < |t.slots|
    ensures t.slots[i].dst <= 6 * t.slots[i].src < 120
    decreases i
  {
    if i > 0 {
      DstIsNear(t, i - 1);
    }
  }

  /** A branch copied as it is reaches the copy of its destination exactly when the
      code between the two kept its length. */
  lemma CopyLandsExactly(t: Placed, i: nat, j: nat)
    requires t.Valid() && i < |t.slots| && j < |t.slots| && LeadsTo(t, i, j)
    ensures t.slots[i].inst.Dest(t.DstAddr(i)) == t.DstAddr(j) <==> SameDistance(t, i, j)
  {
    hide Faithful, Built, Finished, AllResolved, Inst.Dest, Tiled, SlotOk, InCode, Slot.Size;
    SlotFacts(t, i);
    SlotFacts(t, j);
    DstIsNear(t, i);
    DstIsNear(t, j);
    StartsInside(t, i);
    StartsInside(t, j);
    MovedBranch(t.slots[i].inst, t.SrcAddr(i), t.DstAddr(i));
    SameModulo(t.DstAddr(j), t.SrcAddr(j) + (t.DstAddr(i) - t.SrcAddr(i)));
  }

  lemma SameModulo(a: u32, b: int)
    requires a - TWO32 < b < a + TWO32
    ensures b % TWO32 == a <==> a == b
  {
  }

  lemma StartsInside(t: Placed, i: nat)
    requires t.Valid() && i < |t.slots|
    ensures 0 <= t.DstAddr(i) < t.base + DstEnd(t.slots) <= TWO32
  {
    hide Faithful, Built, Finished, AllResolved, Inst.Dest, InCode, Slot.Size;
    SlotFacts(t, i);
    SizeIsPositive(t.slots[i]);
  }

  /** What the regions hold at slot i. */
  lemma FetchedAt(t: Placed, i: nat, o: u32, d: u32)
    requires t.Valid() && i < |t.slots| && o == t.SrcAddr(i) && d == t.DstAddr(i)
    requires Original(t).Valid() && Copy(t).Valid()
    ensures t.slots[i].dst <= |t.Bytes()| && Copy(t).Contains(d) && Copy(t).Fetch(d) == t.InstAt(i)
    ensures Original(t).Contains(o) <==> !t.slots[i].resume
    ensures !t.slots[i].resume ==> Original(t).Fetch(o) == t.slots[i].inst
  {
    hide Faithful, Built, Finished, AllResolved, Inst.Dest, Resolved, Slot.Size, InCode;
    SlotFacts(t, i);
    StartsInside(t, i);
  }

  lemma NextSlotIsRelated(t: Placed, i: nat)
    requires t.Valid() && i < |t.slots| - 1
    ensures Related(t, (t.SrcAddr(i) + t.slots[i].inst.len) % TWO32, (t.DstAddr(i) + t.slots[i].Size()) % TWO32)
  {
    hide Faithful, Built, Finished, AllResolved, Slot.Size, InCode;
    FallsThrough(t, i);
  }

  /** A copied instruction and its copy lead to corresponding places. */
  lemma VerbatimSimulates(t: Placed, i: nat, taken: bool)
    requires t.Valid() && i < |t.slots| && t.slots[i].kind == Verbatim && Lands(t, i) && t.slots[i].dst <= |t.Bytes()|
    ensures EventsOf(t.slots[i].inst, t.SrcAddr(i), taken) == EventsOf(t.InstAt(i), t.DstAddr(i), taken)
    ensures FlowRelated(t, FlowOf(t.slots[i].inst, t.SrcAddr(i), taken), FlowOf(t.InstAt(i), t.DstAddr(i), taken))
  {
    hide Faithful, Built, Finished, InCode, AllResolved, Inst.Dest, Related, Tiled, SlotOk, Inst.IsJcc, Inst.IsJmp;
    DecodedVerbatim(t, i);
    VerbatimIsNoCall(t, i);
    LastSlotExits(t);
    if i < |t.slots| - 1 {
      NextSlotIsRelated(t, i);
    }
    if IsInternalBranch(t.p, t.slots[i]) {
      var j :| 0 <= j < |t.slots| && LeadsTo(t, i, j) && SameDistance(t, i, j);
      CopyLandsExactly(t, i, j);
      SlotsCorrespond(t, j);
    }
  }

  lemma SlotsCorrespond(t: Placed, j: nat)
    requires t.Valid() && j < |t.slots|
    ensures 0 <= t.SrcAddr(j) < TWO32 && 0 <= t.DstAddr(j) < TWO32 && Related(t, t.SrcAddr(j), t.DstAddr(j))
  {
    hide Faithful, Built, Finished, InCode, AllResolved, Inst.Dest, Resolved, Slot.Size;
    SlotFacts(t, j);
    StartsInside(t, j);
  }

  /** A rewritten branch tests the same condition and reaches the same destination. */
  lemma RewrittenSimulates(t: Placed, i: nat, taken: bool)
    requires t.Valid() && i < |t.slots| && t.slots[i].kind != Verbatim && !t.slots[i].resume
    requires t.slots[i].dst <= |t.Bytes()|
    ensures EventsOf(t.slots[i].inst, t.SrcAddr(i), taken) == EventsOf(t.InstAt(i), t.DstAddr(i), taken)
    ensures FlowRelated(t, FlowOf(t.slots[i].inst, t.SrcAddr(i), taken), FlowOf(t.InstAt(i), t.DstAddr(i), taken))
  {
    hide Faithful, Built, Finished, InCode, AllResolved, Inst.Dest, Related, Tiled, SlotOk;
    DecodedBranch(t, i);
    RewrittenLeavesBoth(t, i);
    LastSlotExits(t);
    if i < |t.slots| - 1 {
      NextSlotIsRelated(t, i);
    }
  }

  // ----- whole runs -----

  /** The jump back leads to the first instruction that was not copied. */
  lemma ResumeLeaves(t: Placed, i: nat, o: u32, d: u32, choices: seq<bool>)
    requires t.Valid() && i < |t.slots| && t.slots[i].resume && o == t.SrcAddr(i) && d == t.DstAddr(i)
    requires Original(t).Valid() && Copy(t).Valid() && choices != []
    ensures Run(Copy(t), d, choices) == Outcome([], Left(o))
  {
    hide Faithful, Built, Finished, InCode, AllResolved, Inst.Dest, Tiled;
    SlotFacts(t, i);
    FetchedAt(t, i, o, d);
    DecodedBranch(t, i);
  }

  lemma SlotSimulates(t: Placed, i: nat, taken: bool)
    requires t.Valid() && i < |t.slots| && Lands(t, i) && !t.slots[i].resume && t.slots[i].dst <= |t.Bytes()|
    ensures EventsOf(t.slots[i].inst, t.SrcAddr(i), taken) == EventsOf(t.InstAt(i), t.DstAddr(i), taken)
    ensures FlowRelated(t, FlowOf(t.slots[i].inst, t.SrcAddr(i), taken), FlowOf(t.InstAt(i), t.DstAddr(i), taken))
  {
    hide *;
    if t.slots[i].kind == Verbatim {
      VerbatimSimulates(t, i, taken);
    } else {
      RewrittenSimulates(t, i, taken);
    }
  }

  /** What is said of two runs: the same trace and corresponding ends; leaving may take
      the trampoline one more instruction, the jump back, before which it then is. */
  ghost predicate Alike(t: Placed, was: Outcome, now: Outcome, longer: Outcome)
    requires InCode(t.p, t.slots)
  {
    && (was.end.Running? ==> now.trace == was.trace && now.end.Running? && Related(t, was.end.pc, now.end.pc))
    && (was.end.Returned? ==> now == was)
    && (was.end.Left? ==> longer == was && now.trace == was.trace)
    && (was.end.Left? ==> now.end == was.end || (now.end.Running? && Related(t, was.end.pc, now.end.pc)))
  }

  lemma OutsideBoth(t: Placed, o: u32, d: u32, choices: seq<bool>, extra: bool)
    requires Original(t).Valid() && InCode(t.p, t.slots) && Copy(t).Valid() && !Original(t).Contains(o)
    requires Run(Copy(t), d, choices + [extra]) == Outcome([], Left(o))
    requires choices != [] || !Copy(t).Contains(d) ==> Run(Copy(t), d, choices) == Outcome([], Left(o))
    requires choices == [] && Copy(t).Contains(d) ==> Related(t, o, d)
    ensures Alike(t, Run(Original(t), o, choices), Run(Copy(t), d, choices), Run(Copy(t), d, choices + [extra]))
  {
    hide Original, Copy, InCode, Region.Contains, Related;
  }

  lemma RunOutside(r: Region, pc: u32, choices: seq<bool>)
    requires r.Valid() && !r.Contains(pc)
    ensures Run(r, pc, choices) == Outcome([], Left(pc))
  {
  }

  lemma NoChoice(t: Placed, o: u32, d: u32, extra: bool)
    requires InCode(t.p, t.slots) && Original(t).Valid() && Copy(t).Valid() && Related(t, o, d)
    requires Original(t).Contains(o) && Copy(t).Contains(d)
    ensures Alike(t, Run(Original(t), o, []), Run(Copy(t), d, []), Run(Copy(t), d, [] + [extra]))
  {
    hide Original, Copy, InCode, Region.Contains, Related;
  }

  lemma OneStep(r: Region, pc: u32, choices: seq<bool>, extra: bool)
    requires r.Valid() && r.Contains(pc) && choices != []
    ensures var events, flow := EventsOf(r.Fetch(pc), pc, choices[0]), FlowOf(r.Fetch(pc), pc, choices[0]);
      && (flow.Return? ==> Run(r, pc, choices) == Run(r, pc, choices + [extra]) == Outcome(events, Returned))
      && (!flow.Return? ==>
            && Run(r, pc, choices) == After(events, Run(r, flow.Next(), choices[1..]))
            && Run(r, pc, choices + [extra]) == After(events, Run(r, flow.Next(), choices[1..] + [extra])))
  {
    hide EventsOf, FlowOf, Region.Fetch, Region.Contains;
    assert (choices + [extra])[1..] == choices[1..] + [extra];
  }

  lemma AlikeAfter(t: Placed, events: seq<Event>, was: Outcome, now: Outcome, longer: Outcome)
    requires InCode(t.p, t.slots) && Alike(t, was, now, longer)
    ensures Alike(t, After(events, was), After(events, now), After(events, longer))
  {
    hide Related, InCode;
  }

  lemma NextRelated(t: Placed, f: Flow, g: Flow)
    requires InCode(t.p, t.slots) && FlowRelated(t, f, g)
    ensures f.Return? <==> g.Return?
    ensures !f.Return? ==> Related(t, f.Next(), g.Next())
  {
    hide Related, InCode;
  }

  lemma RelatedCases(t: Placed, o: u32, d: u32) returns (i: nat)
    requires InCode(t.p, t.slots) && Related(t, o, d)
    ensures i <= |t.slots|
    ensures i < |t.slots| ==> o == t.SrcAddr(i) && d == t.DstAddr(i)
    ensures i == |t.slots| ==> o == d && !Original(t).Contains(o) && !Copy(t).Contains(d)
  {
    if j :| 0 <= j < |t.slots| && o == t.SrcAddr(j) && d == t.DstAddr(j) {
      i := j;
    } else {
      i := |t.slots|;
    }
  }

  /** A run of the covered code from o stops before the instruction of slot i. */
  ghost predicate Stops(t: Placed, o: u32, choices: seq<bool>, i: nat)
    requires Original(t).Valid() && i < |t.slots|
  {
    var end := Run(Original(t), o, choices).end;
    end.Running? && end.pc == t.SrcAddr(i)
  }

  /** Every internal branch that can be reached from o in the covered code is safe. */
  ghost predicate ReachesSafe(t: Placed, o: u32)
    requires Original(t).Valid()
  {
    forall choices, i :: 0 <= i < |t.slots| && Stops(t, o, choices, i) ==> SafeBranch(t, i)
  }

  lemma ReachedIsSafe(t: Placed, o: u32, i: nat)
    requires Original(t).Valid() && ReachesSafe(t, o) && i < |t.slots| && o == t.SrcAddr(i) && Original(t).Contains(o)
    ensures SafeBranch(t, i)
  {
    hide SafeBranch, Original, Region.Contains;
    assert Stops(t, o, [], i);
  }

  lemma ReachesNext(t: Placed, o: u32, choice: bool)
    requires Original(t).Valid() && ReachesSafe(t, o) && Original(t).Contains(o)
    requires !FlowOf(Original(t).Fetch(o), o, choice).Return?
    ensures ReachesSafe(t, FlowOf(Original(t).Fetch(o), o, choice).Next())
  {
    hide SafeBranch, Original, Region.Contains, Region.Fetch, FlowOf, EventsOf;
    var next := FlowOf(Original(t).Fetch(o), o, choice).Next();
    forall choices, i | 0 <= i < |t.slots| && Stops(t, next, choices, i)
      ensures SafeBranch(t, i)
    {
      assert ([choice] + choices)[1..] == choices;
      assert Stops(t, o, [choice] + choices, i);
    }
  }

  /** Every run of the covered code and the run of the trampoline with the same
      conditions do the same, if every internal branch on the way is safe. */
  lemma {:induction false} RunsAlike(t: Placed, o: u32, d: u32, choices: seq<bool>, extra: bool)
    requires t.Valid() && InCode(t.p, t.slots) && Original(t).Valid() && Copy(t).Valid()
    requires Related(t, o, d) && ReachesSafe(t, o)
    ensures Alike(t, Run(Original(t), o, choices), Run(Copy(t), d, choices), Run(Copy(t), d, choices + [extra]))
    decreases |choices|
  {
    hide *;
    var i := RelatedCases(t, o, d);
    if i == |t.slots| {
      RunOutside(Copy(t), d, choices);
      RunOutside(Copy(t), d, choices + [extra]);
      OutsideBoth(t, o, d, choices, extra);
    } else {
      FetchedAt(t, i, o, d);
      if t.slots[i].resume {
        ResumeLeaves(t, i, o, d, choices + [extra]);
        if choices != [] {
          ResumeLeaves(t, i, o, d, choices);
        }
        OutsideBoth(t, o, d, choices, extra);
      } else if choices == [] {
        NoChoice(t, o, d, extra);
      } else {
        StepAlike(t, i, o, d, choices, extra);
      }
    }
  }

  lemma {:induction false} StepAlike(t: Placed, i: nat, o: u32, d: u32, choices: seq<bool>, extra: bool)
    requires t.Valid() && InCode(t.p, t.slots) && Original(t).Valid() && Copy(t).Valid() && choices != []
    requires ReachesSafe(t, o)
    requires i < |t.slots| && !t.slots[i].resume && o == t.SrcAddr(i) && d == t.DstAddr(i)
    ensures Alike(t, Run(Original(t), o, choices), Run(Copy(t), d, choices), Run(Copy(t), d, choices + [extra]))
    decreases |choices|, 0
  {
    hide *;
    FetchedAt(t, i, o, d);
    ReachedIsSafe(t, o, i);
    LandsExactlyIfSafe(t, i);
    SlotSimulates(t, i, choices[0]);
    OneStep(Original(t), o, choices, extra);
    OneStep(Copy(t), d, choices, extra);
    var events := EventsOf(t.slots[i].inst, o, choices[0]);
    var f, g := FlowOf(t.slots[i].inst, o, choices[0]), FlowOf(t.InstAt(i), d, choices[0]);
    NextRelated(t, f, g);
    if f.Return? {
      BothReturn(t, events);
    } else {
      var rest := choices[1..];
      ReachesNext(t, o, choices[0]);
      RunsAlike(t, f.Next(), g.Next(), rest, extra);
      AlikeAfter(t, events, Run(Original(t), f.Next(), rest), Run(Copy(t), g.Next(), rest),
                 Run(Copy(t), g.Next(), rest + [extra]));
    }
  }

  lemma BothReturn(t: Placed, events: seq<Event>)
    requires InCode(t.p, t.slots)
    ensures Alike(t, Outcome(events, Returned), Outcome(events, Returned), Outcome(events, Returned))
  {
    hide InCode;
  }

  // ----- what the instructions of a run do, by their opcodes -----

  /** A call comes back, a jump is taken, a conditional branch may be, C2 and C3 return
      and everything else goes on. */
  lemma FlowExactly(i: Inst, addr: int, taken: bool)
    ensures var next := (addr + i.len) % TWO32;
      FlowOf(i, addr, taken) ==
        match ClassOf(i)
        case CallRel => CallThen(Target(i, addr), next)
        case JmpRel => To(Target(i, addr))
        case JccRel => To(if taken then Target(i, addr) else next)
        case ShortOnly => To(if taken then Target(i, addr) else next)
        case Other => if i.opcode == 194 || i.opcode == 195 then Return else To(next)
  {
    hide Target, Inst.Dest;
    Classes(i, addr);
  }

  /** What a run records of it. */
  lemma EventsExactly(i: Inst, addr: int, taken: bool)
    ensures ClassOf(i) == CallRel ==> EventsOf(i, addr, taken) == [Called(Target(i, addr))]
    ensures ClassOf(i) == JmpRel ==> EventsOf(i, addr, taken) == []
    ensures ClassOf(i) == ShortOnly ==> EventsOf(i, addr, taken) == [Tested(true, i.opcode % 16, taken)]
    ensures ClassOf(i) == JccRel ==>
      EventsOf(i, addr, taken) == [Tested(false, if i.opcode == 15 then i.opcode2 % 16 else i.opcode % 16, taken)]
    ensures ClassOf(i) == Other ==> EventsOf(i, addr, taken) == [Executed(i)]
  {
    hide Target, Inst.Dest;
    Classes(i, addr);
  }

  // ----- which internal branches land -----

  /** A branch to an instruction at or after itself lands: lengths are frozen while
      it is pending. */
  lemma ForwardLands(t: Placed, i: nat, j: nat)
    requires t.Valid() && i <= j < |t.slots| && IsInternalBranch(t.p, t.slots[i]) && LeadsTo(t, i, j)
    ensures Lands(t, i) && SameDistance(t, i, j)
  {
    hide Faithful, Built, Finished, AllResolved, Inst.Dest, IsInternalBranch;
    DistanceKept(t.p, t.slots, i, j);
  }

  /** By how much rewriting lengthens the instructions from slot j up to slot i. */
  function Growth(slots: seq<Slot>, j: nat, i: nat): int
    requires i <= |slots|
    decreases i
  {
    if i <= j then 0 else Growth(slots, j, i - 1) + slots[i - 1].Size() - slots[i - 1].inst.len
  }

  lemma {:induction false} DistanceGrows(t: Placed, j: nat, i: nat)
    requires |t.p.code| >= 64 && Tiled(t.p, t.slots) && j <= i < |t.slots|
    ensures (t.slots[i].dst - t.slots[j].dst) - (t.slots[i].src - t.slots[j].src) == Growth(t.slots, j, i)
    decreases i
  {
    hide SlotOk, Slot.Size;
    if j < i {
      DistanceGrows(t, j, i - 1);
    }
  }

  /** Where no instruction is shortened, nothing grows exactly if nothing is rewritten
      to another length. */
  lemma {:induction false} NothingGrows(slots: seq<Slot>, j: nat, i: nat)
    requires i <= |slots| && forall k :: j <= k < i ==> slots[k].Size() >= slots[k].inst.len
    ensures Growth(slots, j, i) >= 0
    ensures Growth(slots, j, i) == 0 <==> forall k :: j <= k < i ==> slots[k].Size() == slots[k].inst.len
    decreases i
  {
    hide Slot.Size;
    if j < i {
      NothingGrows(slots, j, i - 1);
    }
  }

  /** A branch back lands on the copy of its destination exactly when the instructions
      in between did not grow; nothing in the code sees to that. */
  lemma BackwardLanding(t: Placed, i: nat, j: nat)
    requires t.Valid() && j <= i < |t.slots| && IsInternalBranch(t.p, t.slots[i]) && LeadsTo(t, i, j)
    requires t.slots[i].dst <= |t.Bytes()|
    ensures t.InstAt(i).Dest(t.DstAddr(i)) == t.DstAddr(j) <==> Growth(t.slots, j, i) == 0
  {
    hide Faithful, Built, Finished, AllResolved, Inst.Dest, Growth;
    SlotFacts(t, i);
    DecodedVerbatim(t, i);
    CopyLandsExactly(t, i, j);
    DistanceGrows(t, j, i);
  }

  /** Where nothing in between is shortened, that is exactly when nothing in between is
      rewritten to another length. */
  lemma BackwardLandingKept(t: Placed, i: nat, j: nat)
    requires t.Valid() && j <= i < |t.slots| && IsInternalBranch(t.p, t.slots[i]) && LeadsTo(t, i, j)
    requires t.slots[i].dst <= |t.Bytes()| && forall k :: j <= k < i ==> t.slots[k].Size() >= t.slots[k].inst.len
    ensures t.InstAt(i).Dest(t.DstAddr(i)) == t.DstAddr(j) <==>
      forall k :: j <= k < i ==> t.slots[k].Size() == t.slots[k].inst.len
  {
    hide Placed.Valid, LeadsTo, IsInternalBranch, Inst.Dest, Growth, Slot.Size;
    BackwardLanding(t, i, j);
    NothingGrows(t.slots, j, i);
  }

  /** What can be seen from the function before a trampoline is placed: an internal
      branch leads to the start of an instruction, and if that lies before it, the
      instructions in between do not grow. */
  ghost predicate SafeBranch(t: Placed, i: nat)
    requires i < |t.slots|
  {
    IsInternalBranch(t.p, t.slots[i]) ==>
      exists j :: 0 <= j < |t.slots| && LeadsTo(t, i, j) && (i <= j || Growth(t.slots, j, i) == 0)
  }

  ghost predicate AllSafe(t: Placed) {
    forall i :: 0 <= i < |t.slots| ==> SafeBranch(t, i)
  }

  lemma LandsIfKept(t: Placed, i: nat, j: nat)
    requires t.Valid() && i < |t.slots| && j < |t.slots| && IsInternalBranch(t.p, t.slots[i]) && LeadsTo(t, i, j)
    ensures SameDistance(t, i, j) <==> i <= j || Growth(t.slots, j, i) == 0
  {
    hide Faithful, Built, Finished, AllResolved, Inst.Dest, Growth, IsInternalBranch, LeadsTo, Lands;
    if i <= j {
      ForwardLands(t, i, j);
    } else {
      SlotFacts(t, i);
      DistanceGrows(t, j, i);
    }
  }

  /** A branch lands exactly if it is safe. */
  lemma LandsExactlyIfSafe(t: Placed, i: nat)
    requires t.Valid() && i < |t.slots|
    ensures Lands(t, i) <==> SafeBranch(t, i)
  {
    hide Placed.Valid, LeadsTo, SameDistance, Growth, IsInternalBranch;
    if IsInternalBranch(t.p, t.slots[i]) {
      forall j | 0 <= j < |t.slots| && LeadsTo(t, i, j)
        ensures SameDistance(t, i, j) <==> i <= j || Growth(t.slots, j, i) == 0
      {
        LandsIfKept(t, i, j);
      }
    }
  }

  /** Once an internal branch is taken, the two runs are at corresponding places
      exactly if it is safe; the trampoline lies apart from what it was copied from. */
  lemma InternalSimulatesExactly(t: Placed, i: nat)
    requires t.Valid() && i < |t.slots| && IsInternalBranch(t.p, t.slots[i]) && t.slots[i].dst <= |t.Bytes()|
    requires t.base + DstEnd(t.slots) <= t.p.target || t.p.target + 35 <= t.base
    ensures FlowRelated(t, FlowOf(t.slots[i].inst, t.SrcAddr(i), true), FlowOf(t.InstAt(i), t.DstAddr(i), true))
      <==> SafeBranch(t, i)
  {
    hide Faithful, Built, Finished, InCode, AllResolved, Inst.Dest, Tiled, SlotOk, Lands, SafeBranch;
    LandsExactlyIfSafe(t, i);
    DecodedVerbatim(t, i);
    VerbatimIsNoCall(t, i);
    InternalIsNear(t.p, t.slots, i);
    var o, d := t.slots[i].inst.Dest(t.SrcAddr(i)), t.slots[i].inst.Dest(t.DstAddr(i));
    if Lands(t, i) {
      VerbatimSimulates(t, i, true);
    } else {
      MissesApart(t, i);
      if j :| 0 <= j < |t.slots| && o == t.SrcAddr(j) && d == t.DstAddr(j) {
        CopyLandsExactly(t, i, j);
        assert !Lands(t, i) && LeadsTo(t, i, j) && SameDistance(t, i, j);
        LandsAt(t, i, j);
      }
    }
  }

  lemma LandsAt(t: Placed, i: nat, j: nat)
    requires i < |t.slots| && j < |t.slots| && LeadsTo(t, i, j) && SameDistance(t, i, j)
    ensures Lands(t, i)
  {
  }

  /** A moved branch does not lead back to where the original did. */
  lemma MissesApart(t: Placed, i: nat)
    requires t.Valid() && i < |t.slots|
    requires t.base + DstEnd(t.slots) <= t.p.target || t.p.target + 35 <= t.base
    ensures t.slots[i].inst.Dest(t.SrcAddr(i)) != t.slots[i].inst.Dest(t.DstAddr(i))
  {
    hide Faithful, Built, Finished, InCode, AllResolved, Inst.Dest, SlotOk;
    SlotFacts(t, i);
    StartsInside(t, i);
    DstIsNear(t, i);
    MovedBranch(t.slots[i].inst, t.SrcAddr(i), t.DstAddr(i));
    var x: u32, m := t.slots[i].inst.Dest(t.SrcAddr(i)), t.DstAddr(i) - t.SrcAddr(i);
    NotAMultiple(x, m);
  }

  lemma NotAMultiple(x: u32, m: int)
    requires -TWO32 < m < TWO32 && m != 0
    ensures (x + m) % TWO32 != x
  {
  }

  /** The runs of function and trampoline under the same conditions do the same. */
  ghost predicate RunsAgree(t: Placed, choices: seq<bool>, extra: bool)
    requires InCode(t.p, t.slots) && Original(t).Valid() && Copy(t).Valid()
  {
    Alike(t, Run(Original(t), t.p.target, choices), Run(Copy(t), t.base, choices),
          Run(Copy(t), t.base, choices + [extra]))
  }

  lemma Starts(t: Placed)
    requires t.Valid()
    ensures InCode(t.p, t.slots) && Original(t).Valid() && Copy(t).Valid() && Related(t, t.p.target, t.base)
  {
    hide Faithful, Built, Finished, AllResolved, Resolved, Slot.Size;
    LastSlotExits(t);
    SlotFacts(t, 0);
    SlotsCorrespond(t, 0);
  }

  /** From its first instruction to its exit, the trampoline does what the function did,
      if every internal branch is safe. */
  lemma TrampolineSimulates(t: Placed, choices: seq<bool>, extra: bool)
    requires t.Valid() && AllSafe(t)
    ensures InCode(t.p, t.slots) && Original(t).Valid() && Copy(t).Valid() && RunsAgree(t, choices, extra)
  {
    hide Placed.Valid, InCode, Run, Alike, SafeBranch, Stops, Related;
    Starts(t);
    RunsAlike(t, t.p.target, t.base, choices, extra);
  }

  lemma {:induction false} RunAppend(r: Region, pc: u32, choices: seq<bool>, choice: bool)
    requires r.Valid() && Run(r, pc, choices).end.Running?
    ensures var was := Run(r, pc, choices);
      r.Contains(was.end.pc) && Run(r, pc, choices + [choice]) == After(was.trace, Run(r, was.end.pc, [choice]))
    decreases |choices|
  {
    hide EventsOf, FlowOf, Region.Fetch, Region.Contains;
    if choices == [] {
      assert choices + [choice] == [choice];
    } else {
      assert (choices + [choice])[1..] == choices[1..] + [choice];
      RunAppend(r, FlowOf(r.Fetch(pc), pc, choices[0]).Next(), choices[1..], choice);
    }
  }

  lemma OneChoice(r: Region, pc: u32, choice: bool)
    requires r.Valid() && r.Contains(pc) && FlowOf(r.Fetch(pc), pc, choice).To?
    ensures var x := FlowOf(r.Fetch(pc), pc, choice).addr;
      Run(r, pc, [choice]).end == if r.Contains(x) then Running(x) else Left(x)
  {
    hide EventsOf, FlowOf, Region.Fetch, Region.Contains;
  }

  /** After an unsafe branch the two runs are at places that do not correspond. */
  lemma UnsafeShows(t: Placed, choices: seq<bool>, extra: bool, i: nat)
    requires t.Valid() && InCode(t.p, t.slots) && Original(t).Valid() && Copy(t).Valid() && i < |t.slots|
    requires t.base + DstEnd(t.slots) <= t.p.target || t.p.target + 35 <= t.base
    requires Stops(t, t.p.target, choices, i) && !SafeBranch(t, i) && RunsAgree(t, choices, extra)
    ensures !RunsAgree(t, choices + [true], extra)
  {
    hide Placed.Valid, InCode, Original, Copy, Run, SafeBranch, FlowOf, Tiled;
    var was, now := Run(Original(t), t.p.target, choices), Run(Copy(t), t.base, choices);
    var o, d := was.end.pc, now.end.pc;
    RunAppend(Original(t), t.p.target, choices, true);
    RunAppend(Copy(t), t.base, choices, true);
    SameSlot(t, o, d, i);
    FetchedAt(t, i, o, d);
    BranchGoesTo(t, i);
    InternalSimulatesExactly(t, i);
    OneChoice(Original(t), o, true);
    OneChoice(Copy(t), d, true);
  }

  lemma SameSlot(t: Placed, o: u32, d: u32, i: nat)
    requires t.Valid() && InCode(t.p, t.slots) && i < |t.slots| && Related(t, o, d)
    requires Original(t).Contains(o) && o == t.SrcAddr(i)
    ensures d == t.DstAddr(i)
  {
    hide Faithful, Built, Finished, AllResolved, SlotOk, InCode;
    var j := RelatedCases(t, o, d);
    SlotFacts(t, i);
    SourcesRise(t, if i < j then i else j, if i < j then j else i);
  }

  lemma {:induction false} SourcesRise(t: Placed, i: nat, j: nat)
    requires |t.p.code| >= 64 && Tiled(t.p, t.slots) && i <= j < |t.slots|
    ensures t.slots[i].src <= t.slots[j].src && (i < j ==> t.slots[i].src < t.slots[j].src)
    decreases j
  {
    if i < j {
      SourcesRise(t, i, j - 1);
    }
  }

  /** An unsafe branch, taken, goes somewhere in this activation, like its copy. */
  lemma BranchGoesTo(t: Placed, i: nat)
    requires t.Valid() && i < |t.slots| && !SafeBranch(t, i)
    ensures IsInternalBranch(t.p, t.slots[i]) && t.slots[i].dst <= |t.Bytes()|
    ensures FlowOf(t.slots[i].inst, t.SrcAddr(i), true).To? && FlowOf(t.InstAt(i), t.DstAddr(i), true).To?
  {
    hide Faithful, Built, Finished, AllResolved, Inst.Dest, Tiled, SlotOk, Growth, LeadsTo;
    SlotFacts(t, i);
    DecodedVerbatim(t, i);
    VerbatimIsNoCall(t, i);
  }

  /** The trampoline does what the function did on every run exactly if every internal
      branch that the function can reach is safe; it lies apart from the function. */
  lemma SimulatesExactly(t: Placed)
    requires t.Valid() && (t.base + DstEnd(t.slots) <= t.p.target || t.p.target + 35 <= t.base)
    ensures InCode(t.p, t.slots) && Original(t).Valid() && Copy(t).Valid()
    ensures (forall choices, extra :: RunsAgree(t, choices, extra)) <==> ReachesSafe(t, t.p.target)
  {
    hide Placed.Valid, InCode, Run, Alike, SafeBranch, Stops, Related, Original, Copy, RunsAgree;
    Starts(t);
    if ReachesSafe(t, t.p.target) {
      forall choices, extra
        ensures RunsAgree(t, choices, extra)
      {
        AgreeIfSafe(t, choices, extra);
      }
    }
    if forall choices, extra :: RunsAgree(t, choices, extra) {
      forall choices, i | 0 <= i < |t.slots| && Stops(t, t.p.target, choices, i)
        ensures SafeBranch(t, i)
      {
        if !SafeBranch(t, i) {
          assert RunsAgree(t, choices, false) && RunsAgree(t, choices + [true], false);
          UnsafeShows(t, choices, false, i);
        }
      }
    }
  }

  lemma AgreeIfSafe(t: Placed, choices: seq<bool>, extra: bool)
    requires t.Valid() && InCode(t.p, t.slots) && Original(t).Valid() && Copy(t).Valid()
    requires Related(t, t.p.target, t.base) && ReachesSafe(t, t.p.target)
    ensures RunsAgree(t, choices, extra)
  {
    hide Placed.Valid, InCode, Run, Alike, ReachesSafe, Related, Original, Copy;
    RunsAlike(t, t.p.target, t.base, choices, extra);
  }

  /** In particular if every internal branch leads forwards to an instruction. */
  lemma ForwardSimulates(t: Placed, choices: seq<bool>, extra: bool)
    requires t.Valid()
    requires forall i :: 0 <= i < |t.slots| && IsInternalBranch(t.p, t.slots[i]) ==>
      exists j :: i <= j < |t.slots| && LeadsTo(t, i, j)
    ensures InCode(t.p, t.slots) && Original(t).Valid() && Copy(t).Valid() && RunsAgree(t, choices, extra)
  {
    hide Placed.Valid, LeadsTo, IsInternalBranch, Growth, RunsAgree;
    forall i | 0 <= i < |t.slots| ensures SafeBranch(t, i) {
    }
    TrampolineSimulates(t, choices, extra);
  }

  // ----- two functions -----

  /** A disassembler for relative branches, NOP and RET. */
  function Branches(s: seq<byte>): Inst {
    if |s| >= 5 && (s[0] == 0xE8 || s[0] == 0xE9) then Inst(false, 5, s[0], 0, 0, ReadLE32(s, 1))
    else if |s| >= 6 && s[0] == 0x0F && 0x80 <= s[1] <= 0x8F then Inst(false, 6, 0x0F, s[1], 0, ReadLE32(s, 2))
    else if |s| >= 2 && (0x70 <= s[0] <= 0x7F || 0xE0 <= s[0] <= 0xE3 || s[0] == 0xEB) then
      Inst(false, 2, s[0], 0, s[1], 0)
    else if |s| >= 1 && (s[0] == 0x90 || s[0] == 0xC3) then Inst(false, 1, s[0], 0, 0, 0)
    else Inst(true, 0, 0, 0, 0, 0)
  }

  lemma BranchesAreRead(s: seq<byte>, t: seq<byte>)
    requires !Branches(s).error && Branches(s).len <= |t| && s[..Branches(s).len] == t[..Branches(s).len]
    ensures Branches(t) == Branches(s)
  {
    var n := Branches(s).len;
    assert forall i :: 0 <= i < n ==> s[i] == s[..n][i] == t[..n][i] == t[i];
    assert n == 5 ==> s[1] == t[1] && s[2] == t[2] && s[3] == t[3] && s[4] == t[4];
    assert n == 6 ==> s[1] == t[1] && s[2] == t[2] && s[3] == t[3] && s[4] == t[4] && s[5] == t[5];
    assert n == 2 ==> s[1] == t[1];
  }

  lemma BranchesIsFaithful()
    ensures Faithful(Branches)
  {
    forall s, t | !Branches(s).error && Branches(s).len <= |t| && s[..Branches(s).len] == t[..Branches(s).len]
      ensures Branches(t) == Branches(s)
    {
      BranchesAreRead(s, t);
    }
  }

  /** A `je` and a `jmp`, then NOPs: out of the function and back to its start, or
      both to the first NOP. */
  function Example(back: bool): Program {
    var start := if back then [0x74, 0x10, 0xEB, 0xFC] else [0x74, 0x02, 0xEB, 0x00];
    Program(Branches, start + seq(60, _ => 0x90), 0x401000)
  }

  function ExampleSlots(back: bool, n: nat): seq<Slot>
    requires n <= 4
  {
    var m := if back then 4 else 0;
    [if back then Slot(0, 0, Inst(false, 2, 0x74, 0, 0x10, 0), Jcc(4), 0x401012, false)
     else Slot(0, 0, Inst(false, 2, 0x74, 0, 0x02, 0), Verbatim, 0x401004, false),
     Slot(2, m + 2, Inst(false, 2, 0xEB, 0, if back then 0xFC else 0, 0), Verbatim,
          if back then 0x401000 else 0x401004, false),
     Slot(4, m + 4, Inst(false, 1, 0x90, 0, 0, 0), Verbatim, 0, false),
     Slot(5, m + 5, Inst(false, 1, 0x90, 0, 0, 0), Jmp, 0x401005, true)][..n]
  }

  lemma ExampleIsDecoded(back: bool)
    ensures forall i :: 0 <= i < 4 ==> Example(back).At(ExampleSlots(back, 4)[i].src) == ExampleSlots(back, 4)[i].inst
  {
    var c := Example(back).code;
    assert c[0..][0] == c[0] && c[0..][1] == c[1] && c[2..][0] == c[2] && c[2..][1] == c[3];
    assert c[4..][0] == c[4] == 0x90 && c[5..][0] == c[5] == 0x90;
  }

  lemma ExampleIsTreated(back: bool, i: nat)
    requires i < 4
    ensures var s := ExampleSlots(back, 4)[i]; Treat(Example(back), s.src, s.dst) == [s]
  {
    hide Branches;
    ExampleIsDecoded(back);
  }

  lemma ExampleEnds(back: bool, n: nat)
    requires n <= 4
    ensures SrcEnd(ExampleSlots(back, n)) == (if n < 3 then 2 * n else n + 2)
    ensures DstEnd(ExampleSlots(back, n))
      == (if n == 0 then 0 else (if back then 4 else 0) + if n == 4 then 10 else 2 * n - n / 3)
    ensures n > 0 ==> ExampleSlots(back, n) == ExampleSlots(back, n - 1) + [ExampleSlots(back, 4)[n - 1]]
  {
    hide Inst.Dest;
    assert n > 0 ==> ExampleSlots(back, n)[n - 1] == ExampleSlots(back, 4)[n - 1];
  }

  lemma {:induction false} ExampleJmpDest(back: bool, n: nat)
    requires n <= 4
    ensures JmpDest(Example(back), ExampleSlots(back, n)) ==
      if back then (if n < 2 then 0 else 0x401000) else if n < 1 then 0 else 0x401004
  {
    if n > 0 {
      ExampleEnds(back, n);
      ExampleJmpDest(back, n - 1);
      assert ExampleSlots(back, n)[..n - 1] == ExampleSlots(back, n - 1);
    }
  }

  lemma ExampleGoesOn(back: bool, n: nat)
    requires n < 4
    ensures SrcEnd(ExampleSlots(back, n)) < 64
    ensures NextSlot(Example(back), ExampleSlots(back, n)) == [ExampleSlots(back, 4)[n]]
  {
    hide Treat, JmpDest, Inst.Dest;
    ExampleEnds(back, n);
    ExampleEnds(back, n + 1);
    ExampleIsTreated(back, n);
    ExampleJmpDest(back, n + 1);
  }

  lemma ExampleFinishes(back: bool, n: nat)
    requires n <= 4
    ensures Finished(Example(back), ExampleSlots(back, n)) <==> n == 4
  {
    hide JmpDest, Inst.Dest;
    ExampleJmpDest(back, n);
  }

  lemma {:induction false} ExampleIsBuilt(back: bool, n: nat)
    requires n <= 4
    ensures Built(Example(back), ExampleSlots(back, n))
  {
    hide NextSlot, Finished, SrcEnd;
    if n > 0 {
      ExampleIsBuilt(back, n - 1);
      ExampleFinishes(back, n - 1);
      ExampleGoesOn(back, n - 1);
      ExampleEnds(back, n);
      assert ExampleSlots(back, n)[..n - 1] == ExampleSlots(back, n - 1);
    }
  }

  lemma ExampleIsPlaced(back: bool, base: u32)
    requires base < 0x400000
    ensures Placed(Example(back), ExampleSlots(back, 4), base).Valid()
  {
    hide Branches, Built, Finished, Faithful, JmpDest, Inst.Dest;
    BranchesIsFaithful();
    ExampleIsBuilt(back, 4);
    ExampleFinishes(back, 4);
    ExampleEnds(back, 4);
  }

  /** The trampoline of this function is accepted and finished, and its `jmp` back to
      the first instruction lands inside the lengthened `je`. */
  lemma BackwardJumpMisses(base: u32)
    requires base < 0x400000
    ensures var t := Placed(Example(true), ExampleSlots(true, 4), base);
      && t.Valid() && IsInternalBranch(t.p, t.slots[1]) && LeadsTo(t, 1, 0)
      && t.slots[1].dst <= |t.Bytes()| && t.InstAt(1).Dest(t.DstAddr(1)) == t.DstAddr(0) + 4 && !Lands(t, 1)
  {
    hide Branches, Built, Finished, Faithful, Placed.Valid, AllResolved;
    var t := Placed(Example(true), ExampleSlots(true, 4), base);
    ExampleIsPlaced(true, base);
    SlotFacts(t, 1);
    DecodedVerbatim(t, 1);
  }

  /** The simulation applies to the function whose branches lead forwards. */
  lemma ForwardJumpsAreSafe(base: u32)
    requires base < 0x400000
    ensures var t := Placed(Example(false), ExampleSlots(false, 4), base);
      && t.Valid() && AllSafe(t) && IsInternalBranch(t.p, t.slots[0]) && IsInternalBranch(t.p, t.slots[1])
  {
    hide Branches, Built, Finished, Faithful, Placed.Valid, AllResolved;
    var t := Placed(Example(false), ExampleSlots(false, 4), base);
    ExampleIsPlaced(false, base);
    assert LeadsTo(t, 0, 2) && LeadsTo(t, 1, 2);
    assert SafeBranch(t, 2) && SafeBranch(t, 3);
  }
}
