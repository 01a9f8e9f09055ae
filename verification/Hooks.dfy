/** Hooks that overwrite the beginning of a function with a jump, in the 32-bit
    configuration. Memory is a function from addresses to bytes; suspending threads
    is left to the caller of these methods. */
module Hooks {
  import opened Options
  import opened Words
  import opened Trampoline
  import opened CodeBuffer
  import Simulation

  // ----- memory -----

  type Memory = int -> byte

  function Read(mem: Memory, at: int, n: nat): (r: seq<byte>)
    ensures |r| == n
  {
    seq(n, i requires 0 <= i < n => mem(at + i))
  }

  function Overwrite(mem: Memory, at: int, bytes: seq<byte>): Memory {
    a => if at <= a < at + |bytes| then bytes[a - at] else mem(a)
  }

  /** Memory is the same outside n bytes. */
  ghost predicate OnlyIn(was: Memory, now: Memory, at: int, n: nat) {
    forall a :: !(at <= a < at + n) ==> now(a) == was(a)
  }

  lemma ReadElsewhere(was: Memory, now: Memory, at: int, size: nat, from: int, n: nat)
    requires OnlyIn(was, now, at, size) && (from + n <= at || at + size <= from)
    ensures Read(now, from, n) == Read(was, from, n)
  {
  }

  // ----- hooks -----

  /** Where a patch begins: at the target, or at the jump above it. */
  function PatchFrom(target: u32, above: bool): int {
    if above then target - JMP_REL_SIZE else target
  }

  /** How much of a patch lies in the function. */
  function PatchReach(above: bool): nat {
    if above then JMP_REL_SHORT_SIZE else JMP_REL_SIZE
  }

  datatype HookEntry = HookEntry(
    target: u32, detour: u32, trampoline: u32, backup: u32, patchAbove: bool,
    isEnabled: bool, queueEnable: bool, oldIPs: seq<nat>, newIPs: seq<nat>)
  {
    function PatchStart(): int {
      PatchFrom(target, patchAbove)
    }

    function PatchSize(): nat {
      if patchAbove then JMP_REL_SIZE + JMP_REL_SHORT_SIZE else JMP_REL_SIZE
    }

    /** What the enable step writes over the function. */
    function Jump(): (r: seq<byte>)
      ensures |r| == PatchSize()
    {
      RelativeJump(PatchStart(), detour) + if patchAbove then [0xEB, 0xF9] else []
    }

    predicate Covers(a: int) {
      PatchStart() <= a < PatchStart() + PatchSize()
    }
  }

  function RelativeJump(from: int, to: u32): (r: seq<byte>)
    ensures |r| == JMP_REL_SIZE
  {
    [0xE9] + WriteLE32((to - (from + JMP_REL_SIZE)) % TWO32)
  }

  /** A patch covers 5 bytes from the target on, or 5 above it and 2 from it on. */
  lemma PatchExactly(h: HookEntry)
    ensures h.Covers(h.target) && PatchFrom(h.target, h.patchAbove) == h.PatchStart()
    ensures h.target + PatchReach(h.patchAbove) == h.PatchStart() + h.PatchSize()
    ensures forall a ::
      h.Covers(a) <==> if h.patchAbove then h.target - 5 <= a < h.target + 2 else h.target <= a < h.target + 5
  {
  }

  ghost predicate Sorted(hooks: seq<HookEntry>) {
    forall i, j :: 0 <= i < j < |hooks| ==> hooks[i].target < hooks[j].target
  }

  ghost predicate RangesApart(g: HookEntry, h: HookEntry) {
    g.PatchStart() + g.PatchSize() <= h.PatchStart() || h.PatchStart() + h.PatchSize() <= g.PatchStart()
  }

  ghost predicate AllRangesApart(hooks: seq<HookEntry>) {
    forall i, j :: 0 <= i < j < |hooks| ==> RangesApart(hooks[i], hooks[j])
  }

  ghost predicate EntryOk(h: HookEntry, code: iset<int>) {
    && 5 <= h.target && h.target + 64 <= TWO32 && h.oldIPs != [] && |h.newIPs| == |h.oldIPs|
    && forall a :: h.Covers(a) ==> a in code
  }

  ghost predicate EntriesOk(hooks: seq<HookEntry>, code: iset<int>) {
    forall i :: 0 <= i < |hooks| ==> EntryOk(hooks[i], code)
  }

  // ----- the code -----

  ghost predicate Patched(hooks: seq<HookEntry>, a: int) {
    exists i :: 0 <= i < |hooks| && hooks[i].isEnabled && hooks[i].Covers(a)
  }

  /** Code is what it was, except that enabled hooks have written their jumps. */
  ghost predicate CodeOk(hooks: seq<HookEntry>, mem: Memory, pristine: Memory, code: iset<int>) {
    && (forall a :: a in code && !Patched(hooks, a) ==> mem(a) == pristine(a))
    && forall i :: 0 <= i < |hooks| && hooks[i].isEnabled ==>
         Read(mem, hooks[i].PatchStart(), hooks[i].PatchSize()) == hooks[i].Jump()
  }

  /** Only memory under hooks has changed. */
  ghost predicate OnlyUnder(hooks: seq<HookEntry>, was: Memory, now: Memory) {
    forall a :: now(a) != was(a) ==> exists i :: 0 <= i < |hooks| && hooks[i].Covers(a)
  }

  /** Only memory under the hook of a target has changed. */
  ghost predicate OnlyUnderOne(hooks: seq<HookEntry>, target: u32, was: Memory, now: Memory) {
    forall a :: now(a) != was(a) ==> exists i :: 0 <= i < |hooks| && hooks[i].target == target && hooks[i].Covers(a)
  }

  lemma OneMoreUnder(hooks: seq<HookEntry>, was: Memory, now: Memory, later: Memory, i: nat, h: HookEntry)
    requires OnlyUnder(hooks, was, now) && i < |hooks| && h.PatchStart() == hooks[i].PatchStart()
    requires h.PatchSize() == hooks[i].PatchSize() && forall a :: !h.Covers(a) ==> later(a) == now(a)
    ensures OnlyUnder(hooks, was, later)
  {
    forall a | later(a) != was(a)
      ensures exists j :: 0 <= j < |hooks| && hooks[j].Covers(a)
    {
      if later(a) != now(a) {
        assert h.Covers(a) && hooks[i].Covers(a);
      }
    }
  }

  lemma NothingChanged(hooks: seq<HookEntry>, mem: Memory)
    ensures OnlyUnder(hooks, mem, mem)
  {
  }

  lemma UnderOne(hooks: seq<HookEntry>, target: u32, was: Memory, now: Memory, i: nat)
    requires i < |hooks| && hooks[i].target == target && forall a :: !hooks[i].Covers(a) ==> now(a) == was(a)
    ensures OnlyUnderOne(hooks, target, was, now)
  {
  }

  function WithFlags(h: HookEntry, on: bool): HookEntry {
    h.(isEnabled := on, queueEnable := on)
  }

  /** The other ranges are untouched by a write to the range of hook i. */
  lemma OtherRangesKept(hooks: seq<HookEntry>, was: Memory, now: Memory, i: nat, j: nat)
    requires AllRangesApart(hooks) && i < |hooks| && j < |hooks| && i != j
    requires OnlyIn(was, now, hooks[i].PatchStart(), hooks[i].PatchSize())
    ensures var start, size := hooks[j].PatchStart(), hooks[j].PatchSize();
      Read(now, start, size) == Read(was, start, size)
    ensures forall a :: !(hooks[i].Covers(a) && hooks[j].Covers(a))
  {
    hide OnlyIn, Read;
    assert RangesApart(hooks[if i < j then i else j], hooks[if i < j then j else i]);
    ReadElsewhere(was, now, hooks[i].PatchStart(), hooks[i].PatchSize(), hooks[j].PatchStart(), hooks[j].PatchSize());
  }

  /** Writing the jump of hook i, or its original bytes, is all that switching does. */
  lemma SwitchKeepsCode(hooks: seq<HookEntry>, was: Memory, now: Memory, pristine: Memory, code: iset<int>, i: nat,
                        on: bool)
    requires CodeOk(hooks, was, pristine, code) && AllRangesApart(hooks) && i < |hooks|
    requires OnlyIn(was, now, hooks[i].PatchStart(), hooks[i].PatchSize())
    requires Read(now, hooks[i].PatchStart(), hooks[i].PatchSize())
      == if on then hooks[i].Jump() else Read(pristine, hooks[i].PatchStart(), hooks[i].PatchSize())
    ensures CodeOk(hooks[i := WithFlags(hooks[i], on)], now, pristine, code)
  {
    hide AllRangesApart, HookEntry.Jump, Read;
    var h := hooks[i];
    var hooks' := hooks[i := WithFlags(h, on)];
    SameJump(h, on);
    forall a | a in code && !Patched(hooks', a)
      ensures now(a) == pristine(a)
    {
      if h.Covers(a) {
        assert !on by { assert hooks'[i].isEnabled == on && hooks'[i].Covers(a); }
        AtRead(now, pristine, h.PatchStart(), h.PatchSize(), a);
      } else {
        assert forall j :: 0 <= j < |hooks| && hooks[j].isEnabled && hooks[j].Covers(a) ==>
          hooks'[j].isEnabled && hooks'[j].Covers(a);
      }
    }
    forall j | 0 <= j < |hooks'| && hooks'[j].isEnabled
      ensures Read(now, hooks'[j].PatchStart(), hooks'[j].PatchSize()) == hooks'[j].Jump()
    {
      if j != i {
        OtherRangesKept(hooks, was, now, i, j);
      }
    }
  }

  lemma AtRead(m: Memory, m': Memory, at: int, n: nat, a: int)
    requires Read(m, at, n) == Read(m', at, n) && at <= a < at + n
    ensures m(a) == m'(a)
  {
    assert Read(m, at, n)[a - at] == m(a) && Read(m', at, n)[a - at] == m'(a);
  }

  lemma SameJump(h: HookEntry, on: bool)
    ensures WithFlags(h, on).Jump() == h.Jump()
  {
  }

  // ----- the buffers of a hook -----

  /** The instruction pointers of a function and of its trampoline, instruction by
      instruction, and of the jump above. */
  ghost predicate PointersOk(oldIPs: seq<nat>, newIPs: seq<nat>, t: Simulation.Placed, above: bool) {
    && |oldIPs| == |newIPs| == |t.slots| + (if above then 1 else 0)
    && (forall i :: 0 <= i < |t.slots| ==>
          oldIPs[i] == t.p.target + t.slots[i].src && newIPs[i] == t.base + t.slots[i].dst)
    && (above ==> oldIPs[|t.slots|] == t.p.target && newIPs[|t.slots|] == t.p.target - 5)
  }

  /** The resolved trampoline recorded for a hook. */
  ghost predicate CopyOk(h: HookEntry, copies: map<u32, Simulation.Placed>) {
    h.target in copies &&
    var t := copies[h.target];
    && t.p.Valid() && t.p.target == h.target && t.base == h.trampoline
    && Built(t.p, t.slots) && Finished(t.p, t.slots) && InCode(t.p, t.slots)
    && 0 < |t.Bytes()| < 1000 && t.base + |t.Bytes()| <= TWO32
    && h.patchAbove == !LongJumpFits(t.p, SrcEnd(t.slots))
    && PointersOk(h.oldIPs, h.newIPs, t, h.patchAbove)
  }

  ghost predicate CopiesOk(hooks: seq<HookEntry>, copies: map<u32, Simulation.Placed>) {
    forall i :: 0 <= i < |hooks| ==> CopyOk(hooks[i], copies)
  }

  ghost function BackupOf(h: HookEntry): Alloc {
    Alloc(h.backup, Rounded(h.PatchSize()))
  }

  /** The bytes of the trampoline. */
  ghost function Text(h: HookEntry, copies: map<u32, Simulation.Placed>): (b: seq<byte>)
    requires CopyOk(h, copies)
    ensures 0 < |b| < 1000 && h.trampoline + |b| <= TWO32
  {
    copies[h.target].Bytes()
  }

  ghost function TrampolineOf(h: HookEntry, copies: map<u32, Simulation.Placed>): Alloc
    requires CopyOk(h, copies)
  {
    Alloc(h.trampoline, Rounded(|Text(h, copies)|))
  }

  /** The two buffers of a hook. */
  datatype Pair = Pair(backup: Alloc, trampoline: Alloc) {
    predicate Has(a: Alloc) { a == backup || a == trampoline }
  }

  ghost function OwnedBy(h: HookEntry, copies: map<u32, Simulation.Placed>): Pair
    requires CopyOk(h, copies)
  {
    Pair(BackupOf(h), TrampolineOf(h, copies))
  }

  ghost function Owners(hooks: seq<HookEntry>, copies: map<u32, Simulation.Placed>): (r: seq<Pair>)
    requires CopiesOk(hooks, copies)
    ensures |r| == |hooks|
  {
    seq(|hooks|, i requires 0 <= i < |hooks| => OwnedBy(hooks[i], copies))
  }

  ghost predicate Holds(pairs: seq<Pair>, a: Alloc) {
    exists i :: 0 <= i < |pairs| && pairs[i].Has(a)
  }

  ghost predicate PairsApart(p: Pair, q: Pair) {
    !q.Has(p.backup) && !q.Has(p.trampoline)
  }

  ghost predicate NoneShared(pairs: seq<Pair>) {
    && (forall i :: 0 <= i < |pairs| ==> pairs[i].backup != pairs[i].trampoline)
    && (forall i, j :: 0 <= i < j < |pairs| ==> PairsApart(pairs[i], pairs[j]))
  }

  /** The live buffers are those of the pairs, and none is in two places. */
  ghost predicate Accounted(pairs: seq<Pair>, live: set<Alloc>) {
    NoneShared(pairs) && forall a :: a in live <==> Holds(pairs, a)
  }

  /** The live buffers are the backups and trampolines of the hooks, each of its own. */
  ghost predicate Owned(hooks: seq<HookEntry>, copies: map<u32, Simulation.Placed>, live: set<Alloc>)
    requires CopiesOk(hooks, copies)
  {
    Accounted(Owners(hooks, copies), live)
  }

  /** The code that was copied is the original one, and there is room for the patch. */
  ghost predicate PatchOk(h: HookEntry, copies: map<u32, Simulation.Placed>, pristine: Memory)
    requires CopyOk(h, copies)
  {
    var t := copies[h.target];
    && t.p.code[..PatchReach(h.patchAbove)] == Read(pristine, h.target, PatchReach(h.patchAbove))
    && PatchFits(t.p, SrcEnd(t.slots), Read(pristine, h.target - JMP_REL_SIZE, JMP_REL_SIZE), true)
  }

  /** The backup holds the original bytes and the trampoline the resolved copy. */
  ghost predicate StoredOk(h: HookEntry, copies: map<u32, Simulation.Placed>, mem: Memory, pristine: Memory)
    requires CopyOk(h, copies)
  {
    && PatchOk(h, copies, pristine)
    && Read(mem, h.backup, h.PatchSize()) == Read(pristine, h.PatchStart(), h.PatchSize())
    && Read(mem, h.trampoline, |Text(h, copies)|) == Text(h, copies)
  }

  ghost predicate Stored(hooks: seq<HookEntry>, copies: map<u32, Simulation.Placed>, mem: Memory, pristine: Memory)
    requires CopiesOk(hooks, copies)
  {
    forall i :: 0 <= i < |hooks| ==> StoredOk(hooks[i], copies, mem, pristine)
  }

  /** No block of the allocator lies over code. */
  ghost predicate BlocksOutside(blocks: seq<MemoryBlock>, code: iset<int>) {
    forall b, x :: b in blocks && Around(b, x) ==> x !in code
  }

  ghost predicate OutsideCode(a: Alloc, code: iset<int>) {
    forall x :: a.address <= x < a.End() ==> x !in code
  }

  lemma BuffersOutsideCode(blocks: seq<MemoryBlock>, live: set<Alloc>, pending: set<Alloc>, code: iset<int>, a: Alloc)
    requires Sound(blocks, live, pending) && BlocksOutside(blocks, code) && a in live + pending
    ensures OutsideCode(a, code)
  {
    hide SpacedOut, Counts, AllApart;
    var i := HomeOf(blocks, if a in live then live else pending, a in live, a);
    assert BlockOk(blocks[i]);
    assert forall x :: a.address <= x < a.End() ==> Around(blocks[i], x);
  }

  /** A write to code leaves every buffer alone. */
  lemma CodeWriteKeeps(was: Memory, now: Memory, at: int, size: nat, code: iset<int>, a: Alloc, n: nat)
    requires OnlyIn(was, now, at, size) && (forall x :: at <= x < at + size ==> x in code)
    requires OutsideCode(a, code) && n <= a.size
    ensures Read(now, a.address, n) == Read(was, a.address, n)
  {
    var old', new' := Read(was, a.address, n), Read(now, a.address, n);
    forall k | 0 <= k < n
      ensures new'[k] == old'[k]
    {
      assert a.address + k !in code;
    }
  }

  lemma OwnsLive(hooks: seq<HookEntry>, copies: map<u32, Simulation.Placed>, live: set<Alloc>, i: nat)
    requires CopiesOk(hooks, copies) && Owned(hooks, copies, live) && i < |hooks|
    ensures CopyOk(hooks[i], copies) && BackupOf(hooks[i]) in live && TrampolineOf(hooks[i], copies) in live
    ensures BackupOf(hooks[i]) != TrampolineOf(hooks[i], copies)
  {
    hide CopyOk, BackupOf, TrampolineOf;
    var p := Owners(hooks, copies)[i];
    assert p == OwnedBy(hooks[i], copies) && p.Has(p.backup) && p.Has(p.trampoline);
    assert Holds(Owners(hooks, copies), p.backup) && Holds(Owners(hooks, copies), p.trampoline);
  }

  lemma CodeWriteKeepsOne(h: HookEntry, copies: map<u32, Simulation.Placed>, was: Memory, now: Memory, pristine: Memory,
                          code: iset<int>, at: int, size: nat)
    requires CopyOk(h, copies) && StoredOk(h, copies, was, pristine)
    requires OutsideCode(BackupOf(h), code) && OutsideCode(TrampolineOf(h, copies), code)
    requires OnlyIn(was, now, at, size) && forall x :: at <= x < at + size ==> x in code
    ensures StoredOk(h, copies, now, pristine)
  {
    hide CopyOk, Read, OnlyIn, OutsideCode, Text;
    CodeWriteKeeps(was, now, at, size, code, BackupOf(h), h.PatchSize());
    CodeWriteKeeps(was, now, at, size, code, TrampolineOf(h, copies), |Text(h, copies)|);
  }

  lemma CodeWriteKeepsStored(hooks: seq<HookEntry>, copies: map<u32, Simulation.Placed>, was: Memory, now: Memory,
                             pristine: Memory, live: set<Alloc>, code: iset<int>, at: int, size: nat)
    requires CopiesOk(hooks, copies) && Owned(hooks, copies, live) && Stored(hooks, copies, was, pristine)
    requires forall a :: a in live ==> OutsideCode(a, code)
    requires OnlyIn(was, now, at, size) && forall x :: at <= x < at + size ==> x in code
    ensures Stored(hooks, copies, now, pristine)
  {
    hide CopyOk, OnlyIn, OutsideCode, StoredOk, Owned, BackupOf, TrampolineOf;
    forall i | 0 <= i < |hooks|
      ensures StoredOk(hooks[i], copies, now, pristine)
    {
      OwnsLive(hooks, copies, live, i);
      CodeWriteKeepsOne(hooks[i], copies, was, now, pristine, code, at, size);
    }
  }

  lemma BufferWriteKeepsOne(h: HookEntry, copies: map<u32, Simulation.Placed>, was: Memory, now: Memory,
                            pristine: Memory, a: Alloc)
    requires CopyOk(h, copies) && StoredOk(h, copies, was, pristine)
    requires Apart(a, BackupOf(h)) && Apart(a, TrampolineOf(h, copies)) && OnlyIn(was, now, a.address, a.size)
    ensures StoredOk(h, copies, now, pristine)
  {
    hide CopyOk, Read, OnlyIn, Text;
    ReadElsewhere(was, now, a.address, a.size, h.backup, h.PatchSize());
    ReadElsewhere(was, now, a.address, a.size, h.trampoline, |Text(h, copies)|);
  }

  /** A write to a buffer of its own leaves the others and the code alone. */
  lemma BufferWriteKeeps(hooks: seq<HookEntry>, copies: map<u32, Simulation.Placed>, was: Memory, now: Memory,
                         pristine: Memory, live: set<Alloc>, a: Alloc)
    requires CopiesOk(hooks, copies) && Owned(hooks, copies, live) && Stored(hooks, copies, was, pristine)
    requires (forall x :: x in live ==> Apart(a, x)) && OnlyIn(was, now, a.address, a.size)
    ensures Stored(hooks, copies, now, pristine)
  {
    hide CopyOk, StoredOk, Owned, BackupOf, TrampolineOf, Apart, OnlyIn;
    forall i | 0 <= i < |hooks|
      ensures StoredOk(hooks[i], copies, now, pristine)
    {
      OwnsLive(hooks, copies, live, i);
      BufferWriteKeepsOne(hooks[i], copies, was, now, pristine, a);
    }
  }

  lemma SameCode(hooks: seq<HookEntry>, mem: Memory, mem': Memory, pristine: Memory, code: iset<int>)
    requires CodeOk(hooks, mem, pristine, code) && EntriesOk(hooks, code)
    requires forall x :: x in code ==> mem'(x) == mem(x)
    ensures CodeOk(hooks, mem', pristine, code)
  {
    forall i | 0 <= i < |hooks| && hooks[i].isEnabled
      ensures Read(mem', hooks[i].PatchStart(), hooks[i].PatchSize()) == hooks[i].Jump()
    {
      assert EntryOk(hooks[i], code);
      var start := hooks[i].PatchStart();
      var was, now := Read(mem, start, hooks[i].PatchSize()), Read(mem', start, hooks[i].PatchSize());
      forall k | 0 <= k < |now|
        ensures now[k] == was[k]
      {
        assert hooks[i].Covers(start + k);
      }
    }
  }

  // ----- the registry -----

  ghost predicate Registered(hooks: seq<HookEntry>, copies: map<u32, Simulation.Placed>, code: iset<int>) {
    Sorted(hooks) && AllRangesApart(hooks) && EntriesOk(hooks, code) && CopiesOk(hooks, copies)
  }

  ghost predicate Buffered(hooks: seq<HookEntry>, copies: map<u32, Simulation.Placed>, live: set<Alloc>,
                           mem: Memory, pristine: Memory)
    requires CopiesOk(hooks, copies)
  {
    Owned(hooks, copies, live) && Stored(hooks, copies, mem, pristine)
  }

  ghost predicate SameButFlags(was: seq<HookEntry>, now: seq<HookEntry>) {
    && |was| == |now|
    && forall i :: 0 <= i < |was| ==>
         now[i] == was[i].(isEnabled := now[i].isEnabled, queueEnable := now[i].queueEnable)
  }

  lemma FlagsKeepRegistered(was: seq<HookEntry>, now: seq<HookEntry>, copies: map<u32, Simulation.Placed>,
                            code: iset<int>)
    requires Registered(was, copies, code) && SameButFlags(was, now)
    ensures Registered(now, copies, code)
  {
    hide CopyOk;
    forall i | 0 <= i < |now|
      ensures EntryOk(now[i], code) && CopyOk(now[i], copies)
    {
      assert EntryOk(was[i], code) && CopyOk(was[i], copies);
      SameEntry(was[i], now[i], copies, code);
    }
    forall i, j | 0 <= i < j < |now|
      ensures RangesApart(now[i], now[j])
    {
      assert RangesApart(was[i], was[j]);
    }
  }

  lemma SameEntry(g: HookEntry, h: HookEntry, copies: map<u32, Simulation.Placed>, code: iset<int>)
    requires h == g.(isEnabled := h.isEnabled, queueEnable := h.queueEnable)
    ensures EntryOk(g, code) ==> EntryOk(h, code)
    ensures CopyOk(g, copies) ==> CopyOk(h, copies)
  {
    assert forall a :: h.Covers(a) ==> g.Covers(a);
  }

  lemma FlagsKeepBuffered(was: seq<HookEntry>, now: seq<HookEntry>, copies: map<u32, Simulation.Placed>,
                          live: set<Alloc>, mem: Memory, pristine: Memory)
    requires CopiesOk(was, copies) && CopiesOk(now, copies) && SameButFlags(was, now)
    requires Buffered(was, copies, live, mem, pristine)
    ensures Buffered(now, copies, live, mem, pristine)
  {
    hide CopyOk, StoredOk, Accounted;
    forall i | 0 <= i < |now|
      ensures OwnedBy(now[i], copies) == OwnedBy(was[i], copies)
      ensures StoredOk(now[i], copies, mem, pristine)
    {
      assert StoredOk(was[i], copies, mem, pristine);
      SameOwner(was[i], now[i], copies, mem, pristine);
    }
    assert Owners(now, copies) == Owners(was, copies);
  }

  lemma SameOwner(g: HookEntry, h: HookEntry, copies: map<u32, Simulation.Placed>, mem: Memory, pristine: Memory)
    requires h == g.(isEnabled := h.isEnabled, queueEnable := h.queueEnable) && CopyOk(g, copies) && CopyOk(h, copies)
    ensures OwnedBy(h, copies) == OwnedBy(g, copies)
    ensures StoredOk(g, copies, mem, pristine) ==> StoredOk(h, copies, mem, pristine)
  {
    hide CopyOk, Read;
  }

  /** The hooks before index n that are not as wanted have been switched. */
  function Switched(hooks: seq<HookEntry>, want: HookEntry -> bool, n: nat): (r: seq<HookEntry>)
    requires n <= |hooks|
    ensures |r| == |hooks|
  {
    seq(|hooks|, i requires 0 <= i < |hooks| =>
      if i < n && hooks[i].isEnabled != want(hooks[i]) then WithFlags(hooks[i], want(hooks[i])) else hooks[i])
  }

  datatype Status =
    | Done | AlreadyInitialized | NotInitialized | AlreadyCreated | NotCreated | IsEnabled | IsDisabled
    | NotExecutable | UnsupportedFunction | MemoryAlloc | MemoryProtect

  /** A thread at x is to go to y, because hook i is to be switched. */
  ghost predicate MovedPair(hooks: seq<HookEntry>, want: HookEntry -> bool, i: int, j: int, x: nat, y: nat) {
    && 0 <= i < |hooks| && hooks[i].isEnabled != want(hooks[i])
    && 0 <= j < |hooks[i].oldIPs| && j < |hooks[i].newIPs|
    && (if want(hooks[i]) then x == hooks[i].oldIPs[j] && y == hooks[i].newIPs[j]
        else x == hooks[i].newIPs[j] && y == hooks[i].oldIPs[j])
  }

  /** A thread at x is to go to y, because of one of the first n hooks. */
  ghost predicate Sent(hooks: seq<HookEntry>, want: HookEntry -> bool, n: nat, x: nat, y: nat) {
    exists i, j :: i < n && MovedPair(hooks, want, i, j, x, y)
  }

  ghost predicate Listed(from: seq<nat>, to: seq<nat>, x: nat, y: nat) {
    exists k :: 0 <= k < |from| && k < |to| && from[k] == x && to[k] == y
  }

  ghost predicate Collected(hooks: seq<HookEntry>, want: HookEntry -> bool, n: nat, from: seq<nat>, to: seq<nat>) {
    |from| == |to| && forall x, y :: Listed(from, to, x, y) <==> Sent(hooks, want, n, x, y)
  }

  lemma ListedTogether(from: seq<nat>, to: seq<nat>, from': seq<nat>, to': seq<nat>, x: nat, y: nat)
    requires |from| == |to| && |from'| == |to'|
    ensures Listed(from + from', to + to', x, y) <==> Listed(from, to, x, y) || Listed(from', to', x, y)
  {
    var f, t := from + from', to + to';
    if k :| 0 <= k < |f| && f[k] == x && t[k] == y {
      if k >= |from| {
        assert from'[k - |from|] == x && to'[k - |from|] == y;
      }
    }
    if k :| 0 <= k < |from| && from[k] == x && to[k] == y {
      assert f[k] == x && t[k] == y;
    }
    if k :| 0 <= k < |from'| && from'[k] == x && to'[k] == y {
      assert f[|from| + k] == x && t[|from| + k] == y;
    }
  }

  lemma SentByOne(hooks: seq<HookEntry>, want: HookEntry -> bool, i: nat, x: nat, y: nat)
    requires i < |hooks| && |hooks[i].oldIPs| == |hooks[i].newIPs|
    ensures var h := hooks[i];
      Sent(hooks, want, i + 1, x, y) <==>
        || Sent(hooks, want, i, x, y)
        || (h.isEnabled != want(h)
            && if want(h) then Listed(h.oldIPs, h.newIPs, x, y) else Listed(h.newIPs, h.oldIPs, x, y))
  {
    var h := hooks[i];
    if g, j :| g < i + 1 && MovedPair(hooks, want, g, j, x, y) {
      if g < i {
        assert Sent(hooks, want, i, x, y);
      } else if want(h) {
        assert h.oldIPs[j] == x && h.newIPs[j] == y;
      } else {
        assert h.newIPs[j] == x && h.oldIPs[j] == y;
      }
    }
    if g, j :| g < i && MovedPair(hooks, want, g, j, x, y) {
      assert g < i + 1;
    }
    if h.isEnabled != want(h) && want(h) && Listed(h.oldIPs, h.newIPs, x, y) {
      var j :| 0 <= j < |h.oldIPs| && h.oldIPs[j] == x && h.newIPs[j] == y;
      assert MovedPair(hooks, want, i, j, x, y);
    }
    if h.isEnabled != want(h) && !want(h) && Listed(h.newIPs, h.oldIPs, x, y) {
      var j :| 0 <= j < |h.newIPs| && h.newIPs[j] == x && h.oldIPs[j] == y;
      assert MovedPair(hooks, want, i, j, x, y);
    }
  }

  lemma NothingCollected(hooks: seq<HookEntry>, want: HookEntry -> bool)
    ensures Collected(hooks, want, 0, [], [])
  {
  }

  lemma MoreCollected(hooks: seq<HookEntry>, want: HookEntry -> bool, i: nat, from0: seq<nat>, to0: seq<nat>,
                      from: seq<nat>, to: seq<nat>)
    requires i < |hooks| && Collected(hooks, want, i, from0, to0) && |hooks[i].oldIPs| == |hooks[i].newIPs|
    requires var h := hooks[i];
      if h.isEnabled == want(h) then from == from0 && to == to0
      else if want(h) then from == from0 + h.oldIPs && to == to0 + h.newIPs
      else from == from0 + h.newIPs && to == to0 + h.oldIPs
    ensures Collected(hooks, want, i + 1, from, to)
  {
    hide Sent, Listed;
    var h := hooks[i];
    forall x, y
      ensures Listed(from, to, x, y) <==> Sent(hooks, want, i + 1, x, y)
    {
      SentByOne(hooks, want, i, x, y);
      ListedTogether(from0, to0, h.oldIPs, h.newIPs, x, y);
      ListedTogether(from0, to0, h.newIPs, h.oldIPs, x, y);
    }
  }

  /** All hooks were switched as wanted, or those before the first one whose memory
      could not be made writable. */
  ghost predicate SwitchedWhilePossible(was: seq<HookEntry>, now: seq<HookEntry>, want: HookEntry -> bool,
                                        writable: nat -> bool, s: Status)
  {
    exists n ::
      && 0 <= n <= |was| && now == Switched(was, want, n)
      && (forall i :: 0 <= i < n && was[i].isEnabled != want(was[i]) ==> writable(i))
      && (if s == Done then n == |was|
          else s == MemoryProtect && n < |was| && was[n].isEnabled != want(was[n]) && !writable(n))
  }

  /** The jump and, above it, the short jump are the bytes of the patch. */
  lemma JumpInTwoWrites(was: Memory, h: HookEntry, now: Memory)
    requires var first := Overwrite(was, h.PatchStart(), RelativeJump(h.PatchStart(), h.detour));
      now == if h.patchAbove then Overwrite(first, h.target, [0xEB, 0xF9]) else first
    ensures OnlyIn(was, now, h.PatchStart(), h.PatchSize()) && Read(now, h.PatchStart(), h.PatchSize()) == h.Jump()
  {
    hide WriteLE32;
  }

  lemma BackupRestored(was: Memory, h: HookEntry, now: Memory, backup: seq<byte>)
    requires |backup| == h.PatchSize() && now == Overwrite(was, h.PatchStart(), backup)
    ensures OnlyIn(was, now, h.PatchStart(), h.PatchSize()) && Read(now, h.PatchStart(), h.PatchSize()) == backup
  {
  }

  lemma BackupIsPristine(hooks: seq<HookEntry>, copies: map<u32, Simulation.Placed>, live: set<Alloc>, mem: Memory,
                         pristine: Memory, i: nat)
    requires CopiesOk(hooks, copies) && Buffered(hooks, copies, live, mem, pristine) && i < |hooks|
    ensures var h := hooks[i];
      Read(mem, h.backup, h.PatchSize()) == Read(pristine, h.PatchStart(), h.PatchSize())
  {
    hide Owned, CopyOk, Read;
    assert StoredOk(hooks[i], copies, mem, pristine);
  }

  lemma SwitchKeepsAll(hooks: seq<HookEntry>, copies: map<u32, Simulation.Placed>, was: Memory, now: Memory,
                       pristine: Memory, code: iset<int>, blocks: seq<MemoryBlock>, live: set<Alloc>, i: nat, on: bool)
    requires i < |hooks| && OnlyIn(was, now, hooks[i].PatchStart(), hooks[i].PatchSize())
    requires Read(now, hooks[i].PatchStart(), hooks[i].PatchSize())
      == if on then hooks[i].Jump() else Read(pristine, hooks[i].PatchStart(), hooks[i].PatchSize())
    requires Registered(hooks, copies, code) && Buffered(hooks, copies, live, was, pristine)
    requires CodeOk(hooks, was, pristine, code) && Sound(blocks, live, {}) && BlocksOutside(blocks, code)
    ensures var hooks' := hooks[i := WithFlags(hooks[i], on)];
      && Registered(hooks', copies, code) && CopiesOk(hooks', copies) && Buffered(hooks', copies, live, now, pristine)
      && CodeOk(hooks', now, pristine, code)
  {
    hide CodeOk, Sound, BlocksOutside, OutsideCode, OnlyIn, Read, AllRangesApart, Sorted, CopiesOk, Owned, Stored,
      HookEntry.Jump;
    var hooks' := hooks[i := WithFlags(hooks[i], on)];
    SwitchKeepsCode(hooks, was, now, pristine, code, i, on);
    FlagsKeepRegistered(hooks, hooks', copies, code);
    forall a | a in live ensures OutsideCode(a, code) {
      BuffersOutsideCode(blocks, live, {}, code, a);
    }
    RangeInCode(hooks, code, i);
    CodeWriteKeepsStored(hooks, copies, was, now, pristine, live, code, hooks[i].PatchStart(), hooks[i].PatchSize());
    FlagsKeepBuffered(hooks, hooks', copies, live, now, pristine);
  }

  lemma RangeInCode(hooks: seq<HookEntry>, code: iset<int>, i: nat)
    requires EntriesOk(hooks, code) && i < |hooks|
    ensures forall x :: hooks[i].PatchStart() <= x < hooks[i].PatchStart() + hooks[i].PatchSize() ==> x in code
  {
    assert EntryOk(hooks[i], code);
    assert forall x :: hooks[i].PatchStart() <= x < hooks[i].PatchStart() + hooks[i].PatchSize() ==> hooks[i].Covers(x);
  }

  predicate Always(h: HookEntry) { true }

  predicate Never(h: HookEntry) { false }

  predicate Queued(h: HookEntry) { h.queueEnable }

  const ALL_HOOKS: u32 := 0

  /** The hook of a target was switched, unless there is none, it was so already or its
      memory could not be made writable. */
  ghost predicate SwitchedOne(was: seq<HookEntry>, now: seq<HookEntry>, target: u32, on: bool, writable: nat -> bool,
                              s: Status)
  {
    if forall i :: 0 <= i < |was| ==> was[i].target != target then s == NotCreated && now == was
    else
      exists i ::
        && 0 <= i < |was| && was[i].target == target
        && (s == if was[i].isEnabled == on then if on then IsEnabled else IsDisabled
                 else if writable(i) then Done else MemoryProtect)
        && now == if s == Done then was[i := WithFlags(was[i], on)] else was
  }

  lemma NoneSwitched(hooks: seq<HookEntry>, want: HookEntry -> bool)
    ensures Switched(hooks, want, 0) == hooks
    ensures (forall i :: 0 <= i < |hooks| ==> hooks[i].isEnabled == want(hooks[i])) ==>
      Switched(hooks, want, |hooks|) == hooks
  {
  }

  lemma OneSwitched(hooks: seq<HookEntry>, want: HookEntry -> bool, i: nat)
    requires i < |hooks|
    ensures Switched(hooks, want, i)[i] == hooks[i]
    ensures Switched(hooks, want, i + 1) ==
      if hooks[i].isEnabled != want(hooks[i]) then Switched(hooks, want, i)[i := WithFlags(hooks[i], want(hooks[i]))]
      else Switched(hooks, want, i)
  {
  }

  lemma NeverSaysUninitialized(was: seq<HookEntry>, now: seq<HookEntry>, want: HookEntry -> bool, writable: nat -> bool,
                               s: Status)
    requires SwitchedWhilePossible(was, now, want, writable, s)
    ensures s == Done || s == MemoryProtect
  {
  }

  /** Once a queue is applied, every hook is as it was queued. */
  lemma QueueSettled(was: seq<HookEntry>, now: seq<HookEntry>, writable: nat -> bool)
    requires SwitchedWhilePossible(was, now, Queued, writable, Done)
    ensures |now| == |was|
    ensures forall i :: 0 <= i < |now| ==> now[i].isEnabled == now[i].queueEnable == was[i].queueEnable
  {
  }

  /** Once all hooks were switched, each is as it was wanted. */
  lemma AllAsWanted(was: seq<HookEntry>, now: seq<HookEntry>, want: HookEntry -> bool, writable: nat -> bool)
    requires SwitchedWhilePossible(was, now, want, writable, Done)
    ensures |now| == |was| && forall i :: 0 <= i < |now| ==> now[i].isEnabled == want(was[i])
  {
  }

  lemma RegisteredIsSorted(hooks: seq<HookEntry>, copies: map<u32, Simulation.Placed>, code: iset<int>)
    requires Registered(hooks, copies, code)
    ensures Sorted(hooks) && CopiesOk(hooks, copies)
  {
  }

  lemma QueueKeepsAll(was: seq<HookEntry>, now: seq<HookEntry>, copies: map<u32, Simulation.Placed>, live: set<Alloc>,
                      mem: Memory, pristine: Memory, code: iset<int>)
    requires |was| == |now|
    requires forall i :: 0 <= i < |was| ==> now[i] == was[i].(queueEnable := now[i].queueEnable)
    requires Registered(was, copies, code) && Buffered(was, copies, live, mem, pristine)
    requires CodeOk(was, mem, pristine, code)
    ensures Registered(now, copies, code) && CopiesOk(now, copies) && Buffered(now, copies, live, mem, pristine)
    ensures CodeOk(now, mem, pristine, code)
  {
    hide AllRangesApart, EntriesOk, CopiesOk, Sorted, Owned, Stored, Read;
    assert SameButFlags(was, now);
    FlagsKeepRegistered(was, now, copies, code);
    FlagsKeepBuffered(was, now, copies, live, mem, pristine);
    forall a | a in code && !Patched(now, a)
      ensures mem(a) == pristine(a)
    {
      assert forall i :: 0 <= i < |was| && was[i].isEnabled && was[i].Covers(a) ==>
        now[i].isEnabled && now[i].Covers(a);
    }
  }

  /** Only the queue flag of the hook of a target, or of all of them, has changed. */
  ghost predicate QueuedOn(was: seq<HookEntry>, now: seq<HookEntry>, target: u32, on: bool, s: Status) {
    if target != 0 && forall i :: 0 <= i < |was| ==> was[i].target != target then s == NotCreated && now == was
    else
      && s == Done && |now| == |was|
      && forall i :: 0 <= i < |was| ==>
           now[i] == if target == 0 || was[i].target == target then was[i].(queueEnable := on) else was[i]
  }

  // ----- removing and inserting a hook -----

  function Without<T>(s: seq<T>, i: nat): seq<T>
    requires i < |s|
  {
    s[..i] + s[i + 1..]
  }

  function Inserted<T>(s: seq<T>, k: nat, x: T): seq<T>
    requires k <= |s|
  {
    s[..k] + [x] + s[k..]
  }

  /** The position before a removal of what is now at j. */
  function Before(i: nat, j: nat): nat { if j < i then j else j + 1 }

  /** The position after a removal of what was at j. */
  function Behind(i: nat, j: nat): nat
    requires j != i
  {
    if j < i then j else j - 1
  }

  lemma WithoutAt<T>(s: seq<T>, i: nat)
    requires i < |s|
    ensures |Without(s, i)| == |s| - 1
    ensures forall j :: 0 <= j < |s| - 1 ==> Without(s, i)[j] == s[Before(i, j)]
    ensures forall j :: 0 <= j < |s| && j != i ==> Without(s, i)[Behind(i, j)] == s[j]
  {
  }

  lemma WithoutKeepsRegistered(hooks: seq<HookEntry>, i: nat, copies: map<u32, Simulation.Placed>, code: iset<int>)
    requires i < |hooks| && Registered(hooks, copies, code)
    ensures Registered(Without(hooks, i), copies, code)
  {
    hide CopyOk, EntryOk, RangesApart;
    WithoutAt(hooks, i);
    var rest := Without(hooks, i);
    forall j | 0 <= j < |rest|
      ensures CopyOk(rest[j], copies) && EntryOk(rest[j], code)
    {
      assert CopyOk(hooks[Before(i, j)], copies) && EntryOk(hooks[Before(i, j)], code);
    }
    forall j, k | 0 <= j < k < |rest|
      ensures RangesApart(rest[j], rest[k]) && rest[j].target < rest[k].target
    {
      var g, h := hooks[Before(i, j)], hooks[Before(i, k)];
      assert RangesApart(g, h) && g.target < h.target;
    }
  }

  lemma HasNotBoth(p: Pair, q: Pair, a: Alloc)
    requires (PairsApart(p, q) || PairsApart(q, p)) && p.Has(a)
    ensures !q.Has(a)
  {
  }

  lemma HoldsWithout(pairs: seq<Pair>, i: nat, a: Alloc)
    requires i < |pairs| && NoneShared(pairs)
    ensures Holds(Without(pairs, i), a) <==> Holds(pairs, a) && !pairs[i].Has(a)
  {
    hide Without, PairsApart, Pair.Has;
    WithoutAt(pairs, i);
    var rest := Without(pairs, i);
    if j :| 0 <= j < |rest| && rest[j].Has(a) {
      var j' := Before(i, j);
      assert rest[j] == pairs[j'];
      assert if j' < i then PairsApart(pairs[j'], pairs[i]) else PairsApart(pairs[i], pairs[j']);
      HasNotBoth(pairs[j'], pairs[i], a);
    }
    if j :| 0 <= j < |pairs| && pairs[j].Has(a) && j != i {
      assert rest[Behind(i, j)] == pairs[j];
    }
  }

  lemma AccountedWithout(pairs: seq<Pair>, i: nat, live: set<Alloc>)
    requires i < |pairs| && Accounted(pairs, live)
    ensures Accounted(Without(pairs, i), live - {pairs[i].backup, pairs[i].trampoline})
  {
    hide Without, Holds, PairsApart;
    WithoutAt(pairs, i);
    var rest := Without(pairs, i);
    forall a ensures Holds(rest, a) <==> Holds(pairs, a) && !pairs[i].Has(a) {
      HoldsWithout(pairs, i, a);
    }
    forall j, k | 0 <= j < k < |rest|
      ensures PairsApart(rest[j], rest[k])
    {
      assert PairsApart(pairs[Before(i, j)], pairs[Before(i, k)]);
    }
  }

  lemma WithoutKeepsOwned(hooks: seq<HookEntry>, i: nat, copies: map<u32, Simulation.Placed>, live: set<Alloc>)
    requires i < |hooks| && CopiesOk(hooks, copies) && CopiesOk(Without(hooks, i), copies) && Owned(hooks, copies, live)
    ensures Owned(Without(hooks, i), copies, live - {BackupOf(hooks[i]), TrampolineOf(hooks[i], copies)})
  {
    hide CopyOk, Accounted, BackupOf, TrampolineOf;
    AccountedWithout(Owners(hooks, copies), i, live);
    assert Owners(Without(hooks, i), copies) == Without(Owners(hooks, copies), i);
  }

  lemma WithoutKeepsStored(hooks: seq<HookEntry>, i: nat, copies: map<u32, Simulation.Placed>, mem: Memory,
                           pristine: Memory)
    requires i < |hooks| && CopiesOk(hooks, copies) && CopiesOk(Without(hooks, i), copies)
    requires Stored(hooks, copies, mem, pristine)
    ensures Stored(Without(hooks, i), copies, mem, pristine)
  {
    hide CopyOk, StoredOk, Without;
    WithoutAt(hooks, i);
    forall j | 0 <= j < |Without(hooks, i)|
      ensures StoredOk(Without(hooks, i)[j], copies, mem, pristine)
    {
      assert StoredOk(hooks[Before(i, j)], copies, mem, pristine);
    }
  }

  lemma WithoutKeepsCode(hooks: seq<HookEntry>, i: nat, mem: Memory, pristine: Memory, code: iset<int>)
    requires i < |hooks| && !hooks[i].isEnabled && CodeOk(hooks, mem, pristine, code)
    ensures CodeOk(Without(hooks, i), mem, pristine, code)
  {
    hide Without, Read, HookEntry.Jump, HookEntry.Covers;
    WithoutAt(hooks, i);
    var rest := Without(hooks, i);
    forall a | Patched(hooks, a)
      ensures Patched(rest, a)
    {
      var j :| 0 <= j < |hooks| && hooks[j].isEnabled && hooks[j].Covers(a);
      assert rest[Behind(i, j)] == hooks[j];
    }
  }

  lemma InsertedAt<T>(s: seq<T>, k: nat, x: T)
    requires k <= |s|
    ensures |Inserted(s, k, x)| == |s| + 1 && Inserted(s, k, x)[k] == x
    ensures forall j :: 0 <= j <= |s| && j != k ==> Inserted(s, k, x)[j] == s[Behind(k, j)]
    ensures forall j :: 0 <= j < |s| ==> Inserted(s, k, x)[Before(k, j)] == s[j]
  {
  }

  /** Recording the copy of one hook leaves the others alone. */
  lemma OtherCopy(g: HookEntry, target: u32, copies: map<u32, Simulation.Placed>, t: Simulation.Placed)
    requires CopyOk(g, copies) && g.target != target
    ensures CopyOk(g, copies[target := t])
    ensures TrampolineOf(g, copies[target := t]) == TrampolineOf(g, copies)
    ensures Text(g, copies[target := t]) == Text(g, copies)
  {
  }

  lemma InsertKeepsRegistered(hooks: seq<HookEntry>, k: nat, h: HookEntry, copies: map<u32, Simulation.Placed>,
                              t: Simulation.Placed, code: iset<int>)
    requires Registered(hooks, copies, code) && k <= |hooks|
    requires forall i :: 0 <= i < |hooks| ==> if i < k then hooks[i].target < h.target else h.target < hooks[i].target
    requires forall i :: 0 <= i < |hooks| ==> RangesApart(hooks[i], h)
    requires EntryOk(h, code) && CopyOk(h, copies[h.target := t])
    ensures Registered(Inserted(hooks, k, h), copies[h.target := t], code)
  {
    hide CopyOk, EntryOk, Inserted, RangesApart;
    InsertedAt(hooks, k, h);
    var more := Inserted(hooks, k, h);
    forall j | 0 <= j < |more|
      ensures CopyOk(more[j], copies[h.target := t]) && EntryOk(more[j], code)
    {
      if j != k {
        var g := hooks[Behind(k, j)];
        assert CopyOk(g, copies) && EntryOk(g, code);
        OtherCopy(g, h.target, copies, t);
      }
    }
    InsertKeepsOrder(hooks, k, h);
  }

  lemma InsertKeepsOrder(hooks: seq<HookEntry>, k: nat, h: HookEntry)
    requires Sorted(hooks) && AllRangesApart(hooks) && k <= |hooks|
    requires forall i :: 0 <= i < |hooks| ==> if i < k then hooks[i].target < h.target else h.target < hooks[i].target
    requires forall i :: 0 <= i < |hooks| ==> RangesApart(hooks[i], h)
    ensures Sorted(Inserted(hooks, k, h)) && AllRangesApart(Inserted(hooks, k, h))
  {
    hide Inserted, RangesApart;
    InsertedAt(hooks, k, h);
    var more := Inserted(hooks, k, h);
    forall i, j | 0 <= i < j < |more|
      ensures RangesApart(more[i], more[j]) && more[i].target < more[j].target
    {
      if i != k && j != k {
        assert RangesApart(hooks[Behind(k, i)], hooks[Behind(k, j)]);
      } else if i == k {
        ApartBothWays(hooks[Behind(k, j)], h);
      }
    }
  }

  lemma ApartBothWays(g: HookEntry, h: HookEntry)
    requires RangesApart(g, h)
    ensures RangesApart(h, g)
  {
  }

  lemma HoldsInserted(pairs: seq<Pair>, k: nat, p: Pair, a: Alloc)
    requires k <= |pairs|
    ensures Holds(Inserted(pairs, k, p), a) <==> Holds(pairs, a) || p.Has(a)
  {
    hide Inserted;
    InsertedAt(pairs, k, p);
    var more := Inserted(pairs, k, p);
    if j :| 0 <= j < |pairs| && pairs[j].Has(a) {
      assert more[Before(k, j)] == pairs[j];
    }
  }

  lemma ApartFromNew(pairs: seq<Pair>, i: nat, p: Pair, live: set<Alloc>)
    requires i < |pairs| && Accounted(pairs, live) && p.backup !in live && p.trampoline !in live
    ensures PairsApart(pairs[i], p) && PairsApart(p, pairs[i])
  {
    hide NoneShared;
    assert Holds(pairs, pairs[i].backup) && Holds(pairs, pairs[i].trampoline);
  }

  lemma NoneSharedInserted(pairs: seq<Pair>, k: nat, p: Pair, live: set<Alloc>)
    requires k <= |pairs| && Accounted(pairs, live) && p.backup !in live && p.trampoline !in live
    requires p.backup != p.trampoline
    ensures NoneShared(Inserted(pairs, k, p))
  {
    hide Inserted, PairsApart, Holds;
    InsertedAt(pairs, k, p);
    var more := Inserted(pairs, k, p);
    assert forall i :: 0 <= i < |more| ==> if i == k then more[i] == p else more[i] == pairs[Behind(k, i)];
    forall i, j | 0 <= i < j < |more|
      ensures PairsApart(more[i], more[j])
    {
      if i != k && j != k {
        assert PairsApart(pairs[Behind(k, i)], pairs[Behind(k, j)]);
      } else {
        ApartFromNew(pairs, Behind(k, if i == k then j else i), p, live);
      }
    }
  }

  lemma AccountedInserted(pairs: seq<Pair>, k: nat, p: Pair, live: set<Alloc>)
    requires k <= |pairs| && Accounted(pairs, live) && p.backup !in live && p.trampoline !in live
    requires p.backup != p.trampoline
    ensures Accounted(Inserted(pairs, k, p), live + {p.backup, p.trampoline})
  {
    hide Inserted, NoneShared, Holds;
    var more := Inserted(pairs, k, p);
    NoneSharedInserted(pairs, k, p, live);
    forall a ensures Holds(more, a) <==> Holds(pairs, a) || p.Has(a) {
      HoldsInserted(pairs, k, p, a);
    }
  }

  lemma InsertKeepsOwned(hooks: seq<HookEntry>, k: nat, h: HookEntry, copies: map<u32, Simulation.Placed>,
                         t: Simulation.Placed, live: set<Alloc>, p: Pair)
    requires k <= |hooks| && CopiesOk(hooks, copies) && Owned(hooks, copies, live)
    requires forall i :: 0 <= i < |hooks| ==> hooks[i].target != h.target
    requires CopyOk(h, copies[h.target := t]) && CopiesOk(Inserted(hooks, k, h), copies[h.target := t])
    requires p == OwnedBy(h, copies[h.target := t])
    requires p.backup !in live && p.trampoline !in live && p.backup != p.trampoline
    ensures Owned(Inserted(hooks, k, h), copies[h.target := t], live + {p.backup, p.trampoline})
  {
    hide CopyOk, Accounted, BackupOf, TrampolineOf, Inserted;
    var hooks', copies' := Inserted(hooks, k, h), copies[h.target := t];
    AccountedInserted(Owners(hooks, copies), k, p, live);
    InsertedAt(hooks, k, h);
    InsertedAt(Owners(hooks, copies), k, p);
    forall i | 0 <= i < |hooks|
      ensures CopyOk(hooks[i], copies') && OwnedBy(hooks[i], copies') == OwnedBy(hooks[i], copies)
    {
      OtherCopy(hooks[i], h.target, copies, t);
    }
    assert Owners(hooks', copies') == Inserted(Owners(hooks, copies), k, p);
  }

  lemma InsertKeepsStored(hooks: seq<HookEntry>, k: nat, h: HookEntry, copies: map<u32, Simulation.Placed>,
                          t: Simulation.Placed, mem: Memory, pristine: Memory)
    requires k <= |hooks| && CopiesOk(hooks, copies) && CopiesOk(Inserted(hooks, k, h), copies[h.target := t])
    requires forall i :: 0 <= i < |hooks| ==> hooks[i].target != h.target
    requires Stored(hooks, copies, mem, pristine)
    requires CopyOk(h, copies[h.target := t]) && StoredOk(h, copies[h.target := t], mem, pristine)
    ensures Stored(Inserted(hooks, k, h), copies[h.target := t], mem, pristine)
  {
    hide CopyOk, Inserted, Text, Read;
    InsertedAt(hooks, k, h);
    forall j | 0 <= j < |hooks| + 1
      ensures StoredOk(Inserted(hooks, k, h)[j], copies[h.target := t], mem, pristine)
    {
      if j != k {
        assert StoredOk(hooks[Behind(k, j)], copies, mem, pristine);
        OtherCopy(hooks[Behind(k, j)], h.target, copies, t);
      }
    }
  }

  lemma InsertKeepsCode(hooks: seq<HookEntry>, k: nat, h: HookEntry, mem: Memory, pristine: Memory, code: iset<int>)
    requires k <= |hooks| && !h.isEnabled && CodeOk(hooks, mem, pristine, code)
    ensures CodeOk(Inserted(hooks, k, h), mem, pristine, code)
  {
    hide Inserted, Read, HookEntry.Jump, HookEntry.Covers;
    InsertedAt(hooks, k, h);
    forall a | Patched(hooks, a)
      ensures Patched(Inserted(hooks, k, h), a)
    {
      var j :| 0 <= j < |hooks| && hooks[j].isEnabled && hooks[j].Covers(a);
      assert Inserted(hooks, k, h)[Before(k, j)] == hooks[j];
    }
  }

  /** A disabled hook's range holds its original bytes. */
  lemma DisabledIsPristine(hooks: seq<HookEntry>, copies: map<u32, Simulation.Placed>, mem: Memory, pristine: Memory,
                           code: iset<int>, i: nat, a: int)
    requires i < |hooks| && !hooks[i].isEnabled && hooks[i].Covers(a)
    requires Registered(hooks, copies, code) && CodeOk(hooks, mem, pristine, code)
    ensures mem(a) == pristine(a)
  {
    hide CopiesOk, Sorted, Read, HookEntry.Jump;
    assert EntryOk(hooks[i], code);
    if j :| 0 <= j < |hooks| && hooks[j].isEnabled && hooks[j].Covers(a) {
      assert if i < j then RangesApart(hooks[i], hooks[j]) else RangesApart(hooks[j], hooks[i]);
    }
  }

  lemma GivenUpKeepsOutside(was: seq<MemoryBlock>, p: int, now: seq<MemoryBlock>, live: set<Alloc>, code: iset<int>)
    requires GivenUp(was, p, now, live) && BlocksOutside(was, code)
    ensures BlocksOutside(now, code)
  {
    hide Freed, Around, Within;
    var i :| 0 <= i < |was| && was[i].fixedCount > 0 && now == Freed(was, i);
    forall b, x | b in now && Around(b, x)
      ensures x !in code
    {
      FreedIs(was, i, b);
      var j :| 0 <= j < |was| && b.address == was[j].address;
      SameAround(b, was[j]);
    }
  }

  /** The hook of a target is gone and its function is what it was. */
  ghost predicate RemovedOne(was: seq<HookEntry>, now: seq<HookEntry>, target: u32, mem: Memory, pristine: Memory) {
    exists i ::
      && 0 <= i < |was| && was[i].target == target && now == Without(was, i)
      && forall a :: was[i].Covers(a) ==> mem(a) == pristine(a)
  }

  lemma TargetOnly(was: seq<HookEntry>, now: seq<HookEntry>, i: nat, target: u32, mem: Memory, pristine: Memory)
    requires i < |was| && (now == was || now == was[i := WithFlags(was[i], false)]) && was[i].target == target
    requires forall a :: now[i].Covers(a) ==> mem(a) == pristine(a)
    ensures RemovedOne(was, Without(now, i), target, mem, pristine)
  {
    assert Without(now, i) == Without(was, i);
    assert forall a :: was[i].Covers(a) ==> now[i].Covers(a);
  }

  // ----- creating a hook -----

  /** A write to a pending buffer. */
  lemma PendingWriteKeepsAll(hooks: seq<HookEntry>, copies: map<u32, Simulation.Placed>, was: Memory, now: Memory,
                             pristine: Memory, code: iset<int>, blocks: seq<MemoryBlock>, live: set<Alloc>,
                             pending: set<Alloc>, a: Alloc)
    requires OnlyIn(was, now, a.address, a.size) && a in pending
    requires Sound(blocks, live, pending) && BlocksOutside(blocks, code)
    requires Registered(hooks, copies, code) && Buffered(hooks, copies, live, was, pristine)
    requires CodeOk(hooks, was, pristine, code)
    ensures Buffered(hooks, copies, live, now, pristine) && CodeOk(hooks, now, pristine, code)
    ensures forall x :: x in code ==> now(x) == was(x)
  {
    hide SpacedOut, AllBlocksOk, Housed, Counts, BlocksOutside, CodeOk, CopiesOk, EntriesOk, AllRangesApart, Sorted,
      Owned, Stored;
    BuffersOutsideCode(blocks, live, pending, code, a);
    forall x | x in live ensures Apart(a, x) {
      LiveIsNotPending(blocks, live, pending, x);
    }
    BufferWriteKeeps(hooks, copies, was, now, pristine, live, a);
    SameCode(hooks, was, now, pristine, code);
  }

  lemma RollbackKeepsOutside(blocks: seq<MemoryBlock>, code: iset<int>)
    requires BlocksOutside(blocks, code)
    ensures BlocksOutside(RolledBack(blocks), code)
  {
    hide RolledBack, Rolled, Around;
    forall b, x | b in RolledBack(blocks) && Around(b, x)
      ensures x !in code
    {
      RolledBackIs(blocks, b);
      var i :| 0 <= i < |blocks| && b in Rolled(blocks[i]);
      RolledFields(blocks[i], b);
      SameAround(b, blocks[i]);
    }
  }

  lemma CommitKeepsOutside(blocks: seq<MemoryBlock>, code: iset<int>)
    requires BlocksOutside(blocks, code)
    ensures BlocksOutside(AllCommitted(blocks), code)
  {
    hide Around;
    forall b, x | b in AllCommitted(blocks) && Around(b, x)
      ensures x !in code
    {
      var i :| 0 <= i < |blocks| && b == blocks[i].Committed();
      SameAround(b, blocks[i]);
    }
  }

  /** What may be reserved: an area apart from all blocks and from code. */
  ghost predicate Reservable(blocks: seq<MemoryBlock>, code: iset<int>, address: u32) {
    address != 0 ==> CanReserve(blocks, address) && OutsideCode(Alloc(address, BLOCK_SIZE), code)
  }

  lemma AllocationKeepsOutside(was: seq<MemoryBlock>, now: seq<MemoryBlock>, code: iset<int>, reserved: u32, other: u32)
    requires BlocksOutside(was, code) && AllBlocksOk(now)
    requires reserved != 0 ==> OutsideCode(Alloc(reserved, BLOCK_SIZE), code)
    requires forall b :: b in now ==> b.address == reserved || b.address in Bases(was)
    requires other != 0 ==> CanReserve(was, other)
    requires other != 0 && reserved != 0 ==> BlocksApart(Fresh(reserved, ReadOnly), Fresh(other, ReadOnly))
    ensures BlocksOutside(now, code) && (other != 0 ==> CanReserve(now, other))
  {
    forall b, x | b in now && Around(b, x)
      ensures x !in code
    {
      assert BlockOk(b);
      if b.address in Bases(was) {
        var c :| c in was && c.address == b.address;
        assert Around(c, x);
      }
    }
    forall b | b in now && other != 0
      ensures BlocksApart(b, Fresh(other, ReadOnly))
    {
      assert BlockOk(b);
      if b.address in Bases(was) {
        var c :| c in was && c.address == b.address;
        assert BlocksApart(c, Fresh(other, ReadOnly));
      }
    }
  }

  lemma CopyIsShort(t: Simulation.Placed)
    requires t.p.Valid() && Built(t.p, t.slots) && t.slots != []
    ensures InCode(t.p, t.slots) && 0 < |t.Bytes()| == |Templates(t.p, t.slots)| == DstEnd(t.slots) < 1000
  {
    hide Faithful, Built;
    BuiltShape(t.p, t.slots);
    TiledEnds(t.p, t.slots);
    BytesTile(t.p, t.slots, t.base);
    Simulation.DstIsNear(t, |t.slots| - 1);
    assert SlotOk(t.p, t.slots[|t.slots| - 1]);
  }

  /** Address x lies in the 64 KB from one of these addresses on. */
  ghost predicate InBlocks(bases: set<u32>, x: int) {
    exists b :: b in bases && b <= x < b + 65536
  }

  ghost predicate OnlyInBlocks(bases: set<u32>, was: Memory, now: Memory) {
    forall x :: now(x) != was(x) ==> InBlocks(bases, x)
  }

  lemma PendingInBlocks(blocks: seq<MemoryBlock>, live: set<Alloc>, pending: set<Alloc>, a: Alloc, was: Memory,
                        now: Memory)
    requires Sound(blocks, live, pending) && a in pending && OnlyIn(was, now, a.address, a.size)
    ensures OnlyInBlocks(Bases(blocks), was, now)
  {
    hide SpacedOut, Counts, AllApart;
    var i := HomeOf(blocks, pending, false, a);
    assert BlockOk(blocks[i]) && blocks[i].address in Bases(blocks);
  }

  lemma UntouchedBlocks(bases: set<u32>, mem: Memory)
    ensures OnlyInBlocks(bases, mem, mem)
  {
  }

  lemma InMoreBlocks(bases: set<u32>, more: set<u32>, was: Memory, now: Memory, later: Memory)
    requires bases <= more && OnlyInBlocks(bases, now, later) && OnlyInBlocks(more, was, now)
    ensures OnlyInBlocks(more, was, later)
  {
  }

  lemma PendingFits(blocks: seq<MemoryBlock>, live: set<Alloc>, pending: set<Alloc>, a: Alloc)
    requires Sound(blocks, live, pending) && a in pending
    ensures a.size > 0 && 0 <= a.address && a.End() <= TWO32
  {
    hide SpacedOut, Counts, AllApart;
    var i := HomeOf(blocks, pending, false, a);
    assert BlockOk(blocks[i]);
  }

  lemma SoundBlocks(blocks: seq<MemoryBlock>, live: set<Alloc>, pending: set<Alloc>)
    requires Sound(blocks, live, pending)
    ensures AllBlocksOk(blocks)
  {
  }

  lemma OverwriteIsOnlyIn(mem: Memory, at: int, bytes: seq<byte>, n: nat)
    requires |bytes| <= n
    ensures OnlyIn(mem, Overwrite(mem, at, bytes), at, n) && Read(Overwrite(mem, at, bytes), at, |bytes|) == bytes
  {
  }

  /** The trampoline lies in the only pending buffer. */
  ghost predicate PlacedAt(t: Simulation.Placed, mem: Memory, live: set<Alloc>, pending: set<Alloc>) {
    && InCode(t.p, t.slots) && 0 < |t.Bytes()| < 1000 && t.base + |t.Bytes()| <= TWO32
    && var a := Alloc(t.base, Rounded(|t.Bytes()|));
    && pending == {a} && a !in live && Read(mem, t.base, |t.Bytes()|) == t.Bytes()
  }

  lemma NothingReserved(blocks: seq<MemoryBlock>, code: iset<int>)
    ensures Reservable(blocks, code, 0)
  {
  }

  /** What the patch of a function covers is code. */
  ghost predicate Hookable(target: u32, above: bool, code: iset<int>) {
    forall a :: PatchFrom(target, above) <= a < target + PatchReach(above) ==> a in code
  }

  /** The patch of a function does not meet the patch of hook g. */
  ghost predicate ClearOf(g: HookEntry, target: u32, above: bool) {
    g.PatchStart() + g.PatchSize() <= PatchFrom(target, above) || target + PatchReach(above) <= g.PatchStart()
  }

  ghost predicate AllClear(hooks: seq<HookEntry>, target: u32, above: bool) {
    forall i :: 0 <= i < |hooks| ==> ClearOf(hooks[i], target, above)
  }

  /** Neither end of the address space is near, and if the function can be patched at
      all, its patch lies in code and meets no other. */
  ghost predicate MayPatch(hooks: seq<HookEntry>, p: Program, above: seq<byte>, aboveExecutable: bool, code: iset<int>)
    requires |p.code| >= 64
  {
    && 5 <= p.target && p.target + 64 <= TWO32
    && forall slots :: Relocated(p, slots) && PatchFits(p, SrcEnd(slots), above, aboveExecutable) ==>
         var far := !LongJumpFits(p, SrcEnd(slots));
         Hookable(p.target, far, code) && AllClear(hooks, p.target, far)
  }

  /** How many bytes the patch covers and the backup holds. */
  function PatchBytes(p: Program, slots: seq<Slot>): nat
    requires |p.code| >= 64
  {
    if LongJumpFits(p, SrcEnd(slots)) then JMP_REL_SIZE else JMP_REL_SIZE + JMP_REL_SHORT_SIZE
  }

  /** There is room for the trampoline and for the backup. */
  ghost predicate RoomFor(p: Program, slots: seq<Slot>, blocks: seq<MemoryBlock>, os: System, os2: System)
    requires |p.code| >= 64
  {
    && 0 < DstEnd(slots) < 1000 && HasRoom(blocks, ExecuteRead, DstEnd(slots), os)
    && HasRoom(blocks, ReadOnly, PatchBytes(p, slots), os2)
  }

  ghost predicate CanStore(p: Program, blocks: seq<MemoryBlock>, os: System, os2: System)
    requires |p.code| >= 64
  {
    exists slots :: Relocated(p, slots) && RoomFor(p, slots, blocks, os, os2)
  }

  lemma RelocationDecides(p: Program, slots: seq<Slot>, blocks: seq<MemoryBlock>, os: System, os2: System)
    requires |p.code| >= 64 && Built(p, slots) && Finished(p, slots)
    ensures CanStore(p, blocks, os, os2) <==> RoomFor(p, slots, blocks, os, os2)
  {
    hide Built, Finished, RoomFor;
    assert Relocated(p, slots);
    if other :| Relocated(p, other) && RoomFor(p, other, blocks, os, os2) {
      StopsAt(p, slots, other);
    }
  }

  /** Only blocks of its kind matter to a request. */
  lemma SameRoom(was: seq<MemoryBlock>, now: seq<MemoryBlock>, protect: Protect, size: u32, os: System)
    requires 0 < size <= TWO32 - ALIGNMENT
    requires forall b: MemoryBlock :: b.protect == protect ==> (b in now <==> b in was)
    ensures HasRoom(now, protect, size, os) <==> HasRoom(was, protect, size, os)
  {
    hide Rounded;
    var capacity := Rounded(size);
    assert SomeFits(now, protect, capacity) <==> SomeFits(was, protect, capacity);
  }

  ghost predicate HasHook(hooks: seq<HookEntry>, target: u32) {
    exists i :: 0 <= i < |hooks| && hooks[i].target == target
  }

  /** What creating a hook answers. */
  ghost function CreateStatus(initialized: bool, hooks: seq<HookEntry>, p: Program, above: seq<byte>, detour: u32,
                              executable: int -> bool, blocks: seq<MemoryBlock>, os: System, os2: System): Status
    requires |p.code| >= 64
  {
    if !initialized then NotInitialized
    else if HasHook(hooks, p.target) then AlreadyCreated
    else if !executable(p.target) || !executable(detour) then NotExecutable
    else if !CanRelocate(p, above, executable(p.target - JMP_REL_SIZE)) then UnsupportedFunction
    else if !CanStore(p, blocks, os, os2) then MemoryAlloc
    else Done
  }

  /** Why a function is not hooked: an instruction is refused before the function is
      complete, or it is too short for the patch; or the trampoline or the backup finds no
      block with room and none can be had. */
  lemma StatusExactly(initialized: bool, hooks: seq<HookEntry>, p: Program, above: seq<byte>, detour: u32,
                      executable: int -> bool, blocks: seq<MemoryBlock>, os: System, os2: System)
    requires p.Valid() && |above| == 5
    ensures var s := CreateStatus(initialized, hooks, p, above, detour, executable, blocks, os, os2);
      var mayBuild := initialized && !HasHook(hooks, p.target) && executable(p.target) && executable(detour);
      var aboveToo := executable(p.target - 5);
      && (s == UnsupportedFunction <==>
            mayBuild && ((exists slots :: StuckAt(p, slots))
                         || exists slots :: CrampedAt(p, slots, above, aboveToo)))
      && (s == Done <==>
            mayBuild && CanRelocate(p, above, aboveToo)
            && exists slots :: Relocated(p, slots) && RoomExactly(p, slots, blocks, os, os2))
  {
    hide CanRelocate, HasHook, StuckAt, CrampedAt, RoomFor, RoomExactly, Relocated;
    UnsupportedExactly(p, above, executable(p.target - 5));
    forall slots
      ensures RoomFor(p, slots, blocks, os, os2) <==> RoomExactly(p, slots, blocks, os, os2)
    {
      RoomForExactly(p, slots, blocks, os, os2);
    }
  }

  /** Both buffers can be had: the trampoline in an executable block, and 5 or 7 bytes of
      backup in a readable one. */
  ghost predicate RoomExactly(p: Program, slots: seq<Slot>, blocks: seq<MemoryBlock>, os: System, os2: System)
    requires |p.code| >= 64
  {
    && 0 < DstEnd(slots) < 1000
    && os.commits && os.protects && (os.reserved != 0 || !AllFull(blocks, ExecuteRead, Rounded(DstEnd(slots))))
    && os2.commits && os2.protects && (os2.reserved != 0 || !AllFull(blocks, ReadOnly, 8))
  }

  lemma RoomForExactly(p: Program, slots: seq<Slot>, blocks: seq<MemoryBlock>, os: System, os2: System)
    requires |p.code| >= 64
    ensures RoomFor(p, slots, blocks, os, os2) <==> RoomExactly(p, slots, blocks, os, os2)
  {
    hide AllFull, HasRoom, LongJumpFits, DstEnd;
    if 0 < DstEnd(slots) < 1000 {
      HasRoomExactly(blocks, ExecuteRead, DstEnd(slots), os);
    }
    HasRoomExactly(blocks, ReadOnly, PatchBytes(p, slots), os2);
  }

  /** A disabled hook was entered, with the copy of the code as it was. */
  ghost predicate CreatedOne(was: seq<HookEntry>, now: seq<HookEntry>, copies: map<u32, Simulation.Placed>,
                             target: u32, detour: u32, p: Program, original: u32)
  {
    exists k ::
      && 0 <= k <= |was| && k < |now| && now == Inserted(was, k, now[k])
      && now[k].target == target && now[k].detour == detour && now[k].trampoline == original
      && !now[k].isEnabled && !now[k].queueEnable && CopyOk(now[k], copies) && copies[target].p == p
  }

  /** The entry of a new hook. */
  lemma NewEntryOk(h: HookEntry, t: Simulation.Placed, copies: map<u32, Simulation.Placed>, code: iset<int>,
                   hooks: seq<HookEntry>, mem: Memory, live: set<Alloc>, pending: set<Alloc>)
    requires 5 <= h.target && Hookable(h.target, h.patchAbove, code) && h.oldIPs != [] && |h.newIPs| == |h.oldIPs|
    requires t.p.Valid() && t.p.target == h.target && t.base == h.trampoline && Built(t.p, t.slots)
    requires Finished(t.p, t.slots)
    requires PlacedAt(t, mem, live, pending) && h.patchAbove == !LongJumpFits(t.p, SrcEnd(t.slots))
    requires PointersOk(h.oldIPs, h.newIPs, t, h.patchAbove)
    requires AllClear(hooks, h.target, h.patchAbove)
    ensures EntryOk(h, code) && CopyOk(h, copies[h.target := t]) && TrampolineOf(h, copies[h.target := t]) in pending
    ensures forall i :: 0 <= i < |hooks| ==> RangesApart(hooks[i], h)
    ensures Text(h, copies[h.target := t]) == t.Bytes()
  {
    hide Faithful, Built, Finished, Read, AllResolved, LongJumpFits;
  }

  /** The code that a new patch is to cover. */
  lemma WindowIsPristine(hooks: seq<HookEntry>, mem: Memory, pristine: Memory, code: iset<int>, target: u32,
                         above: bool)
    requires CodeOk(hooks, mem, pristine, code) && Hookable(target, above, code) && AllClear(hooks, target, above)
    ensures above ==>
      Read(mem, target - JMP_REL_SIZE, JMP_REL_SIZE) == Read(pristine, target - JMP_REL_SIZE, JMP_REL_SIZE)
    ensures Read(mem, target, 64)[..PatchReach(above)] == Read(pristine, target, PatchReach(above))
  {
    hide HookEntry.Jump;
    forall a | PatchFrom(target, above) <= a < target + PatchReach(above)
      ensures mem(a) == pristine(a)
    {
      assert !Patched(hooks, a);
    }
  }

  /** The bytes above matter only if the jump goes there. */
  lemma PatchFitsAbove(p: Program, end: nat, above: seq<byte>, aboveExecutable: bool, other: seq<byte>)
    requires |p.code| >= 64 && PatchFits(p, end, above, aboveExecutable)
    requires !LongJumpFits(p, end) ==> other == above
    ensures PatchFits(p, end, other, true)
  {
  }

  /** A range apart from all hooks holds original bytes. */
  lemma ClearIsPristine(hooks: seq<HookEntry>, mem: Memory, mem': Memory, pristine: Memory, code: iset<int>,
                        h: HookEntry)
    requires CodeOk(hooks, mem, pristine, code) && forall x :: x in code ==> mem'(x) == mem(x)
    requires EntryOk(h, code) && forall i :: 0 <= i < |hooks| ==> RangesApart(hooks[i], h)
    ensures Read(mem', h.PatchStart(), h.PatchSize()) == Read(pristine, h.PatchStart(), h.PatchSize())
  {
    hide HookEntry.Jump;
    var here, original := Read(mem', h.PatchStart(), h.PatchSize()), Read(pristine, h.PatchStart(), h.PatchSize());
    forall k | 0 <= k < |here|
      ensures here[k] == original[k]
    {
      var a := h.PatchStart() + k;
      assert h.Covers(a);
      forall i | 0 <= i < |hooks| ensures !hooks[i].Covers(a) {
        assert RangesApart(hooks[i], h);
      }
    }
  }

  /** The two buffers of a new hook hold what they should. */
  lemma NewIsStored(h: HookEntry, t: Simulation.Placed, copies: map<u32, Simulation.Placed>, filled: Memory,
                    mem: Memory, pristine: Memory, live: set<Alloc>, area: set<Alloc>)
    requires CopyOk(h, copies[h.target := t]) && PlacedAt(t, filled, live, area) && t.base == h.trampoline
    requires forall x :: x in area ==> Apart(BackupOf(h), x)
    requires OnlyIn(filled, mem, h.backup, BackupOf(h).size)
    requires Read(mem, h.backup, h.PatchSize()) == Read(filled, h.PatchStart(), h.PatchSize())
    requires Read(filled, h.PatchStart(), h.PatchSize()) == Read(pristine, h.PatchStart(), h.PatchSize())
    requires PatchOk(h, copies[h.target := t], pristine)
    ensures StoredOk(h, copies[h.target := t], mem, pristine)
    ensures area == {TrampolineOf(h, copies[h.target := t])} && BackupOf(h) !in area
  {
    hide Faithful, Built, Finished, Read, AllResolved, OnlyIn, PatchOk, LongJumpFits;
    var a := Alloc(t.base, Rounded(|t.Bytes()|));
    assert a in area;
    ReadElsewhere(filled, mem, h.backup, BackupOf(h).size, t.base, |t.Bytes()|);
  }

  lemma EnteredIsCreated(was: seq<HookEntry>, now: seq<HookEntry>, h: HookEntry, t: Simulation.Placed,
                         copies: map<u32, Simulation.Placed>)
    requires exists k :: 0 <= k <= |was| && now == Inserted(was, k, h)
    requires !h.isEnabled && !h.queueEnable && CopyOk(h, copies[h.target := t])
    ensures CreatedOne(was, now, copies[h.target := t], h.target, h.detour, t.p, h.trampoline)
  {
    hide CopyOk, Inserted;
    var k :| 0 <= k <= |was| && now == Inserted(was, k, h);
    InsertedAt(was, k, h);
  }

  /** With no hook enabled, the code is what it was. */
  lemma AllDisabledRestores(was: seq<HookEntry>, hooks: seq<HookEntry>, writable: nat -> bool, mem: Memory,
                            pristine: Memory, code: iset<int>)
    requires SwitchedWhilePossible(was, hooks, Never, writable, Done) && CodeOk(hooks, mem, pristine, code)
    ensures forall x :: x in code ==> mem(x) == pristine(x)
  {
    assert forall x :: !Patched(hooks, x);
  }

  lemma NothingHooked(copies: map<u32, Simulation.Placed>, mem: Memory, pristine: Memory, code: iset<int>)
    requires forall x :: x in code ==> mem(x) == pristine(x)
    ensures Registered([], copies, code) && Buffered([], copies, {}, mem, pristine) && CodeOk([], mem, pristine, code)
    ensures BlocksOutside([], code)
  {
  }

  class HookManager {
    const dis: seq<byte> -> Inst
    const buffers: Buffers
    ghost const code: iset<int>
    ghost const pristine: Memory
    var mem: Memory
    var initialized: bool
    var hooks: seq<HookEntry>
    ghost var copies: map<u32, Simulation.Placed>

    /** What holds even while buffers are pending. */
    ghost predicate Steady()
      reads this, buffers
    {
      && Faithful(dis) && buffers.Valid() && BlocksOutside(buffers.blocks, code)
      && (!initialized ==> hooks == [])
      && Registered(hooks, copies, code) && Buffered(hooks, copies, buffers.live, mem, pristine)
      && CodeOk(hooks, mem, pristine, code)
    }

    ghost predicate Valid()
      reads this, buffers
    {
      Steady() && buffers.pending == {}
    }

    constructor (dis: seq<byte> -> Inst, mem: Memory, ghost code: iset<int>)
      requires Faithful(dis)
      ensures Valid() && !initialized && this.mem == mem && pristine == mem && this.code == code && fresh(buffers)
    {
      this.dis, this.mem, this.code, this.pristine := dis, mem, code, mem;
      buffers := new Buffers();
      initialized, hooks, copies := false, [], map[];
    }

    method Initialize() returns (s: Status)
      requires Valid()
      modifies `initialized
      ensures Valid() && initialized && s == if old(initialized) then AlreadyInitialized else Done
    {
      if initialized {
        return AlreadyInitialized;
      }
      initialized := true;
      return Done;
    }

    /** The first position whose target is not below the one sought. */
    method LowerBound(target: u32) returns (r: nat)
      requires Sorted(hooks)
      ensures r <= |hooks|
      ensures forall i :: 0 <= i < r ==> hooks[i].target < target
      ensures forall i :: r <= i < |hooks| ==> target <= hooks[i].target
    {
      var first: nat, count: nat := 0, |hooks|;
      while count > 0
        invariant first + count <= |hooks|
        invariant forall i :: 0 <= i < first ==> hooks[i].target < target
        invariant forall i :: first + count <= i < |hooks| ==> target <= hooks[i].target
      {
        var step := count / 2;
        if hooks[first + step].target < target {
          first, count := first + step + 1, count - (step + 1);
        } else {
          count := step;
        }
      }
      r := first;
    }

    /** Binary search finds the hook of a target exactly when there is one. */
    method FindHook(target: u32) returns (r: Option<nat>)
      requires Sorted(hooks)
      ensures r.Some? ==> r.value < |hooks| && hooks[r.value].target == target
      ensures r.None? ==> forall i :: 0 <= i < |hooks| ==> hooks[i].target != target
    {
      var i := LowerBound(target);
      if i < |hooks| && hooks[i].target == target {
        return Some(i);
      }
      return None;
    }

    /** Writes the jump over the function. */
    method EnableHookLL(i: nat, writable: bool) returns (s: Status)
      requires Valid() && i < |hooks|
      modifies `mem, `hooks
      ensures Valid() && s == if writable then Done else MemoryProtect
      ensures s != Done ==> mem == old(mem) && hooks == old(hooks)
      ensures s == Done ==> hooks == old(hooks)[i := WithFlags(old(hooks)[i], true)]
      ensures forall a :: !old(hooks)[i].Covers(a) ==> mem(a) == old(mem)(a)
    {
      hide Registered, Buffered, CodeOk, Overwrite, Sound, Faithful, BlocksOutside, WriteLE32;
      var hook := hooks[i];
      if !writable {
        return MemoryProtect;
      }
      mem := Overwrite(mem, hook.PatchStart(), RelativeJump(hook.PatchStart(), hook.detour));
      if hook.patchAbove {
        mem := Overwrite(mem, hook.target, [0xEB, 0xF9]);
      }
      hook := hook.(isEnabled := true, queueEnable := true);
      assert WithFlags(hooks[i], true) == hook;
      JumpInTwoWrites(old(mem), hooks[i], mem);
      SwitchKeepsAll(hooks, copies, old(mem), mem, pristine, code, buffers.blocks, buffers.live, i, true);
      hooks := hooks[i := hook];
      s := Done;
    }

    /** Puts the original bytes back. */
    method DisableHookLL(i: nat, writable: bool) returns (s: Status)
      requires Valid() && i < |hooks|
      modifies `mem, `hooks
      ensures Valid() && s == if writable then Done else MemoryProtect
      ensures s != Done ==> mem == old(mem) && hooks == old(hooks)
      ensures s == Done ==> hooks == old(hooks)[i := WithFlags(old(hooks)[i], false)]
      ensures forall a :: !old(hooks)[i].Covers(a) ==> mem(a) == old(mem)(a)
    {
      hide Sorted, AllRangesApart, EntriesOk, CopiesOk, Buffered, CodeOk, Sound, Faithful, BlocksOutside, Read,
        Overwrite;
      var hook := hooks[i];
      if !writable {
        return MemoryProtect;
      }
      var backup := Read(mem, hook.backup, hook.PatchSize());
      mem := Overwrite(mem, hook.PatchStart(), backup);
      hook := hook.(isEnabled := false, queueEnable := false);
      assert WithFlags(hooks[i], false) == hook;
      BackupIsPristine(hooks, copies, buffers.live, old(mem), pristine, i);
      BackupRestored(old(mem), hooks[i], mem, backup);
      SwitchKeepsAll(hooks, copies, old(mem), mem, pristine, code, buffers.blocks, buffers.live, i, false);
      hooks := hooks[i := hook];
      s := Done;
    }

    /** The instruction pointers to move before hooks are switched; there are some
        exactly if some hook is to be switched. */
    method MovedIPs(want: HookEntry -> bool) returns (from: seq<nat>, to: seq<nat>)
      requires EntriesOk(hooks, code)
      ensures Collected(hooks, want, |hooks|, from, to)
      ensures from == [] <==> forall i :: 0 <= i < |hooks| ==> hooks[i].isEnabled == want(hooks[i])
    {
      hide Collected;
      from, to := [], [];
      assert Collected(hooks, want, 0, from, to) by { NothingCollected(hooks, want); }
      for i := 0 to |hooks|
        invariant |from| == |to| && Collected(hooks, want, i, from, to)
        invariant from == [] <==> forall j :: 0 <= j < i ==> hooks[j].isEnabled == want(hooks[j])
      {
        var hook := hooks[i];
        assert EntryOk(hook, code);
        ghost var from0, to0 := from, to;
        if hook.isEnabled != want(hook) {
          if want(hook) {
            from, to := from + hook.oldIPs, to + hook.newIPs;
          } else {
            from, to := from + hook.newIPs, to + hook.oldIPs;
          }
        }
        MoreCollected(hooks, want, i, from0, to0, from, to);
      }
    }

    /** The loop behind ApplyQueued and switching all hooks on or off. */
    method SwitchHooks(want: HookEntry -> bool, writable: nat -> bool) returns (s: Status)
      requires Valid()
      modifies `mem, `hooks
      ensures Valid() && SwitchedWhilePossible(old(hooks), hooks, want, writable, s)
      ensures OnlyUnder(old(hooks), old(mem), mem)
    {
      hide Sorted, AllRangesApart, EntriesOk, CopiesOk, Buffered, CodeOk, Sound, Faithful, BlocksOutside, Switched,
        OnlyUnder;
      assert OnlyUnder(hooks, mem, mem) by { NothingChanged(hooks, mem); }
      var from, to := MovedIPs(want);
      ghost var was := hooks;
      NoneSwitched(was, want);
      if from != [] {
        for i := 0 to |hooks|
          invariant Valid() && |hooks| == |was| && hooks == Switched(was, want, i)
          invariant OnlyUnder(was, old(mem), mem)
          invariant forall j :: 0 <= j < i && was[j].isEnabled != want(was[j]) ==> writable(j)
        {
          OneSwitched(was, want, i);
          var hook := hooks[i];
          if hook.isEnabled != want(hook) {
            ghost var before := mem;
            if want(hook) {
              s := EnableHookLL(i, writable(i));
            } else {
              s := DisableHookLL(i, writable(i));
            }
            OneMoreUnder(was, old(mem), before, mem, i, hook);
            if s != Done {
              return;
            }
          }
        }
      }
      s := Done;
    }

    method EnableAllHooksLL(writable: nat -> bool) returns (s: Status)
      requires Valid()
      modifies `mem, `hooks
      ensures Valid() && SwitchedWhilePossible(old(hooks), hooks, Always, writable, s)
      ensures s == Done ==> forall i :: 0 <= i < |hooks| ==> hooks[i].isEnabled == true
      ensures OnlyUnder(old(hooks), old(mem), mem)
    {
      s := SwitchHooks(Always, writable);
      if s == Done {
        AllAsWanted(old(hooks), hooks, Always, writable);
      }
    }

    method DisableAllHooksLL(writable: nat -> bool) returns (s: Status)
      requires Valid()
      modifies `mem, `hooks
      ensures Valid() && SwitchedWhilePossible(old(hooks), hooks, Never, writable, s)
      ensures s == Done ==> forall i :: 0 <= i < |hooks| ==> hooks[i].isEnabled == false
      ensures OnlyUnder(old(hooks), old(mem), mem)
    {
      s := SwitchHooks(Never, writable);
      if s == Done {
        AllAsWanted(old(hooks), hooks, Never, writable);
      }
    }

    /** On success every hook is as it was queued. */
    method ApplyQueued(writable: nat -> bool) returns (s: Status)
      requires Valid()
      modifies `mem, `hooks
      ensures Valid() && (s == NotInitialized <==> !initialized)
      ensures s == NotInitialized ==> hooks == old(hooks) && mem == old(mem)
      ensures s != NotInitialized ==> SwitchedWhilePossible(old(hooks), hooks, Queued, writable, s)
      ensures OnlyUnder(old(hooks), old(mem), mem)
      ensures s == Done ==> forall i :: 0 <= i < |hooks| ==> hooks[i].isEnabled == hooks[i].queueEnable
    {
      hide Sorted, AllRangesApart, EntriesOk, CopiesOk, Buffered, CodeOk, Sound, Faithful, BlocksOutside,
        SwitchedWhilePossible;
      if !initialized {
        return NotInitialized;
      }
      s := SwitchHooks(Queued, writable);
      NeverSaysUninitialized(old(hooks), hooks, Queued, writable, s);
      if s == Done {
        QueueSettled(old(hooks), hooks, writable);
      }
    }

    method EnableHook(target: u32, writable: nat -> bool) returns (s: Status)
      requires Valid()
      modifies `mem, `hooks
      ensures Valid()
      ensures s in {NotInitialized, NotCreated, IsEnabled} ==> hooks == old(hooks) && mem == old(mem)
      ensures s == NotInitialized <==> !initialized
      ensures initialized && target == 0 ==> SwitchedWhilePossible(old(hooks), hooks, Always, writable, s)
      ensures initialized && target == 0 && s == Done ==> forall i :: 0 <= i < |hooks| ==> hooks[i].isEnabled == true
      ensures if target == 0 then OnlyUnder(old(hooks), old(mem), mem)
              else OnlyUnderOne(old(hooks), target, old(mem), mem)
      ensures initialized && target != 0 ==> SwitchedOne(old(hooks), hooks, target, true, writable, s)
    {
      hide Sorted, AllRangesApart, EntriesOk, CopiesOk, Buffered, CodeOk, Sound, Faithful, BlocksOutside;
      if !initialized {
        return NotInitialized;
      }
      if target == ALL_HOOKS {
        s := EnableAllHooksLL(writable);
        return;
      }
      var r := FindHook(target);
      if r.None? {
        return NotCreated;
      }
      if hooks[r.value].isEnabled {
        return IsEnabled;
      }
      s := EnableHookLL(r.value, writable(r.value));
      UnderOne(old(hooks), target, old(mem), mem, r.value);
    }

    method DisableHook(target: u32, writable: nat -> bool) returns (s: Status)
      requires Valid()
      modifies `mem, `hooks
      ensures Valid()
      ensures s in {NotInitialized, NotCreated, IsDisabled} ==> hooks == old(hooks) && mem == old(mem)
      ensures s == NotInitialized <==> !initialized
      ensures initialized && target == 0 ==> SwitchedWhilePossible(old(hooks), hooks, Never, writable, s)
      ensures initialized && target == 0 && s == Done ==> forall i :: 0 <= i < |hooks| ==> hooks[i].isEnabled == false
      ensures if target == 0 then OnlyUnder(old(hooks), old(mem), mem)
              else OnlyUnderOne(old(hooks), target, old(mem), mem)
      ensures initialized && target != 0 ==> SwitchedOne(old(hooks), hooks, target, false, writable, s)
    {
      hide Sorted, AllRangesApart, EntriesOk, CopiesOk, Buffered, CodeOk, Sound, Faithful, BlocksOutside;
      if !initialized {
        return NotInitialized;
      }
      if target == ALL_HOOKS {
        s := DisableAllHooksLL(writable);
        return;
      }
      var r := FindHook(target);
      if r.None? {
        return NotCreated;
      }
      if !hooks[r.value].isEnabled {
        return IsDisabled;
      }
      s := DisableHookLL(r.value, writable(r.value));
      UnderOne(old(hooks), target, old(mem), mem, r.value);
    }

    /** Queues a hook, or all of them, to be switched on or off. */
    method QueueHook(target: u32, on: bool) returns (s: Status)
      requires Valid()
      modifies `hooks
      ensures s == NotInitialized <==> !initialized
      ensures if initialized then QueuedOn(old(hooks), hooks, target, on, s) else hooks == old(hooks)
      ensures Valid()
    {
      hide AllRangesApart, EntriesOk, CopiesOk, Buffered, CodeOk, Sound, Faithful, BlocksOutside, Registered;
      if !initialized {
        return NotInitialized;
      }
      ghost var was := hooks;
      if target == ALL_HOOKS {
        for i := 0 to |hooks|
          invariant |hooks| == |was|
          invariant forall j :: 0 <= j < |was| ==> hooks[j] == if j < i then was[j].(queueEnable := on) else was[j]
        {
          hooks := hooks[i := hooks[i].(queueEnable := on)];
        }
      } else {
        RegisteredIsSorted(hooks, copies, code);
        var r := FindHook(target);
        if r.None? {
          return NotCreated;
        }
        hooks := hooks[r.value := hooks[r.value].(queueEnable := on)];
      }
      QueueKeepsAll(was, hooks, copies, buffers.live, mem, pristine, code);
      s := Done;
    }

    method Release(p: u32, ghost a: Alloc)
      requires buffers.Valid() && buffers.pending == {} && a in buffers.live && a.address == p
      requires BlocksOutside(buffers.blocks, code)
      modifies buffers
      ensures buffers.Valid() && buffers.pending == {} && buffers.live == old(buffers.live) - {a}
      ensures BlocksOutside(buffers.blocks, code)
    {
      hide Sound, BlocksOutside, GivenUp, Around;
      NothingUncommitted(buffers.blocks, buffers.live);
      forall b | b in buffers.live && b.address == p ensures b == a {
        OneAddress(buffers.blocks, buffers.live, {}, a, b);
      }
      ghost var was := buffers.blocks;
      buffers.FreeBuffer(p);
      GivenUpKeepsOutside(was, p, buffers.blocks, buffers.live, code);
    }

    method RemoveHook(target: u32, writable: bool) returns (s: Status)
      requires Valid()
      modifies `mem, `hooks, buffers
      ensures s != Done ==> hooks == old(hooks) && mem == old(mem) && buffers.live == old(buffers.live)
      ensures s == NotInitialized <==> !initialized
      ensures s == NotCreated <==> initialized && forall i :: 0 <= i < |old(hooks)| ==> old(hooks)[i].target != target
      ensures s == Done ==> RemovedOne(old(hooks), hooks, target, mem, pristine)
      ensures OnlyUnderOne(old(hooks), target, old(mem), mem)
      ensures s == MemoryProtect <==>
        initialized && !writable
        && exists i :: 0 <= i < |old(hooks)| && old(hooks)[i].target == target && old(hooks)[i].isEnabled
      ensures s in {NotInitialized, NotCreated, MemoryProtect, Done}
      ensures Valid()
    {
      hide AllRangesApart, EntriesOk, CopiesOk, CodeOk, Sound, Faithful, BlocksOutside, Owned, Stored, CopyOk;
      if !initialized {
        return NotInitialized;
      }
      var i := LowerBound(target);
      if i == |hooks| || hooks[i].target != target {
        return NotCreated;
      }
      if hooks[i].isEnabled {
        s := DisableHookLL(i, writable);
        if s != Done {
          return;
        }
      }
      UnderOne(old(hooks), target, old(mem), mem, i);
      ghost var was, live := hooks, buffers.live;
      var hook := hooks[i];
      OwnsLive(hooks, copies, live, i);
      Release(hook.trampoline, TrampolineOf(hook, copies));
      Release(hook.backup, BackupOf(hook));
      hooks := hooks[..i] + hooks[i + 1..];
      forall a | was[i].Covers(a) ensures mem(a) == pristine(a) {
        DisabledIsPristine(was, copies, mem, pristine, code, i, a);
      }
      TargetOnly(old(hooks), was, i, target, mem, pristine);
      WithoutKeepsRegistered(was, i, copies, code);
      WithoutKeepsOwned(was, i, copies, live);
      assert buffers.live == live - {BackupOf(hook), TrampolineOf(hook, copies)};
      WithoutKeepsStored(was, i, copies, mem, pristine);
      WithoutKeepsCode(was, i, mem, pristine, code);
      s := Done;
    }

    /** A new pending buffer. */
    method Allocate(protect: Protect, size: nat, os: System, ghost other: u32) returns (p: Option<u32>)
      requires Steady() && 0 < size < 1000
      requires Reservable(buffers.blocks, code, os.reserved) && Reservable(buffers.blocks, code, other)
      requires os.reserved != 0 && other != 0 ==> BlocksApart(Fresh(os.reserved, ReadOnly), Fresh(other, ReadOnly))
      modifies buffers
      ensures p.None? ==> buffers.pending == old(buffers.pending)
      ensures p.Some? ==> var a := Alloc(p.value, Rounded(size));
        && buffers.pending == old(buffers.pending) + {a} && p.value + size <= TWO32
        && a !in buffers.live && forall x :: x in old(buffers.pending) ==> Apart(a, x)
      ensures p.Some? <==> HasRoom(old(buffers.blocks), protect, size, os)
      ensures forall b: MemoryBlock :: b.protect != protect ==> (b in buffers.blocks <==> b in old(buffers.blocks))
      ensures buffers.live == old(buffers.live) && Reservable(buffers.blocks, code, other)
      ensures Bases(buffers.blocks) <= Bases(old(buffers.blocks)) + {os.reserved}
      ensures Steady()
    {
      hide Sound, BlocksOutside, CanReserve, BlocksApart, OutsideCode, AllBlocksOk, Registered, Buffered, CodeOk,
        Faithful, HasRoom, NoneIdle, SomeFits;
      ghost var was := buffers.blocks;
      p := buffers.AllocateBuffer(protect, size, os);
      SoundBlocks(buffers.blocks, buffers.live, buffers.pending);
      AllocationKeepsOutside(was, buffers.blocks, code, os.reserved, other);
      if p.Some? {
        PendingFits(buffers.blocks, buffers.live, buffers.pending, Alloc(p.value, Rounded(size)));
      }
    }

    method Rollback()
      requires Steady()
      modifies buffers
      ensures buffers.live == old(buffers.live)
      ensures Valid()
    {
      hide Sound, BlocksOutside, Registered, Buffered, CodeOk, Faithful;
      RollbackKeepsOutside(buffers.blocks, code);
      buffers.RollbackBuffer();
    }

    /** Copies bytes into a pending buffer. */
    method Fill(a: u32, bytes: seq<byte>)
      requires Steady() && 0 < |bytes| < 1000 && Alloc(a, Rounded(|bytes|)) in buffers.pending
      modifies `mem
      ensures OnlyIn(old(mem), mem, a, Rounded(|bytes|)) && Read(mem, a, |bytes|) == bytes
      ensures OnlyInBlocks(Bases(buffers.blocks), old(mem), mem)
      ensures forall x :: x in code ==> mem(x) == old(mem)(x)
      ensures Steady()
    {
      hide Sound, BlocksOutside, CopiesOk, Sorted, AllRangesApart, EntriesOk, Buffered, CodeOk, Overwrite, Read,
        OnlyIn, Faithful, OnlyInBlocks;
      OverwriteIsOnlyIn(mem, a, bytes, Rounded(|bytes|));
      mem := Overwrite(mem, a, bytes);
      PendingInBlocks(buffers.blocks, buffers.live, buffers.pending, Alloc(a, Rounded(|bytes|)), old(mem), mem);
      PendingWriteKeepsAll(hooks, copies, old(mem), mem, pristine, code, buffers.blocks, buffers.live, buffers.pending,
                           Alloc(a, Rounded(|bytes|)));
    }

    /** Allocates and fills the trampoline. */
    method PlaceTrampoline(ct: CreateTrampoline, os: System, ghost other: u32) returns (r: Option<u32>)
      requires ct.p.Valid() && Built(ct.p, ct.slots) && Finished(ct.p, ct.slots) && ct.Reflects()
      requires Valid() && Reservable(buffers.blocks, code, os.reserved) && Reservable(buffers.blocks, code, other)
      requires os.reserved != 0 && other != 0 ==> BlocksApart(Fresh(os.reserved, ReadOnly), Fresh(other, ReadOnly))
      modifies `mem, buffers, ct`trampoline, ct`oldIPs, ct`newIPs
      ensures InCode(ct.p, ct.slots) && forall x :: x in code ==> mem(x) == old(mem)(x)
      ensures OnlyInBlocks(Bases(old(buffers.blocks)) + {os.reserved}, old(mem), mem)
      ensures Bases(buffers.blocks) <= Bases(old(buffers.blocks)) + {os.reserved}
      ensures r.None? ==> buffers.pending == {}
      ensures r.Some? ==> PlacedAt(Simulation.Placed(ct.p, ct.slots, r.value), mem, buffers.live, buffers.pending)
      ensures r.Some? ==> |ct.oldIPs| == |ct.newIPs| > 0
      ensures r.Some? ==>
        PointersOk(ct.oldIPs, ct.newIPs, Simulation.Placed(ct.p, ct.slots, r.value), ct.patchAbove)
      ensures 0 < DstEnd(ct.slots) < 1000
      ensures r.Some? <==> HasRoom(old(buffers.blocks), ExecuteRead, DstEnd(ct.slots), os)
      ensures forall b: MemoryBlock :: b.protect != ExecuteRead ==> (b in buffers.blocks <==> b in old(buffers.blocks))
      ensures buffers.live == old(buffers.live) && Reservable(buffers.blocks, code, other)
      ensures Steady()
    {
      hide Faithful, Built, InCode, Templates, AllResolved, TempAddrs, Sources, Destinations, Steady, Reservable,
        BlocksApart, Read, OnlyIn, HasRoom, OnlyInBlocks, Bases;
      UntouchedBlocks(Bases(buffers.blocks) + {os.reserved}, mem);
      CopyIsShort(Simulation.Placed(ct.p, ct.slots, 0));
      r := Allocate(ExecuteRead, |ct.trampoline|, os, other);
      if r.None? {
        return;
      }
      CopyIsShort(Simulation.Placed(ct.p, ct.slots, r.value));
      var ok := ct.ResolveTemporaryAddresses(r.value);
      Fill(r.value, ct.trampoline);
      InMoreBlocks(Bases(buffers.blocks), Bases(old(buffers.blocks)) + {os.reserved}, old(mem), old(mem), mem);
    }

    /** Allocates a buffer and saves the bytes about to be overwritten. */
    method PlaceBackup(patch: int, size: nat, os: System) returns (r: Option<u32>)
      requires Steady() && 0 < size < 1000 && Reservable(buffers.blocks, code, os.reserved)
      modifies `mem, buffers
      ensures forall x :: x in code ==> mem(x) == old(mem)(x)
      ensures r.None? ==> buffers.pending == old(buffers.pending) && mem == old(mem)
      ensures OnlyInBlocks(Bases(old(buffers.blocks)) + {os.reserved}, old(mem), mem)
      ensures r.Some? ==> var a := Alloc(r.value, Rounded(size));
        && buffers.pending == old(buffers.pending) + {a} && a !in buffers.live
        && (forall x :: x in old(buffers.pending) ==> Apart(a, x))
        && OnlyIn(old(mem), mem, a.address, a.size) && Read(mem, a.address, size) == Read(old(mem), patch, size)
      ensures r.Some? <==> HasRoom(old(buffers.blocks), ReadOnly, size, os)
      ensures buffers.live == old(buffers.live)
      ensures Steady()
    {
      hide Steady, Reservable, Read, OnlyIn, Apart, HasRoom, OnlyInBlocks, Bases;
      UntouchedBlocks(Bases(buffers.blocks) + {os.reserved}, mem);
      assert Reservable(buffers.blocks, code, 0) by { NothingReserved(buffers.blocks, code); }
      r := Allocate(ReadOnly, size, os, 0);
      if r.None? {
        return;
      }
      Fill(r.value, Read(mem, patch, size));
      InMoreBlocks(Bases(buffers.blocks), Bases(old(buffers.blocks)) + {os.reserved}, old(mem), old(mem), mem);
    }

    /** Commits the buffers of a new hook and enters it in order. */
    method Register(h: HookEntry, ghost t: Simulation.Placed)
      requires Steady() && initialized && !h.isEnabled && EntryOk(h, code) && CopyOk(h, copies[h.target := t])
      requires forall i :: 0 <= i < |hooks| ==> hooks[i].target != h.target && RangesApart(hooks[i], h)
      requires StoredOk(h, copies[h.target := t], mem, pristine)
      requires var p := OwnedBy(h, copies[h.target := t]);
        && buffers.pending == {p.backup, p.trampoline} && p.backup != p.trampoline
        && p.backup !in buffers.live && p.trampoline !in buffers.live
      modifies `hooks, `copies, buffers
      ensures copies == old(copies)[h.target := t]
      ensures exists k :: 0 <= k <= |old(hooks)| && hooks == Inserted(old(hooks), k, h)
      ensures Valid()
    {
      hide Faithful, Sound, BlocksOutside, CodeOk, CopyOk, StoredOk, EntryOk, RangesApart, Owned, Stored,
        AllRangesApart, EntriesOk;
      ghost var p, live, was := OwnedBy(h, copies[h.target := t]), buffers.live, hooks;
      CommitKeepsOutside(buffers.blocks, code);
      buffers.CommitBuffer();
      assert buffers.live == live + {p.backup, p.trampoline};
      var k := LowerBound(h.target);
      InsertKeepsRegistered(hooks, k, h, copies, t, code);
      InsertKeepsOwned(hooks, k, h, copies, t, live, p);
      InsertKeepsStored(hooks, k, h, copies, t, mem, pristine);
      InsertKeepsCode(hooks, k, h, mem, pristine, code);
      hooks := hooks[..k] + [h] + hooks[k..];
      copies := copies[h.target := t];
      assert hooks == Inserted(was, k, h);
    }

    /** Stores the trampoline and the backup and registers the hook. */
    method StoreHook(ct: CreateTrampoline, target: u32, detour: u32, os: System, os2: System)
      returns (s: Status, original: u32)
      requires ct.p.Valid() && ct.p.target == target && Built(ct.p, ct.slots) && Finished(ct.p, ct.slots)
      requires ct.Reflects()
      requires ct.patchAbove == !LongJumpFits(ct.p, SrcEnd(ct.slots)) && ct.p.code == Read(mem, target, 64)
      requires PatchFits(ct.p, SrcEnd(ct.slots), Read(mem, target - JMP_REL_SIZE, JMP_REL_SIZE), true)
      requires 5 <= target && Hookable(target, ct.patchAbove, code) && AllClear(hooks, target, ct.patchAbove)
      requires forall i :: 0 <= i < |hooks| ==> hooks[i].target != target
      requires Reservable(buffers.blocks, code, os.reserved) && Reservable(buffers.blocks, code, os2.reserved)
      requires os.reserved != 0 && os2.reserved != 0 ==>
        BlocksApart(Fresh(os.reserved, ReadOnly), Fresh(os2.reserved, ReadOnly))
      requires Valid() && initialized
      modifies `mem, `hooks, `copies, buffers, ct`trampoline, ct`oldIPs, ct`newIPs
      ensures s == if RoomFor(ct.p, ct.slots, old(buffers.blocks), os, os2) then Done else MemoryAlloc
      ensures s != Done ==> hooks == old(hooks) && copies == old(copies) && buffers.live == old(buffers.live)
      ensures s == Done ==> CreatedOne(old(hooks), hooks, copies, target, detour, ct.p, original)
      ensures OnlyInBlocks(Bases(old(buffers.blocks)) + {os.reserved, os2.reserved}, old(mem), mem)
      ensures forall x :: x in code ==> mem(x) == old(mem)(x)
      ensures Valid()
    {
      hide Faithful, Sound, BlocksOutside, CopiesOk, Sorted, AllRangesApart, EntriesOk, Buffered, EntryOk,
        RangesApart, CodeOk, Reservable, BlocksApart, Built, Finished, AllResolved, Templates, TempAddrs, Sources,
        Destinations, InCode, Read, OnlyIn, StoredOk, AllClear, Hookable, Apart, LongJumpFits, JumpAboveFits,
        CreateTrampoline.Reflects, HasRoom, OnlyInBlocks, Bases, PointersOk;
      ghost var bases := Bases(old(buffers.blocks)) + {os.reserved, os2.reserved};
      UntouchedBlocks(bases, mem);
      s, original := MemoryAlloc, 0;
      WindowIsPristine(hooks, mem, pristine, code, target, ct.patchAbove);
      PatchFitsAbove(ct.p, SrcEnd(ct.slots), Read(mem, target - JMP_REL_SIZE, JMP_REL_SIZE), true,
                     Read(pristine, target - JMP_REL_SIZE, JMP_REL_SIZE));
      var r := PlaceTrampoline(ct, os, os2.reserved);
      InMoreBlocks(Bases(old(buffers.blocks)) + {os.reserved}, bases, old(mem), old(mem), mem);
      if r.None? {
        Rollback();
        return;
      }
      var patch, size := target, JMP_REL_SIZE;
      if ct.patchAbove {
        patch, size := target - JMP_REL_SIZE, JMP_REL_SIZE + JMP_REL_SHORT_SIZE;
      }
      ghost var t := Simulation.Placed(ct.p, ct.slots, r.value);
      ghost var filled, area := mem, buffers.pending;
      assert size == PatchBytes(ct.p, ct.slots);
      SameRoom(old(buffers.blocks), buffers.blocks, ReadOnly, size, os2);
      ghost var placed := Bases(buffers.blocks) + {os2.reserved};
      var r2 := PlaceBackup(patch, size, os2);
      InMoreBlocks(placed, bases, old(mem), filled, mem);
      if r2.None? {
        Rollback();
        return;
      }
      var hook := HookEntry(target, detour, r.value, r2.value, ct.patchAbove, false, false, ct.oldIPs, ct.newIPs);
      NewEntryOk(hook, t, copies, code, hooks, filled, buffers.live, area);
      ClearIsPristine(hooks, old(mem), filled, pristine, code, hook);
      NewIsStored(hook, t, copies, filled, mem, pristine, buffers.live, area);
      ghost var was := hooks;
      Register(hook, t);
      EnteredIsCreated(was, hooks, hook, t, old(copies));
      s, original := Done, r.value;
    }

    /** Hooks a function: its trampoline and backup are stored, its code stays as it is.
        On failure no buffer is kept, though a block reserved for one may be. */
    method CreateHook(target: u32, detour: u32, executable: int -> bool, os: System, os2: System)
      returns (s: Status, original: u32)
      requires Valid()
      requires executable(target) && !HasHook(hooks, target) ==>
        MayPatch(hooks, Program(dis, Read(mem, target, 64), target), Read(mem, target - JMP_REL_SIZE, JMP_REL_SIZE),
                 executable(target - JMP_REL_SIZE), code)
      requires Reservable(buffers.blocks, code, os.reserved) && Reservable(buffers.blocks, code, os2.reserved)
      requires os.reserved != 0 && os2.reserved != 0 ==>
        BlocksApart(Fresh(os.reserved, ReadOnly), Fresh(os2.reserved, ReadOnly))
      modifies `mem, `hooks, `copies, buffers
      ensures s == CreateStatus(initialized, old(hooks), Program(dis, Read(old(mem), target, 64), target),
                                Read(old(mem), target - JMP_REL_SIZE, JMP_REL_SIZE), detour, executable,
                                old(buffers.blocks), os, os2)
      ensures s != Done ==> hooks == old(hooks) && copies == old(copies) && buffers.live == old(buffers.live)
      ensures s == Done ==>
        var p := Program(dis, Read(old(mem), target, 64), target);
        CreatedOne(old(hooks), hooks, copies, target, detour, p, original)
      ensures OnlyInBlocks(Bases(old(buffers.blocks)) + {os.reserved, os2.reserved}, old(mem), mem)
      ensures forall x :: x in code ==> mem(x) == old(mem)(x)
      ensures Valid()
    {
      hide Faithful, Sound, BlocksOutside, CodeOk, CopyOk, EntryOk, CopiesOk, RangesApart, Owned, Stored,
        AllRangesApart, EntriesOk, Reservable, BlocksApart, Built, Finished, Templates, AllResolved, TempAddrs,
        Sources, Destinations, CanRelocate, CanStore, RoomFor, Read, OnlyInBlocks, Bases;
      UntouchedBlocks(Bases(buffers.blocks) + {os.reserved, os2.reserved}, mem);
      s, original := NotInitialized, 0;
      if !initialized {
        return;
      }
      var found := FindHook(target);
      if found.Some? {
        return AlreadyCreated, 0;
      }
      if !executable(target) || !executable(detour) {
        return NotExecutable, 0;
      }
      var p := Program(dis, Read(mem, target, 64), target);
      var ct := new CreateTrampoline(p);
      var above := Read(mem, target - JMP_REL_SIZE, JMP_REL_SIZE);
      var made := ct.CreateTrampolineFunction(above, executable(target - JMP_REL_SIZE));
      if !made {
        Rollback();
        return UnsupportedFunction, 0;
      }
      RelocationDecides(p, ct.slots, buffers.blocks, os, os2);
      PatchFitsAbove(p, SrcEnd(ct.slots), above, executable(target - JMP_REL_SIZE), above);
      assert Relocated(p, ct.slots);
      s, original := StoreHook(ct, target, detour, os, os2);
    }

    /** Disables and forgets all hooks; if one cannot be disabled, the rest stay. */
    method Uninitialize(writable: nat -> bool) returns (s: Status)
      requires Valid()
      modifies this, buffers
      ensures s == NotInitialized <==> !old(initialized)
      ensures s == Done ==>
        !initialized && hooks == [] && buffers.blocks == [] && forall x :: x in code ==> mem(x) == pristine(x)
      ensures s != Done ==> initialized == old(initialized) && buffers.live == old(buffers.live)
      ensures s != Done && s != NotInitialized ==> SwitchedWhilePossible(old(hooks), hooks, Never, writable, s)
      ensures OnlyUnder(old(hooks), old(mem), mem)
      ensures Valid()
    {
      hide Sorted, AllRangesApart, EntriesOk, CopiesOk, Owned, Stored, Sound, Faithful, BlocksOutside,
        SwitchedWhilePossible, Read,
        Registered, Buffered, CodeOk;
      if !initialized {
        return NotInitialized;
      }
      s := DisableAllHooksLL(writable);
      NeverSaysUninitialized(old(hooks), hooks, Never, writable, s);
      if s != Done {
        return;
      }
      AllDisabledRestores(old(hooks), hooks, writable, mem, pristine, code);
      NothingHooked(copies, mem, pristine, code);
      hooks := [];
      buffers.UninitializeBuffer();
      initialized := false;
    }
  }

  // ----- what the invariant means -----

  /** Where the near or short jump at an address leads. */
  function JumpFrom(mem: Memory, at: int): Option<u32> {
    if mem(at) == 0xE9 then Some((at + 5 + ReadLE32(Read(mem, at, 5), 1)) % TWO32)
    else if mem(at) == 0xEB then
      var rel := mem(at + 1) as int;
      Some((at + 2 + if rel < 0x80 then rel else rel - 0x100) % TWO32)
    else None
  }

  lemma RelativeJumpReaches(mem: Memory, from: int, to: u32)
    requires Read(mem, from, JMP_REL_SIZE) == RelativeJump(from, to)
    ensures JumpFrom(mem, from) == Some(to)
  {
    hide WriteLE32, ReadLE32;
    var operand: u32 := (to - (from + JMP_REL_SIZE)) % TWO32;
    var bytes := Read(mem, from, JMP_REL_SIZE);
    assert bytes == [0xE9] + WriteLE32(operand);
    assert bytes[0] == mem(from);
    Simulation.OperandAt(bytes, 1, operand, [0xE9]);
    Simulation.OperandReaches(to, from + JMP_REL_SIZE);
  }

  /** From an enabled hook's function the jumps lead to its detour. */
  lemma EnabledReachesDetour(hooks: seq<HookEntry>, mem: Memory, pristine: Memory, code: iset<int>, i: nat)
    requires EntriesOk(hooks, code) && CodeOk(hooks, mem, pristine, code) && i < |hooks| && hooks[i].isEnabled
    ensures var h := hooks[i];
      if h.patchAbove then
        JumpFrom(mem, h.target) == Some(h.PatchStart()) && JumpFrom(mem, h.PatchStart()) == Some(h.detour)
      else JumpFrom(mem, h.target) == Some(h.detour)
  {
    hide RelativeJump, Read;
    var h := hooks[i];
    assert EntryOk(h, code);
    var start := h.PatchStart();
    ReadPrefix(mem, start, h.PatchSize(), JMP_REL_SIZE);
    assert h.Jump()[..JMP_REL_SIZE] == RelativeJump(start, h.detour);
    RelativeJumpReaches(mem, start, h.detour);
    if h.patchAbove {
      AtByte(mem, start, h.PatchSize(), 5);
      AtByte(mem, start, h.PatchSize(), 6);
      assert h.Jump()[5] == 0xEB && h.Jump()[6] == 0xF9;
    }
  }

  lemma ReadPrefix(mem: Memory, at: int, n: nat, m: nat)
    requires m <= n
    ensures Read(mem, at, n)[..m] == Read(mem, at, m)
  {
  }

  lemma AtByte(mem: Memory, at: int, n: nat, k: nat)
    requires k < n
    ensures Read(mem, at, n)[k] == mem(at + k)
  {
  }

  /** A hook that is created while no enabled jump covers what is copied gets the relocation
      of the original function. */
  lemma CopiedFromPristine(hooks: seq<HookEntry>, mem: Memory, pristine: Memory, code: iset<int>, t: Simulation.Placed)
    requires CodeOk(hooks, mem, pristine, code) && t.Valid() && t.p.code == Read(mem, t.p.target, 64)
    requires forall a :: t.p.target <= a < t.p.target + SrcEnd(t.slots) ==> a in code && !Patched(hooks, a)
    ensures var q := t.p.(code := Read(pristine, t.p.target, 64));
      t.(p := q).Valid() && t.(p := q).Bytes() == t.Bytes()
  {
    hide Faithful, Finished, Patched, AllResolved, Built;
    var q := t.p.(code := Read(pristine, t.p.target, 64));
    BuiltShape(t.p, t.slots);
    assert t.p.code[..SrcEnd(t.slots)] == q.code[..SrcEnd(t.slots)];
    BuiltFromSame(t.p, q, t.slots);
    FinishedFromSame(t.p, q, t.slots);
    ResolvedFromSame(t.p, q, t.slots, t.base);
  }

  /** As long as a hook is registered, its trampoline does what the code it was made
      from did, up to the exit. */
  lemma RegisteredTrampolineSimulates(hooks: seq<HookEntry>, copies: map<u32, Simulation.Placed>, live: set<Alloc>,
                                      mem: Memory, pristine: Memory, i: nat, choices: seq<bool>, extra: bool)
    requires CopiesOk(hooks, copies) && Buffered(hooks, copies, live, mem, pristine) && i < |hooks|
    requires CopyOk(hooks[i], copies)
    requires Simulation.Original(copies[hooks[i].target]).Valid()
    requires Simulation.ReachesSafe(copies[hooks[i].target], hooks[i].target)
    requires var t := copies[hooks[i].target];
      forall s <- t.slots :: s.kind != Verbatim ==> !(t.base <= s.dest < t.base + DstEnd(t.slots))
    ensures var t := copies[hooks[i].target];
      && Read(mem, hooks[i].trampoline, |t.Bytes()|) == t.Bytes()
      && Simulation.Copy(t).Valid() && Simulation.RunsAgree(t, choices, extra)
  {
    hide Faithful, Built, Finished, AllResolved, Read, Owned, Simulation.RunsAgree, Simulation.ReachesSafe;
    var t := copies[hooks[i].target];
    assert StoredOk(hooks[i], copies, mem, pristine);
    BuiltShape(t.p, t.slots);
    BytesTile(t.p, t.slots, t.base);
    Simulation.Starts(t);
    Simulation.AgreeIfSafe(t, choices, extra);
  }

  // ----- two hooks that overlap -----

  /** One of two hooks is switched on or off. */
  datatype Switch = Switch(second: bool, on: bool)

  function Range(h: HookEntry, backup: seq<byte>, on: bool): seq<byte> {
    if on then h.Jump() else backup
  }

  /** Memory after two hooks with these backups were switched on and off. */
  function Play(code: Memory, g: HookEntry, h: HookEntry, gBackup: seq<byte>, hBackup: seq<byte>,
                ops: seq<Switch>): Memory {
    if ops == [] then code
    else
      var before, op := Play(code, g, h, gBackup, hBackup, ops[..|ops| - 1]), ops[|ops| - 1];
      if op.second then Overwrite(before, h.PatchStart(), Range(h, hBackup, op.on))
      else Overwrite(before, g.PatchStart(), Range(g, gBackup, op.on))
  }

  /** How a hook was switched last. */
  function LastOf(ops: seq<Switch>, second: bool): Option<bool> {
    if ops == [] then None
    else if ops[|ops| - 1].second == second then Some(ops[|ops| - 1].on)
    else LastOf(ops[..|ops| - 1], second)
  }

  /** What is left at an address that one of the hooks does not cover. */
  lemma {:induction false} PlayedOutside(code: Memory, g: HookEntry, h: HookEntry, gBackup: seq<byte>,
                                         hBackup: seq<byte>, ops: seq<Switch>, a: int)
    requires |gBackup| == g.PatchSize() && |hBackup| == h.PatchSize()
    ensures !g.Covers(a) && !h.Covers(a) ==> Play(code, g, h, gBackup, hBackup, ops)(a) == code(a)
    ensures !g.Covers(a) && h.Covers(a) && LastOf(ops, true) == Some(false) ==>
      Play(code, g, h, gBackup, hBackup, ops)(a) == hBackup[a - h.PatchStart()]
    ensures g.Covers(a) && !h.Covers(a) && LastOf(ops, false) == Some(false) ==>
      Play(code, g, h, gBackup, hBackup, ops)(a) == gBackup[a - g.PatchStart()]
    decreases |ops|
  {
    hide HookEntry.Jump;
    if ops != [] {
      PlayedOutside(code, g, h, gBackup, hBackup, ops[..|ops| - 1], a);
    }
  }

  /** What is left at an address that both hooks cover. */
  lemma {:induction false} PlayedLast(code: Memory, g: HookEntry, h: HookEntry, gBackup: seq<byte>, hBackup: seq<byte>,
                                      ops: seq<Switch>, a: int)
    requires LastOf(ops, false) == Some(false) && LastOf(ops, true) == Some(false)
    requires |gBackup| == g.PatchSize() && |hBackup| == h.PatchSize()
    requires g.Covers(a) && h.Covers(a)
    ensures ops != []
    ensures var left := Play(code, g, h, gBackup, hBackup, ops)(a);
      left == if ops[|ops| - 1].second then hBackup[a - h.PatchStart()] else gBackup[a - g.PatchStart()]
  {
    hide HookEntry.Jump, HookEntry.PatchStart, HookEntry.PatchSize;
    LastIsOff(ops);
    var op, before := ops[|ops| - 1], Play(code, g, h, gBackup, hBackup, ops[..|ops| - 1]);
    if op.second {
      WrittenAt(before, h, hBackup, a);
    } else {
      WrittenAt(before, g, gBackup, a);
    }
  }

  lemma LastIsOff(ops: seq<Switch>)
    requires LastOf(ops, false) == Some(false) && LastOf(ops, true) == Some(false)
    ensures ops != [] && !ops[|ops| - 1].on
  {
  }

  lemma WrittenAt(before: Memory, h: HookEntry, backup: seq<byte>, a: int)
    requires h.Covers(a) && |backup| == h.PatchSize()
    ensures Overwrite(before, h.PatchStart(), Range(h, backup, false))(a) == backup[a - h.PatchStart()]
  {
    hide HookEntry.Jump;
  }

  /** The backup that is made of a hook's range. */
  function Backup(mem: Memory, h: HookEntry): (r: seq<byte>)
    ensures |r| == h.PatchSize()
  {
    Read(mem, h.PatchStart(), h.PatchSize())
  }

  /** Memory when h was created, with g enabled or not. */
  function AtCreation(g: HookEntry, code: Memory, gOn: bool): Memory {
    if gOn then Overwrite(code, g.PatchStart(), g.Jump()) else code
  }

  /** What memory holds once both hooks are disabled. */
  function LeftAt(g: HookEntry, h: HookEntry, code: Memory, kept: bool, a: int): byte {
    if g.Covers(a) && h.Covers(a) && kept then g.Jump()[a - g.PatchStart()] else code(a)
  }

  lemma PlayedAt(g: HookEntry, h: HookEntry, code: Memory, gOn: bool, ops: seq<Switch>, a: int)
    requires LastOf(ops, false) == Some(false) && LastOf(ops, true) == Some(false)
    ensures ops != []
    ensures Play(code, g, h, Backup(code, g), Backup(AtCreation(g, code, gOn), h), ops)(a)
      == LeftAt(g, h, code, gOn && ops[|ops| - 1].second, a)
  {
    hide HookEntry.Jump, Play, LastOf;
    var gBackup, hBackup := Backup(code, g), Backup(AtCreation(g, code, gOn), h);
    assert g.Covers(a) ==> gBackup[a - g.PatchStart()] == code(a);
    assert h.Covers(a) ==>
      hBackup[a - h.PatchStart()] == if gOn && g.Covers(a) then g.Jump()[a - g.PatchStart()] else code(a);
    PlayedOutside(code, g, h, gBackup, hBackup, ops, a);
    if g.Covers(a) && h.Covers(a) {
      PlayedLast(code, g, h, gBackup, hBackup, ops, a);
    } else {
      assert ops != [] by {
        NeverSwitched();
      }
    }
  }

  lemma NeverSwitched()
    ensures LastOf([], false) == None
  {
  }

  /** Two hooks that overlap, g created before h: however the two are switched until both
      are disabled, the code is restored exactly if g was disabled when h was created, or
      g is switched last, or its jump happens to equal the code where the two overlap. */
  lemma OverlappingBackup(g: HookEntry, h: HookEntry, code: Memory, gOn: bool, ops: seq<Switch>)
    requires LastOf(ops, false) == Some(false) && LastOf(ops, true) == Some(false)
    ensures ops != []
    ensures
      (forall a :: Play(code, g, h, Backup(code, g), Backup(AtCreation(g, code, gOn), h), ops)(a) == code(a)) <==>
      !gOn || !ops[|ops| - 1].second
      || (forall a :: g.Covers(a) && h.Covers(a) ==> g.Jump()[a - g.PatchStart()] == code(a))
  {
    hide HookEntry.Jump, Play, LastOf, Backup, AtCreation;
    PlayedAt(g, h, code, gOn, ops, 0);
    var kept := gOn && ops[|ops| - 1].second;
    forall a
      ensures Play(code, g, h, Backup(code, g), Backup(AtCreation(g, code, gOn), h), ops)(a)
        == LeftAt(g, h, code, kept, a)
    {
      PlayedAt(g, h, code, gOn, ops, a);
    }
    if kept && forall a :: LeftAt(g, h, code, kept, a) == code(a) {
      forall a | g.Covers(a) && h.Covers(a)
        ensures g.Jump()[a - g.PatchStart()] == code(a)
      {
        assert LeftAt(g, h, code, kept, a) == code(a);
      }
    }
  }

  /** Two hooks two bytes apart, the second created over the jump of the first: with both
      disabled, the second one last, part of that jump is still there. */
  lemma OverlapLeavesJump()
    ensures
      var g := HookEntry(0x1000, 0x1105, 0, 0, false, false, false, [], []);
      var h := g.(target := 0x1002);
      var code: Memory := a => 0x90;
      var ops := [Switch(false, false), Switch(true, false)];
      Play(code, g, h, Backup(code, g), Backup(AtCreation(g, code, true), h), ops)(0x1002) != code(0x1002)
  {
    hide Play, Backup, AtCreation;
    var g := HookEntry(0x1000, 0x1105, 0, 0, false, false, false, [], []);
    var h := g.(target := 0x1002);
    var code: Memory := a => 0x90;
    var ops := [Switch(false, false), Switch(true, false)];
    assert ops[..1] == [Switch(false, false)];
    assert LastOf(ops, true) == Some(false) && LastOf(ops, false) == LastOf(ops[..1], false) == Some(false);
    PlayedAt(g, h, code, true, ops, 0x1002);
    assert g.Jump()[2] == 1;
  }

  /** Patching never destroys live code: every byte that enabling a registered hook
      overwrites is padding above the function, or lies in a copied instruction or in
      padding behind the copied ones, as the original code has it. */
  lemma PatchDestroysNoCode(hooks: seq<HookEntry>, copies: map<u32, Simulation.Placed>, live: set<Alloc>,
                            mem: Memory, pristine: Memory, i: nat, a: int)
    requires CopiesOk(hooks, copies) && Buffered(hooks, copies, live, mem, pristine) && i < |hooks|
    requires CopyOk(hooks[i], copies) && hooks[i].Covers(a)
    ensures var h := hooks[i]; var t := copies[h.target];
      if a < h.target then
        h.target - JMP_REL_SIZE <= a && IsPadding(Read(pristine, h.target - JMP_REL_SIZE, JMP_REL_SIZE))
      else MayOverwrite(t.p, t.slots, a - h.target) && t.p.code[a - h.target] == pristine(a)
  {
    hide Faithful, Built, Exits, AllResolved, Owned, IsPadding, MayOverwrite;
    var h := hooks[i];
    var t := copies[h.target];
    assert StoredOk(h, copies, mem, pristine);
    if a >= h.target {
      PatchIsSafe(t.p, t.slots, Read(pristine, h.target - JMP_REL_SIZE, JMP_REL_SIZE), true, a - h.target);
      var n := PatchReach(h.patchAbove);
      assert t.p.code[..n][a - h.target] == Read(pristine, h.target, n)[a - h.target];
    }
  }
}
