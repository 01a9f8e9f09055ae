/** Building a trampoline: copying the first instructions of a function elsewhere so
    that they still do what they did, in the 32-bit configuration. The disassembler
    is a parameter; what is assumed of it is Faithful. */
module Trampoline {
  import opened Words

  const JMP_REL_SIZE: int := 5
  const JMP_REL_SHORT_SIZE: int := 2

  /** What the disassembler reports about the instruction some bytes begin with. */
  datatype Inst = Inst(error: bool, len: nat, opcode: byte, opcode2: byte, imm8: byte, imm32: u32) {
    predicate IsCall() { opcode == 0xE8 }

    predicate IsJmp() { opcode == 0xE9 || opcode == 0xEB }

    /** LOOPNE, LOOPE, LOOP and JCXZ, which exist in the short form only. */
    predicate IsLoop() { 0xE0 <= opcode <= 0xE3 }

    predicate IsShortJcc() { 0x70 <= opcode <= 0x7F || IsLoop() }

    predicate IsJcc() { IsShortJcc() || 0x80 <= opcode2 <= 0x8F }

    predicate IsRet() { opcode == 0xC2 || opcode == 0xC3 }

    predicate IsShort() { if IsJmp() then opcode == 0xEB else IsShortJcc() }

    /** The condition tested by a Jcc. */
    function Condition(): byte { (if opcode != 0x0F then opcode else opcode2) % 0x10 }

    /** The signed operand of a relative branch, modulo 2^32. */
    function Offset(): int {
      if !IsShort() then imm32 else if imm8 < 0x80 then imm8 as int else imm8 as int - 0x100
    }

    /** The absolute destination of a relative branch at `addr`. */
    function Dest(addr: int): u32 {
      (addr + len + Offset()) % TWO32
    }
  }

  /** The disassembler depends only on the bytes of the instruction, which has at most
      15 of them, and reads the near branches of the Intel manual as they are. */
  ghost predicate Faithful(dis: seq<byte> -> Inst) {
    && (forall s :: !dis(s).error ==> 1 <= dis(s).len <= 15 && dis(s).len <= |s|)
    && (forall s, t :: !dis(s).error && dis(s).len <= |t| && s[..dis(s).len] == t[..dis(s).len] ==> dis(t) == dis(s))
    && (forall s :: |s| >= 5 && (s[0] == 0xE8 || s[0] == 0xE9) ==>
          var i := dis(s);
          !i.error && i.len == 5 && i.opcode == s[0] && i.opcode2 == 0 && i.imm32 == ReadLE32(s, 1))
    && (forall s :: |s| >= 6 && s[0] == 0x0F && 0x80 <= s[1] <= 0x8F ==>
          var i := dis(s);
          !i.error && i.len == 6 && i.opcode == 0x0F && i.opcode2 == s[1] && i.imm32 == ReadLE32(s, 2))
  }

  lemma LengthOf(dis: seq<byte> -> Inst, s: seq<byte>)
    requires Faithful(dis) && !dis(s).error
    ensures 1 <= dis(s).len <= 15 && dis(s).len <= |s|
  {
  }

  lemma SameInstruction(dis: seq<byte> -> Inst, s: seq<byte>, t: seq<byte>)
    requires Faithful(dis) && !dis(s).error && dis(s).len <= |s|
    requires dis(s).len <= |t| && s[..dis(s).len] == t[..dis(s).len]
    ensures dis(t) == dis(s)
  {
  }

  lemma NearBranch(dis: seq<byte> -> Inst, s: seq<byte>)
    requires Faithful(dis)
    ensures |s| >= 5 && (s[0] == 0xE8 || s[0] == 0xE9) ==>
      var i := dis(s); !i.error && i.len == 5 && i.opcode == s[0] && i.opcode2 == 0 && i.imm32 == ReadLE32(s, 1)
    ensures |s| >= 6 && s[0] == 0x0F && 0x80 <= s[1] <= 0x8F ==>
      var i := dis(s); !i.error && i.len == 6 && i.opcode == 0x0F && i.opcode2 == s[1] && i.imm32 == ReadLE32(s, 2)
  {
  }

  /** The function to be hooked: the bytes at `target`. */
  datatype Program = Program(dis: seq<byte> -> Inst, code: seq<byte>, target: u32) {
    ghost predicate Valid() {
      Faithful(dis) && |code| >= 64 && 5 <= target && target + 64 <= TWO32
    }

    function At(offset: nat): Inst
      requires offset <= |code|
    {
      dis(code[offset..])
    }

    /** Destinations the short jump of the patch may cover, and the byte after them. */
    predicate IsInternal(dest: u32) {
      target <= dest <= target + JMP_REL_SIZE
    }
  }

  // ----- slots: what becomes of each instruction -----

  datatype Kind = Verbatim | Call | Jmp | Jcc(condition: byte)

  /** One instruction: its offset in the function and in the trampoline, and for a
      rewritten branch its absolute destination. `resume` marks the final jump back. */
  datatype Slot = Slot(src: nat, dst: nat, inst: Inst, kind: Kind, dest: u32, resume: bool) {
    function Size(): nat {
      match kind
      case Verbatim => inst.len
      case Call => 5
      case Jmp => 5
      case Jcc(_) => 6
    }
  }

  function SrcEnd(slots: seq<Slot>): nat {
    if slots == [] then 0 else var s := slots[|slots| - 1]; s.src + s.inst.len
  }

  function DstEnd(slots: seq<Slot>): nat {
    if slots == [] then 0 else var s := slots[|slots| - 1]; s.dst + s.Size()
  }

  function Max(a: nat, b: nat): nat { if a >= b then a else b }

  predicate IsInternalBranch(p: Program, s: Slot) {
    && !s.resume && s.kind == Verbatim && (s.inst.IsJmp() || s.inst.IsJcc())
  }

  /** The farthest destination of an internal branch so far. */
  function JmpDest(p: Program, slots: seq<Slot>): nat {
    if slots == [] then 0
    else
      var s := slots[|slots| - 1];
      var before := JmpDest(p, slots[..|slots| - 1]);
      if IsInternalBranch(p, s) then Max(before, s.inst.Dest(p.target + s.src)) else before
  }

  /** How the instruction after `slots` is treated, ignoring the length check. */
  function Treat(p: Program, src: nat, dst: nat): (r: seq<Slot>)
    requires src < |p.code|
    ensures |r| <= 1
  {
    var inst := p.At(src);
    var dest := inst.Dest(p.target + src);
    if inst.error then []
    else if src >= JMP_REL_SIZE then [Slot(src, dst, inst, Jmp, (p.target + src) % TWO32, true)]
    else if inst.IsCall() then [Slot(src, dst, inst, Call, dest, false)]
    else if inst.IsJmp() then [Slot(src, dst, inst, if p.IsInternal(dest) then Verbatim else Jmp, dest, false)]
    else if inst.IsJcc() then
      if p.IsInternal(dest) then [Slot(src, dst, inst, Verbatim, dest, false)]
      else if inst.IsLoop() then []
      else [Slot(src, dst, inst, Jcc(inst.Condition()), dest, false)]
    else [Slot(src, dst, inst, Verbatim, 0, false)]
  }

  /** The next slot, unless the instruction cannot be relocated. */
  function NextSlot(p: Program, slots: seq<Slot>): (r: seq<Slot>)
    requires SrcEnd(slots) < |p.code|
    ensures |r| <= 1
  {
    var r := Treat(p, SrcEnd(slots), DstEnd(slots));
    if r == [] then []
    else if p.target + r[0].src < JmpDest(p, slots + r) && r[0].Size() != r[0].inst.len then []
    else r
  }

  /** The jump back, or an unconditional exit outside any pending branch. */
  predicate Exits(p: Program, s: Slot, jmpDest: nat) {
    s.resume || ((s.kind == Jmp || (s.kind == Verbatim && !IsInternalBranch(p, s) && s.inst.IsRet()))
                 && p.target + s.src >= jmpDest)
  }

  predicate Finished(p: Program, slots: seq<Slot>) {
    && slots != []
    && Exits(p, slots[|slots| - 1], JmpDest(p, slots))
  }

  /** The slots reached by treating one instruction after the other. */
  ghost predicate Built(p: Program, slots: seq<Slot>)
    decreases |slots|
  {
    slots == [] ||
    (var before := slots[..|slots| - 1];
     && Built(p, before) && !Finished(p, before) && SrcEnd(before) < |p.code|
     && NextSlot(p, before) == [slots[|slots| - 1]])
  }

  // ----- bytes -----

  /** The bytes of a slot before its operand is known. */
  function Template(p: Program, s: Slot): (b: seq<byte>)
    requires s.src + s.inst.len <= |p.code|
    ensures |b| == s.Size()
  {
    match s.kind
    case Verbatim => p.code[s.src..s.src + s.inst.len]
    case Call => [0xE8, 0, 0, 0, 0]
    case Jmp => [0xE9, 0, 0, 0, 0]
    case Jcc(c) => [0x0F, 0x80 + c % 0x10, 0, 0, 0, 0]
  }

  /** A rewritten branch whose operand, relative to the next instruction, is filled in. */
  function Resolved(p: Program, s: Slot, trampoline: u32): (b: seq<byte>)
    requires s.src + s.inst.len <= |p.code|
    ensures |b| == s.Size()
  {
    if s.kind == Verbatim then Template(p, s)
    else
      var operand := (s.dest as int - (trampoline + s.dst + s.Size())) % TWO32;
      Template(p, s)[..s.Size() - 4] + WriteLE32(operand)
  }

  datatype TempAddr = TempAddr(address: u32, position: nat, pc: nat)

  ghost predicate InCode(p: Program, slots: seq<Slot>) {
    forall s <- slots :: s.src + s.inst.len <= |p.code|
  }

  function Templates(p: Program, slots: seq<Slot>): seq<byte>
    requires InCode(p, slots)
  {
    if slots == [] then []
    else Templates(p, slots[..|slots| - 1]) + Template(p, slots[|slots| - 1])
  }

  function AllResolved(p: Program, slots: seq<Slot>, trampoline: u32): seq<byte>
    requires InCode(p, slots)
  {
    if slots == [] then []
    else AllResolved(p, slots[..|slots| - 1], trampoline) + Resolved(p, slots[|slots| - 1], trampoline)
  }

  /** The operands to fill in, in the order of the slots. */
  function TempAddrs(slots: seq<Slot>): seq<TempAddr> {
    if slots == [] then []
    else
      TempAddrs(slots[..|slots| - 1]) + OperandOf(slots[|slots| - 1])
  }

  function OperandOf(s: Slot): seq<TempAddr> {
    if s.kind == Verbatim then [] else [TempAddr(s.dest, s.dst + s.Size() - 4, s.dst + s.Size())]
  }

  // ----- padding -----

  predicate IsPadding(b: seq<byte>) {
    b != [] && (b[0] == 0x00 || b[0] == 0x90 || b[0] == 0xCC) && forall i :: 0 <= i < |b| ==> b[i] == b[0]
  }

  method IsCodePadding(b: seq<byte>) returns (r: bool)
    requires b != []
    ensures r == IsPadding(b)
  {
    var paddingByte := b[0];
    if paddingByte == 0x00 || paddingByte == 0x90 || paddingByte == 0xCC {
      for i := 1 to |b|
        invariant forall j :: 0 <= j < i ==> b[j] == paddingByte
      {
        if b[i] != paddingByte {
          return false;
        }
      }
      return true;
    }
    return false;
  }

  // ----- what Built slots look like -----

  lemma NextSlotShape(p: Program, slots: seq<Slot>)
    requires p.Valid() && SrcEnd(slots) < |p.code| && NextSlot(p, slots) != []
    ensures var s := NextSlot(p, slots)[0];
      && s.src == SrcEnd(slots) && s.dst == DstEnd(slots) && s.inst == p.At(s.src)
      && !s.inst.error && 1 <= s.inst.len <= 15 && s.src + s.inst.len <= |p.code|
      && (s.resume <==> s.src >= JMP_REL_SIZE)
      && (s.src < 20 ==> s.resume ==> s.kind == Jmp && s.dest == p.target + s.src)
      && (p.target + s.src < JmpDest(p, slots + [s]) ==> s.Size() == s.inst.len)
  {
    hide Faithful, JmpDest, Inst.Dest, Inst.IsJcc;
    LengthOf(p.dis, p.code[SrcEnd(slots)..]);
    var r := Treat(p, SrcEnd(slots), DstEnd(slots));
    assert slots + r == slots + [r[0]];
  }

  ghost predicate SlotOk(p: Program, s: Slot)
    requires |p.code| >= 64
  {
    && s.src < 20 && s.inst == p.At(s.src) && !s.inst.error && 1 <= s.inst.len <= 15
    && (s.resume <==> s.src >= JMP_REL_SIZE)
    && (s.resume ==> s.kind == Jmp && s.dest == p.target + s.src)
  }

  /** Slots follow each other without gaps in the function and in the trampoline; only
      the last one may be the jump back. */
  ghost predicate Tiled(p: Program, slots: seq<Slot>)
    requires |p.code| >= 64
  {
    && (forall i :: 0 <= i < |slots| ==> SlotOk(p, slots[i]))
    && (slots != [] ==> slots[0].src == 0 && slots[0].dst == 0)
    && (forall i :: 0 <= i < |slots| - 1 ==> !slots[i].resume && slots[i + 1].src == slots[i].src + slots[i].inst.len)
    && (forall i :: 0 <= i < |slots| - 1 ==> slots[i + 1].dst == slots[i].dst + slots[i].Size())
  }

  lemma TiledExtends(p: Program, before: seq<Slot>, s: Slot)
    requires |p.code| >= 64 && Tiled(p, before) && SlotOk(p, s)
    requires before != [] ==> !before[|before| - 1].resume
    requires s.src == SrcEnd(before) && s.dst == DstEnd(before)
    ensures Tiled(p, before + [s])
  {
    hide SlotOk, Slot.Size;
  }

  lemma TiledEnds(p: Program, slots: seq<Slot>)
    requires |p.code| >= 64 && Tiled(p, slots)
    ensures InCode(p, slots) && SrcEnd(slots) < 35
    ensures (slots == [] || !slots[|slots| - 1].resume) ==> SrcEnd(slots) < 20
  {
  }

  /** A built sequence tiles the function and the trampoline from offset 0. */
  lemma {:induction false} BuiltShape(p: Program, slots: seq<Slot>)
    requires p.Valid() && Built(p, slots)
    ensures Tiled(p, slots)
    decreases |slots|
  {
    hide Faithful, NextSlot, Finished, Tiled;
    if slots == [] {
      NothingIsTiled(p);
    } else {
      var before, last := slots[..|slots| - 1], slots[|slots| - 1];
      BuiltShape(p, before);
      TiledStep(p, before, last);
      assert before + [last] == slots;
    }
  }

  lemma TiledStep(p: Program, before: seq<Slot>, s: Slot)
    requires p.Valid() && Tiled(p, before) && !Finished(p, before) && SrcEnd(before) < |p.code|
    requires NextSlot(p, before) == [s]
    ensures Tiled(p, before + [s])
  {
    hide Faithful, NextSlot, Finished, Tiled, SlotOk;
    TiledEnds(p, before);
    if before != [] {
      FinishedAfterResume(p, before);
    }
    NextSlotShape(p, before);
    IsOkSlot(p, s);
    TiledExtends(p, before, s);
  }

  lemma IsOkSlot(p: Program, s: Slot)
    requires p.Valid() && s.src < 20 && s.inst == p.At(s.src) && !s.inst.error && 1 <= s.inst.len <= 15
    requires (s.resume <==> s.src >= JMP_REL_SIZE) && (s.resume ==> s.kind == Jmp && s.dest == p.target + s.src)
    ensures SlotOk(p, s)
  {
    hide Faithful;
  }

  lemma NothingIsTiled(p: Program)
    requires |p.code| >= 64
    ensures Tiled(p, [])
  {
  }

  lemma FinishedAfterResume(p: Program, slots: seq<Slot>)
    requires slots != []
    ensures slots[|slots| - 1].resume ==> Finished(p, slots)
  {
  }

  // ----- internal branches -----

  lemma {:induction false} BuiltPrefix(p: Program, slots: seq<Slot>, n: nat)
    requires Built(p, slots) && n <= |slots|
    ensures Built(p, slots[..n])
    decreases |slots|
  {
    hide NextSlot, Finished;
    if n < |slots| {
      var before := slots[..|slots| - 1];
      BuiltPrefix(p, before, n);
      assert before[..n] == slots[..n];
    } else {
      assert slots[..n] == slots;
    }
  }

  lemma {:induction false} JmpDestCovers(p: Program, slots: seq<Slot>, i: nat)
    requires i < |slots| && IsInternalBranch(p, slots[i])
    ensures slots[i].inst.Dest(p.target + slots[i].src) <= JmpDest(p, slots)
    decreases |slots|
  {
    hide IsInternalBranch, Inst.Dest;
    if i < |slots| - 1 {
      JmpDestCovers(p, slots[..|slots| - 1], i);
    }
  }

  /** While a branch is pending, instructions keep their length. */
  lemma FrozenWhilePending(p: Program, slots: seq<Slot>, i: nat, m: nat)
    requires p.Valid() && Built(p, slots) && i <= m < |slots| && IsInternalBranch(p, slots[i])
    requires p.target + slots[m].src < slots[i].inst.Dest(p.target + slots[i].src)
    ensures slots[m].Size() == slots[m].inst.len
  {
    hide Faithful, NextSlot, Finished, JmpDest, Inst.Dest, IsInternalBranch, Slot.Size;
    var upTo := slots[..m + 1];
    BuiltPrefix(p, slots, m + 1);
    assert upTo[..m] == slots[..m] && upTo[m] == slots[m];
    NextSlotShape(p, slots[..m]);
    assert slots[..m] + [slots[m]] == upTo;
    JmpDestCovers(p, upTo, i);
  }

  /** A pending branch keeps the distance from itself to its destination. */
  lemma {:induction false} DistanceKept(p: Program, slots: seq<Slot>, i: nat, j: nat)
    requires p.Valid() && Built(p, slots) && i <= j < |slots| && IsInternalBranch(p, slots[i])
    requires p.target + slots[j].src <= slots[i].inst.Dest(p.target + slots[i].src)
    ensures slots[j].dst - slots[i].dst == slots[j].src - slots[i].src
    decreases j
  {
    hide Faithful, NextSlot, Finished, Inst.Dest, IsInternalBranch, Slot.Size, SlotOk, Built;
    if i < j {
      BuiltShape(p, slots);
      InstHasLength(p, slots, j - 1);
      DistanceKept(p, slots, i, j - 1);
      FrozenWhilePending(p, slots, i, j - 1);
    }
  }

  lemma InstHasLength(p: Program, slots: seq<Slot>, i: nat)
    requires p.Valid() && Tiled(p, slots) && i < |slots|
    ensures slots[i].inst.len >= 1 && slots[i].inst == p.At(slots[i].src) && !slots[i].inst.error
  {
    hide Faithful;
  }

  /** A finished sequence reaches every internal destination. */
  lemma FinishedReaches(p: Program, slots: seq<Slot>, i: nat)
    requires p.Valid() && Built(p, slots) && Finished(p, slots) && i < |slots| && IsInternalBranch(p, slots[i])
    ensures slots[i].inst.Dest(p.target + slots[i].src) <= p.target + slots[|slots| - 1].src
  {
    hide Faithful, NextSlot, JmpDest, Inst.Dest;
    BuiltShape(p, slots);
    JmpDestCovers(p, slots, i);
    InternalIsNear(p, slots, i);
  }

  lemma InternalIsNear(p: Program, slots: seq<Slot>, i: nat)
    requires p.Valid() && Built(p, slots) && i < |slots| && IsInternalBranch(p, slots[i])
    ensures p.IsInternal(slots[i].inst.Dest(p.target + slots[i].src))
  {
    hide Faithful, Finished, NextSlot, Treat, IsInternalBranch, Inst.Dest;
    BuiltPrefix(p, slots, i + 1);
    assert slots[..i + 1][..i] == slots[..i];
    TreatedInternally(p, slots[..i], slots[i]);
  }

  lemma TreatedInternally(p: Program, before: seq<Slot>, s: Slot)
    requires SrcEnd(before) < |p.code| && NextSlot(p, before) == [s] && IsInternalBranch(p, s)
    ensures p.IsInternal(s.inst.Dest(p.target + s.src))
  {
    hide Faithful, JmpDest, Inst.Dest;
  }

  // ----- filling in the operands -----

  function Store(bytes: seq<byte>, t: TempAddr, trampoline: u32): (r: seq<byte>)
    requires t.position + 4 <= |bytes|
    ensures |r| == |bytes|
  {
    bytes[..t.position] + WriteLE32((t.address as int - (trampoline + t.pc)) % TWO32) + bytes[t.position + 4..]
  }

  ghost predicate Fits(temps: seq<TempAddr>, size: nat) {
    forall t <- temps :: t.position + 4 <= size
  }

  function Patched(bytes: seq<byte>, temps: seq<TempAddr>, trampoline: u32): (r: seq<byte>)
    requires Fits(temps, |bytes|)
    ensures |r| == |bytes|
  {
    if temps == [] then bytes
    else Store(Patched(bytes, temps[..|temps| - 1], trampoline), temps[|temps| - 1], trampoline)
  }

  lemma {:induction false} BytesTile(p: Program, slots: seq<Slot>, trampoline: u32)
    requires |p.code| >= 64 && Tiled(p, slots) && InCode(p, slots)
    ensures |Templates(p, slots)| == |AllResolved(p, slots, trampoline)| == DstEnd(slots)
    ensures Fits(TempAddrs(slots), DstEnd(slots))
    decreases |slots|
  {
    hide SlotOk, Template, Resolved;
    if slots != [] {
      BytesTile(p, slots[..|slots| - 1], trampoline);
    }
  }

  lemma TiledInit(p: Program, slots: seq<Slot>)
    requires |p.code| >= 64 && Tiled(p, slots) && InCode(p, slots) && slots != []
    ensures Tiled(p, slots[..|slots| - 1]) && InCode(p, slots[..|slots| - 1])
    ensures slots[|slots| - 1].dst == DstEnd(slots[..|slots| - 1])
  {
    hide SlotOk, Slot.Size;
  }

  lemma LastSlot(p: Program, slots: seq<Slot>, trampoline: u32)
    requires slots != [] && InCode(p, slots)
    ensures var before, s := slots[..|slots| - 1], slots[|slots| - 1];
      && InCode(p, before)
      && Templates(p, slots) == Templates(p, before) + Template(p, s)
      && AllResolved(p, slots, trampoline) == AllResolved(p, before, trampoline) + Resolved(p, s, trampoline)
      && TempAddrs(slots) == TempAddrs(before) + OperandOf(s)
  {
    hide Template, Resolved;
  }

  lemma PatchedMore(bytes: seq<byte>, temps: seq<TempAddr>, t: TempAddr, trampoline: u32)
    requires Fits(temps + [t], |bytes|)
    ensures Fits(temps, |bytes|) && t.position + 4 <= |bytes|
    ensures Patched(bytes, temps + [t], trampoline) == Store(Patched(bytes, temps, trampoline), t, trampoline)
  {
    hide Store;
    assert forall x <- temps :: x in temps + [t];
    assert t in temps + [t];
    assert (temps + [t])[..|temps|] == temps;
  }

  lemma {:induction false} PatchingResolves(p: Program, slots: seq<Slot>, rest: seq<byte>, trampoline: u32)
    requires |p.code| >= 64 && Tiled(p, slots) && InCode(p, slots)
    requires Fits(TempAddrs(slots), |Templates(p, slots) + rest|)
    ensures Patched(Templates(p, slots) + rest, TempAddrs(slots), trampoline)
      == AllResolved(p, slots, trampoline) + rest
    decreases |slots|
  {
    hide SlotOk, Template, Templates, AllResolved, Resolved, Tiled, Store, Patched, TempAddrs;
    if slots == [] {
      NothingToPatch(p, rest, trampoline);
    } else {
      var before, s := slots[..|slots| - 1], slots[|slots| - 1];
      var t := Template(p, s);
      var done := AllResolved(p, before, trampoline);
      TiledInit(p, slots);
      BytesTile(p, before, trampoline);
      LastSlot(p, slots, trampoline);
      var bytes := Templates(p, slots) + rest;
      assert bytes == Templates(p, before) + (t + rest);
      assert Fits(TempAddrs(before), |bytes|);
      PatchingResolves(p, before, t + rest, trampoline);
      FillSlot(p, s, bytes, TempAddrs(before), done, rest, trampoline);
    }
  }

  lemma NothingToPatch(p: Program, rest: seq<byte>, trampoline: u32)
    ensures Templates(p, []) == AllResolved(p, [], trampoline) == [] && TempAddrs([]) == []
    ensures Patched([] + rest, [], trampoline) == [] + rest
  {
  }

  lemma FillSlot(p: Program, s: Slot, bytes: seq<byte>, temps: seq<TempAddr>, done: seq<byte>, rest: seq<byte>,
                 trampoline: u32)
    requires s.src + s.inst.len <= |p.code| && |done| == s.dst
    requires Fits(temps + OperandOf(s), |bytes|) && Fits(temps, |bytes|)
    requires Patched(bytes, temps, trampoline) == done + (Template(p, s) + rest)
    ensures Patched(bytes, temps + OperandOf(s), trampoline) == (done + Resolved(p, s, trampoline)) + rest
  {
    hide Template, Resolved, Store, Patched;
    if s.kind == Verbatim {
      VerbatimStays(p, s, trampoline);
      assert temps + OperandOf(s) == temps;
      assert done + (Template(p, s) + rest) == (done + Template(p, s)) + rest;
    } else {
      PatchedMore(bytes, temps, TempAddr(s.dest, s.dst + s.Size() - 4, s.dst + s.Size()), trampoline);
      StoreInSlot(p, s, done, rest, trampoline);
    }
  }

  lemma VerbatimStays(p: Program, s: Slot, trampoline: u32)
    requires s.src + s.inst.len <= |p.code| && s.kind == Verbatim
    ensures Resolved(p, s, trampoline) == Template(p, s)
  {
  }

  lemma StoreInSlot(p: Program, s: Slot, done: seq<byte>, rest: seq<byte>, trampoline: u32)
    requires s.src + s.inst.len <= |p.code| && s.kind != Verbatim && |done| == s.dst
    ensures Store(done + (Template(p, s) + rest), TempAddr(s.dest, s.dst + s.Size() - 4, s.dst + s.Size()), trampoline)
      == (done + Resolved(p, s, trampoline)) + rest
  {
    hide WriteLE32;
    var n := s.Size();
    var bytes := done + (Template(p, s) + rest);
    assert bytes[..s.dst + n - 4] == done + Template(p, s)[..n - 4];
    assert bytes[s.dst + n..] == rest;
  }

  lemma SliceOfPrefix(prefix: seq<byte>, more: seq<byte>, from: nat, end: nat)
    requires from <= end <= |prefix|
    ensures (prefix + more)[from..end] == prefix[from..end]
  {
  }

  /** Every slot's bytes are found at its offset in the resolved trampoline. */
  lemma {:induction false} ResolvedAt(p: Program, slots: seq<Slot>, trampoline: u32, i: nat)
    requires |p.code| >= 64 && Tiled(p, slots) && InCode(p, slots) && i < |slots|
    ensures var all := AllResolved(p, slots, trampoline); var s := slots[i];
      s.dst + s.Size() <= |all| && all[s.dst..s.dst + s.Size()] == Resolved(p, s, trampoline)
    decreases |slots|
  {
    hide SlotOk, Template, Resolved, Tiled, Slot.Size;
    var before := slots[..|slots| - 1];
    TiledInit(p, slots);
    BytesTile(p, before, trampoline);
    if i < |slots| - 1 {
      ResolvedAt(p, before, trampoline, i);
      assert before[i] == slots[i];
      var prefix, last := AllResolved(p, before, trampoline), Resolved(p, slots[|slots| - 1], trampoline);
      SliceOfPrefix(prefix, last, slots[i].dst, slots[i].dst + slots[i].Size());
    }
  }

  // ----- room for the patch -----

  /** The 5-byte jump fits over copied code and padding. */
  predicate LongJumpFits(p: Program, end: nat)
    requires |p.code| >= 64
  {
    end >= JMP_REL_SIZE || IsPadding(p.code[end..JMP_REL_SIZE])
  }

  /** The 2-byte jump fits, and the 5-byte jump fits into padding above the function. */
  predicate JumpAboveFits(p: Program, end: nat, above: seq<byte>, aboveExecutable: bool)
    requires |p.code| >= 64
  {
    && (end >= JMP_REL_SHORT_SIZE || IsPadding(p.code[end..JMP_REL_SHORT_SIZE]))
    && aboveExecutable && IsPadding(above)
  }

  /** There is room for one of the two patches behind `end` copied bytes. */
  predicate PatchFits(p: Program, end: nat, above: seq<byte>, aboveExecutable: bool)
    requires |p.code| >= 64
  {
    LongJumpFits(p, end) || JumpAboveFits(p, end, above, aboveExecutable)
  }

  /** Byte x of the function lies in an instruction that was copied, or in padding
      behind the copied code. */
  ghost predicate MayOverwrite(p: Program, slots: seq<Slot>, x: nat)
    requires x < |p.code|
  {
    || (exists i :: 0 <= i < |slots| && !slots[i].resume && slots[i].src <= x < slots[i].src + slots[i].inst.len)
    || (SrcEnd(slots) <= x && exists n :: x < n <= |p.code| && IsPadding(p.code[SrcEnd(slots)..n]))
  }

  lemma {:induction false} CopiedUpTo(p: Program, slots: seq<Slot>, n: nat, x: nat)
    requires |p.code| >= 64 && Tiled(p, slots) && n <= |slots| && x < SrcEnd(slots[..n])
    requires forall i :: 0 <= i < n ==> !slots[i].resume
    ensures exists i :: 0 <= i < |slots| && !slots[i].resume && slots[i].src <= x < slots[i].src + slots[i].inst.len
    decreases n
  {
    hide SlotOk;
    var i := n - 1;
    assert slots[..n][n - 1] == slots[i];
    if x < slots[i].src {
      assert slots[..i][i - 1] == slots[i - 1];
      CopiedUpTo(p, slots, i, x);
    }
  }

  /** Patching never destroys live code: the bytes the enable step overwrites in the
      function (5, or 2 with the jump above it) were copied or are padding. */
  lemma PatchIsSafe(p: Program, slots: seq<Slot>, above: seq<byte>, aboveExecutable: bool, x: nat)
    requires p.Valid() && Built(p, slots) && slots != []
    requires PatchFits(p, SrcEnd(slots), above, aboveExecutable)
    requires x < if LongJumpFits(p, SrcEnd(slots)) then JMP_REL_SIZE else JMP_REL_SHORT_SIZE
    ensures MayOverwrite(p, slots, x)
  {
    hide Faithful, Built;
    BuiltShape(p, slots);
    var last := |slots| - 1;
    assert slots[..|slots|] == slots;
    if slots[last].resume {
      ResumeIsBehindPatch(p, slots);
      assert slots[..last][last - 1] == slots[last - 1];
      CopiedUpTo(p, slots, last, x);
    } else if x < SrcEnd(slots) {
      CopiedUpTo(p, slots, |slots|, x);
    }
  }

  lemma ResumeIsBehindPatch(p: Program, slots: seq<Slot>)
    requires |p.code| >= 64 && Tiled(p, slots) && slots != [] && slots[|slots| - 1].resume
    ensures slots[|slots| - 1].src >= JMP_REL_SIZE && |slots| >= 2
  {
  }

  // ----- when a trampoline can be made -----

  /** The function can be relocated up to an exit. */
  ghost predicate Relocated(p: Program, slots: seq<Slot>) {
    Built(p, slots) && Finished(p, slots)
  }

  /** A trampoline can be made, and there is room for the patch. */
  ghost predicate CanRelocate(p: Program, above: seq<byte>, aboveExecutable: bool)
    requires |p.code| >= 64
  {
    exists slots :: Relocated(p, slots) && PatchFits(p, SrcEnd(slots), above, aboveExecutable)
  }

  lemma BuiltLast(p: Program, s: seq<Slot>)
    requires Built(p, s) && s != []
    ensures var before := s[..|s| - 1];
      Built(p, before) && SrcEnd(before) < |p.code| && s == before + NextSlot(p, before)
  {
    hide NextSlot, Finished, SrcEnd;
  }

  /** Treating instructions one after the other leaves no choice. */
  lemma {:induction false} BuiltIsUnique(p: Program, s: seq<Slot>, t: seq<Slot>)
    requires Built(p, s) && Built(p, t) && |s| <= |t|
    ensures s == t[..|s|]
    decreases |s|
  {
    hide NextSlot, Finished, SrcEnd, Built;
    if s != [] {
      var u := t[..|s|];
      BuiltPrefix(p, t, |s|);
      BuiltLast(p, s);
      BuiltLast(p, u);
      BuiltIsUnique(p, s[..|s| - 1], u[..|s| - 1]);
      assert u[..|s| - 1][..|s| - 1] == u[..|s| - 1];
    }
  }

  /** A part of a sequence is neither finished nor stuck. */
  lemma BuiltGoesOn(p: Program, slots: seq<Slot>, n: nat)
    requires Built(p, slots) && n < |slots|
    ensures !Finished(p, slots[..n]) && SrcEnd(slots[..n]) < |p.code| && NextSlot(p, slots[..n]) != []
  {
    hide NextSlot, Finished;
    BuiltPrefix(p, slots, n + 1);
    assert slots[..n + 1][..n] == slots[..n];
  }

  /** Where building stops, at an exit or at an instruction that cannot be treated,
      decides whether the function can be relocated. */
  lemma StopsAt(p: Program, slots: seq<Slot>, other: seq<Slot>)
    requires Built(p, slots) && Relocated(p, other)
    requires Finished(p, slots) || (SrcEnd(slots) < |p.code| && NextSlot(p, slots) == [])
    ensures slots == other
  {
    hide NextSlot, Finished, Built;
    if |slots| < |other| {
      BuiltIsUnique(p, slots, other);
      BuiltGoesOn(p, other, |slots|);
    } else {
      BuiltIsUnique(p, other, slots);
      if |other| < |slots| {
        BuiltGoesOn(p, slots, |other|);
      }
    }
  }

  lemma StopDecides(p: Program, slots: seq<Slot>, above: seq<byte>, aboveExecutable: bool)
    requires |p.code| >= 64 && Built(p, slots)
    requires Finished(p, slots) || (SrcEnd(slots) < |p.code| && NextSlot(p, slots) == [])
    ensures CanRelocate(p, above, aboveExecutable) <==>
      Finished(p, slots) && PatchFits(p, SrcEnd(slots), above, aboveExecutable)
  {
    hide NextSlot, Finished, Built, PatchFits;
    if other :| Relocated(p, other) && PatchFits(p, SrcEnd(other), above, aboveExecutable) {
      StopsAt(p, slots, other);
    }
    if Finished(p, slots) && PatchFits(p, SrcEnd(slots), above, aboveExecutable) {
      assert Relocated(p, slots);
    }
  }

  // ----- which functions can be relocated, by their opcodes -----

  datatype Class = CallRel | JmpRel | JccRel | ShortOnly | Other

  /** The classes of the Intel manual: CALL rel32, JMP rel8 and rel32, Jcc rel8 (7x) and
      rel32 (0F 8x), and LOOPcc and JCXZ (E0 to E3), which have no long form. */
  function ClassOf(i: Inst): Class {
    if i.opcode == 232 then CallRel
    else if i.opcode == 233 || i.opcode == 235 then JmpRel
    else if i.opcode / 4 == 56 then ShortOnly
    else if i.opcode / 16 == 7 || i.opcode2 / 16 == 8 then JccRel
    else Other
  }

  /** Where a relative branch leads: its operand has 8 bits and a sign in EB, 7x and E0 to
      E3, otherwise 32 bits. */
  function Target(i: Inst, addr: int): u32 {
    var operand :=
      if i.opcode != 235 && i.opcode / 16 != 7 && i.opcode / 4 != 56 then i.imm32
      else if i.imm8 / 128 == 1 then i.imm8 as int - 256
      else i.imm8 as int;
    (addr + i.len + operand) % TWO32
  }

  predicate IsBranch(i: Inst) { ClassOf(i) == JmpRel || ClassOf(i) == JccRel || ClassOf(i) == ShortOnly }

  lemma Classes(i: Inst, addr: int)
    ensures i.IsCall() <==> ClassOf(i) == CallRel
    ensures i.IsJmp() <==> ClassOf(i) == JmpRel
    ensures !i.IsCall() && !i.IsJmp() ==> (i.IsJcc() <==> ClassOf(i) == JccRel || ClassOf(i) == ShortOnly)
    ensures i.IsLoop() <==> ClassOf(i) == ShortOnly
    ensures i.IsRet() <==> i.opcode == 194 || i.opcode == 195
    ensures i.Dest(addr) == Target(i, addr)
  {
  }

  /** A relative branch at offset src that leaves the room of the patch. */
  ghost predicate Leaves(p: Program, src: nat)
    requires src < |p.code|
  {
    IsBranch(p.At(src)) && !(p.target <= Target(p.At(src), p.target + src) <= p.target + 5)
  }

  /** A branch that was copied as it is leads beyond offset src. */
  ghost predicate Pending(p: Program, slots: seq<Slot>, src: nat) {
    exists i :: 0 <= i < |slots| && PendingAt(p, slots[i], src)
  }

  predicate PendingAt(p: Program, s: Slot, src: nat) {
    !s.resume && s.kind == Verbatim && IsBranch(s.inst) && Target(s.inst, p.target + s.src) > p.target + src
  }

  /** The length of what is copied: 5 bytes for calls and for jumps that leave, 6 for
      conditional ones. */
  ghost function NewLength(p: Program, src: nat): nat
    requires src < |p.code|
  {
    var i := p.At(src);
    if ClassOf(i) == CallRel then 5
    else if Leaves(p, src) then if ClassOf(i) == JmpRel then 5 else 6
    else i.len
  }

  /** Why the next instruction is refused: it cannot be decoded, or it leaves and has no
      long form, or it would change its length below a pending branch. */
  ghost predicate Refused(p: Program, slots: seq<Slot>)
    requires SrcEnd(slots) < |p.code|
  {
    var src := SrcEnd(slots);
    || p.At(src).error
    || (src < 5 && ClassOf(p.At(src)) == ShortOnly && Leaves(p, src))
    || (src < 5 && Pending(p, slots, src) && NewLength(p, src) != p.At(src).len)
  }

  /** What becomes of an instruction that is not refused: behind 5 bytes the jump back to
      it, before that a call or a branch that leaves in its long form, and a copy else. */
  ghost function Treated(p: Program, slots: seq<Slot>): Slot
    requires SrcEnd(slots) < |p.code|
  {
    var src, dst := SrcEnd(slots), DstEnd(slots);
    var i := p.At(src);
    var dest := Target(i, p.target + src);
    if src >= 5 then Slot(src, dst, i, Jmp, (p.target + src) % TWO32, true)
    else if ClassOf(i) == CallRel then Slot(src, dst, i, Call, dest, false)
    else if !IsBranch(i) then Slot(src, dst, i, Verbatim, 0, false)
    else if !Leaves(p, src) then Slot(src, dst, i, Verbatim, dest, false)
    else if ClassOf(i) == JmpRel then Slot(src, dst, i, Jmp, dest, false)
    else Slot(src, dst, i, Jcc(if i.opcode == 15 then i.opcode2 % 16 else i.opcode % 16), dest, false)
  }

  ghost predicate CopiesNoCall(slots: seq<Slot>) {
    forall i :: 0 <= i < |slots| && slots[i].kind == Verbatim ==> !slots[i].inst.IsCall()
  }

  lemma {:induction false} BuiltCopiesNoCall(p: Program, slots: seq<Slot>)
    requires Built(p, slots)
    ensures CopiesNoCall(slots)
    decreases |slots|
  {
    hide Inst.Dest, Inst.IsJcc, Inst.IsJmp, Inst.IsLoop, Finished, JmpDest;
    if slots != [] {
      var before := slots[..|slots| - 1];
      BuiltCopiesNoCall(p, before);
      assert NextSlot(p, before) == [slots[|slots| - 1]];
      assert forall i :: 0 <= i < |before| ==> before[i] == slots[i];
    }
  }

  lemma {:induction false} PendingIs(p: Program, slots: seq<Slot>, src: nat)
    requires CopiesNoCall(slots)
    ensures p.target + src < JmpDest(p, slots) <==> Pending(p, slots, src)
    decreases |slots|
  {
    hide Inst.Dest, Target, ClassOf, Inst.IsCall, Inst.IsJmp, Inst.IsJcc, Inst.IsLoop, Inst.IsRet;
    if slots != [] {
      var before, s := slots[..|slots| - 1], slots[|slots| - 1];
      PendingIs(p, before, src);
      Classes(s.inst, p.target + s.src);
      assert forall i :: 0 <= i < |before| ==> before[i] == slots[i];
      assert Pending(p, slots, src) <==> Pending(p, before, src) || PendingAt(p, s, src) by {
        if PendingAt(p, s, src) {
          assert PendingAt(p, slots[|slots| - 1], src);
        }
        if i :| 0 <= i < |before| && PendingAt(p, before[i], src) {
          assert PendingAt(p, slots[i], src);
        }
      }
    }
  }

  /** No pending branch leads beyond the room of the patch. */
  lemma NothingPendingBehind(p: Program, slots: seq<Slot>, src: nat)
    requires p.Valid() && Built(p, slots) && src >= 5
    ensures !Pending(p, slots, src)
  {
    hide Faithful, Built, Inst.Dest, Inst.IsJcc, Inst.IsJmp, Inst.IsCall, Inst.IsLoop, Inst.IsRet, ClassOf, Target;
    if i :| 0 <= i < |slots| && PendingAt(p, slots[i], src) {
      BuiltCopiesNoCall(p, slots);
      Classes(slots[i].inst, p.target + slots[i].src);
      InternalIsNear(p, slots, i);
    }
  }

  /** How one instruction is treated, length check apart. */
  lemma TreatExactly(p: Program, slots: seq<Slot>)
    requires SrcEnd(slots) < |p.code|
    ensures var src := SrcEnd(slots);
      Treat(p, src, DstEnd(slots)) ==
        if p.At(src).error || (src < 5 && ClassOf(p.At(src)) == ShortOnly && Leaves(p, src)) then []
        else [Treated(p, slots)]
    ensures Treated(p, slots).src == SrcEnd(slots) && Treated(p, slots).inst == p.At(SrcEnd(slots))
    ensures Treated(p, slots).Size() == if SrcEnd(slots) >= 5 then 5 else NewLength(p, SrcEnd(slots))
    ensures IsInternalBranch(p, Treated(p, slots)) ==>
      SrcEnd(slots) < 5 && NewLength(p, SrcEnd(slots)) == p.At(SrcEnd(slots)).len
  {
    hide Inst.Dest, Target;
    var src := SrcEnd(slots);
    Classes(p.At(src), p.target + src);
  }

  /** The next instruction is refused, or becomes what is said above. */
  lemma NextSlotExactly(p: Program, slots: seq<Slot>)
    requires p.Valid() && Built(p, slots) && SrcEnd(slots) < |p.code|
    ensures NextSlot(p, slots) == if Refused(p, slots) then [] else [Treated(p, slots)]
  {
    hide Faithful, Built, Treat, Treated, Leaves, Slot.Size, NewLength, Pending, IsInternalBranch;
    var s := Treated(p, slots);
    TreatExactly(p, slots);
    BuiltCopiesNoCall(p, slots);
    PendingIs(p, slots, SrcEnd(slots));
    if SrcEnd(slots) >= 5 {
      NothingPendingBehind(p, slots, SrcEnd(slots));
    }
    assert (slots + [s])[..|slots|] == slots;
  }

  /** The function is complete at the jump back, or at a jump out or a return (C2, C3) that
      no branch passes over. */
  lemma EndsExactly(p: Program, slots: seq<Slot>)
    requires p.Valid() && Built(p, slots) && slots != []
    ensures var s := slots[|slots| - 1];
      Finished(p, slots) <==>
        || s.resume
        || (!Pending(p, slots, s.src)
            && (s.kind == Jmp
                || (s.kind == Verbatim && ClassOf(s.inst) == Other && (s.inst.opcode == 194 || s.inst.opcode == 195))))
  {
    hide Faithful, Built, Pending, Inst.Dest, Target, JmpDest;
    var s := slots[|slots| - 1];
    BuiltCopiesNoCall(p, slots);
    PendingIs(p, slots, s.src);
    Classes(s.inst, p.target + s.src);
  }

  /** A run of one padding byte, 00, 90 or CC. */
  ghost predicate Filled(b: seq<byte>) {
    || (forall i :: 0 <= i < |b| ==> b[i] == 0)
    || (forall i :: 0 <= i < |b| ==> b[i] == 144)
    || (forall i :: 0 <= i < |b| ==> b[i] == 204)
  }

  /** Five bytes copied or padded; or two, with padding in executable memory above. */
  ghost predicate PatchRoom(p: Program, end: nat, above: seq<byte>, aboveExecutable: bool)
    requires |p.code| >= 64
  {
    || end >= 5 || Filled(p.code[end..5])
    || ((end >= 2 || Filled(p.code[end..2])) && aboveExecutable && Filled(above))
  }

  lemma PaddingIsFilled(b: seq<byte>)
    requires b != []
    ensures IsPadding(b) <==> Filled(b)
  {
  }

  lemma PatchRoomExactly(p: Program, end: nat, above: seq<byte>, aboveExecutable: bool)
    requires |p.code| >= 64 && |above| == 5
    ensures PatchFits(p, end, above, aboveExecutable) <==> PatchRoom(p, end, above, aboveExecutable)
    ensures LongJumpFits(p, end) <==> end >= 5 || Filled(p.code[end..5])
  {
    hide IsPadding, Filled;
    if end < 5 {
      PaddingIsFilled(p.code[end..5]);
    }
    if end < 2 {
      PaddingIsFilled(p.code[end..2]);
    }
    PaddingIsFilled(above);
  }

  /** Treating one instruction after the other comes to an end. */
  lemma {:induction false} BuildingStops(p: Program, slots: seq<Slot>) returns (last: seq<Slot>)
    requires p.Valid() && Built(p, slots)
    ensures Built(p, last) && (Finished(p, last) || (SrcEnd(last) < |p.code| && Refused(p, last)))
    decreases 64 - SrcEnd(slots)
  {
    hide Faithful, Finished, NextSlot, Refused, Treated, Treat;
    last := slots;
    BuiltEndsEarly(p, slots);
    if !Finished(p, slots) {
      NextSlotExactly(p, slots);
      if !Refused(p, slots) {
        var more := slots + [Treated(p, slots)];
        assert more[..|more| - 1] == slots;
        NextSlotShape(p, slots);
        last := BuildingStops(p, more);
      }
    }
  }

  ghost predicate StuckAt(p: Program, slots: seq<Slot>) {
    Built(p, slots) && !Finished(p, slots) && SrcEnd(slots) < |p.code| && Refused(p, slots)
  }

  ghost predicate CrampedAt(p: Program, slots: seq<Slot>, above: seq<byte>, aboveExecutable: bool)
    requires |p.code| >= 64
  {
    Relocated(p, slots) && !PatchRoom(p, SrcEnd(slots), above, aboveExecutable)
  }

  /** A function cannot be hooked exactly if one of its instructions is refused before it
      is complete, or it is complete and too short for the patch. */
  lemma UnsupportedExactly(p: Program, above: seq<byte>, aboveExecutable: bool)
    requires p.Valid() && |above| == 5
    ensures !CanRelocate(p, above, aboveExecutable) <==>
      (exists slots :: StuckAt(p, slots)) || (exists slots :: CrampedAt(p, slots, above, aboveExecutable))
  {
    hide Faithful, Built, Finished, NextSlot, Refused, Treated, PatchRoom, PatchFits, CanRelocate;
    assert Built(p, []) by { NothingIsBuilt(p); }
    var last := BuildingStops(p, []);
    forall slots | Built(p, slots) && (Finished(p, slots) || (SrcEnd(slots) < |p.code| && Refused(p, slots)))
      ensures CanRelocate(p, above, aboveExecutable) <==>
        Finished(p, slots) && PatchRoom(p, SrcEnd(slots), above, aboveExecutable)
    {
      if SrcEnd(slots) < |p.code| {
        NextSlotExactly(p, slots);
      }
      StopDecides(p, slots, above, aboveExecutable);
      PatchRoomExactly(p, SrcEnd(slots), above, aboveExecutable);
    }
    assert StuckAt(p, last) || CrampedAt(p, last, above, aboveExecutable) || CanRelocate(p, above, aboveExecutable);
  }

  lemma NothingIsBuilt(p: Program)
    ensures Built(p, [])
  {
  }

  // ----- only the bytes that are copied matter -----

  lemma SamePart(x: seq<byte>, y: seq<byte>, from: nat, end: nat)
    requires from <= end <= |x| && end <= |y| && x[..end] == y[..end]
    ensures x[..from] == y[..from] && x[from..end] == y[from..end]
    ensures x[from..][..end - from] == y[from..][..end - from]
  {
    assert x[..from] == x[..end][..from] && y[..from] == y[..end][..from];
    assert x[from..end] == x[..end][from..] && y[from..end] == y[..end][from..];
    assert x[from..][..end - from] == x[from..end] && y[from..][..end - from] == y[from..end];
  }

  lemma {:induction false} BuiltFromSame(p: Program, q: Program, slots: seq<Slot>)
    requires p.Valid() && q.Valid() && p.dis == q.dis && p.target == q.target && Built(p, slots)
    requires SrcEnd(slots) <= |p.code| && SrcEnd(slots) <= |q.code|
    requires p.code[..SrcEnd(slots)] == q.code[..SrcEnd(slots)]
    ensures Built(q, slots)
    decreases |slots|
  {
    hide Faithful, Finished, NextSlot;
    if slots != [] {
      var before, s := slots[..|slots| - 1], slots[|slots| - 1];
      NextSlotShape(p, before);
      SamePart(p.code, q.code, s.src, SrcEnd(slots));
      BuiltFromSame(p, q, before);
      FinishedFromSame(p, q, before);
      NextFromSame(p, q, before, s);
    }
  }

  lemma NextFromSame(p: Program, q: Program, before: seq<Slot>, s: Slot)
    requires p.Valid() && q.Valid() && p.dis == q.dis && p.target == q.target
    requires SrcEnd(before) < |p.code| && SrcEnd(before) < |q.code| && NextSlot(p, before) == [s]
    requires s.src == SrcEnd(before) && s.inst == p.At(s.src) && !s.inst.error
    requires s.src + s.inst.len <= |p.code| && s.src + s.inst.len <= |q.code|
    requires p.code[s.src..][..s.inst.len] == q.code[s.src..][..s.inst.len]
    ensures NextSlot(q, before) == [s]
  {
    hide Faithful, JmpDest, Inst.Dest, Inst.IsJcc, Inst.IsJmp;
    SameInstruction(p.dis, p.code[s.src..], q.code[s.src..]);
    DestFromSame(p, q, before + [s]);
    assert Treat(q, s.src, DstEnd(before)) == Treat(p, s.src, DstEnd(before)) == [s];
  }

  lemma {:induction false} DestFromSame(p: Program, q: Program, slots: seq<Slot>)
    requires p.target == q.target
    ensures JmpDest(p, slots) == JmpDest(q, slots)
    decreases |slots|
  {
    hide Inst.Dest, Inst.IsJcc, Inst.IsJmp;
    if slots != [] {
      DestFromSame(p, q, slots[..|slots| - 1]);
    }
  }

  lemma FinishedFromSame(p: Program, q: Program, slots: seq<Slot>)
    requires p.target == q.target
    ensures Finished(p, slots) <==> Finished(q, slots)
  {
    hide JmpDest;
    DestFromSame(p, q, slots);
  }

  lemma {:induction false} ResolvedFromSame(p: Program, q: Program, slots: seq<Slot>, trampoline: u32)
    requires |p.code| >= 64 && |q.code| >= 64 && Tiled(p, slots) && InCode(p, slots) && p.dis == q.dis
    requires SrcEnd(slots) <= |p.code| && SrcEnd(slots) <= |q.code|
    requires p.code[..SrcEnd(slots)] == q.code[..SrcEnd(slots)]
    ensures InCode(q, slots) && AllResolved(q, slots, trampoline) == AllResolved(p, slots, trampoline)
    decreases |slots|
  {
    hide SlotOk, Resolved, Tiled;
    if slots != [] {
      var before, s := slots[..|slots| - 1], slots[|slots| - 1];
      TiledInit(p, slots);
      assert SrcEnd(before) == s.src by { SourcesMeet(p, slots); }
      SamePart(p.code, q.code, s.src, SrcEnd(slots));
      ResolvedFromSame(p, q, before, trampoline);
      SlotFromSame(p, q, s, trampoline);
    }
  }

  lemma SourcesMeet(p: Program, slots: seq<Slot>)
    requires |p.code| >= 64 && Tiled(p, slots) && slots != []
    ensures SrcEnd(slots[..|slots| - 1]) == slots[|slots| - 1].src
  {
    hide SlotOk;
    if |slots| > 1 {
      assert slots[..|slots| - 1][|slots| - 2] == slots[|slots| - 2];
    }
  }

  lemma SlotFromSame(p: Program, q: Program, s: Slot, trampoline: u32)
    requires s.src + s.inst.len <= |p.code| && s.src + s.inst.len <= |q.code|
    requires p.code[s.src..s.src + s.inst.len] == q.code[s.src..s.src + s.inst.len]
    ensures Resolved(p, s, trampoline) == Resolved(q, s, trampoline)
  {
    hide WriteLE32;
  }

  // ----- the two passes -----

  function Sources(slots: seq<Slot>): seq<nat> {
    seq(|slots|, i requires 0 <= i < |slots| => slots[i].src)
  }

  function Destinations(slots: seq<Slot>): seq<nat> {
    seq(|slots|, i requires 0 <= i < |slots| => slots[i].dst)
  }

  lemma OneMoreSlot(p: Program, slots: seq<Slot>, s: Slot)
    requires InCode(p, slots) && s.src + s.inst.len <= |p.code|
    ensures InCode(p, slots + [s]) && SrcEnd(slots + [s]) == s.src + s.inst.len
    ensures DstEnd(slots + [s]) == s.dst + s.Size()
    ensures Templates(p, slots + [s]) == Templates(p, slots) + Template(p, s)
    ensures TempAddrs(slots + [s]) == TempAddrs(slots) + TempAddrs([s])
    ensures Sources(slots + [s]) == Sources(slots) + [s.src]
    ensures Destinations(slots + [s]) == Destinations(slots) + [s.dst]
    ensures JmpDest(p, slots + [s]) ==
      if IsInternalBranch(p, s) then Max(JmpDest(p, slots), s.inst.Dest(p.target + s.src)) else JmpDest(p, slots)
  {
    hide Inst.Dest, IsInternalBranch, Template;
    assert (slots + [s])[..|slots|] == slots;
    assert [s][..0] == [];
  }


  class CreateTrampoline {
    const p: Program
    var trampoline: seq<byte>
    var tempAddr: seq<TempAddr>
    var oldIPs: seq<nat>
    var newIPs: seq<nat>
    var patchAbove: bool
    ghost var slots: seq<Slot>

    constructor (p: Program)
      ensures this.p == p && trampoline == [] && tempAddr == [] && oldIPs == [] && newIPs == [] && !patchAbove
      ensures slots == []
    {
      this.p := p;
      trampoline, tempAddr, oldIPs, newIPs, patchAbove := [], [], [], [], false;
      slots := [];
    }

    /** The vectors hold what the slots say, relative to the function and the trampoline. */
    ghost predicate Reflects()
      reads this
    {
      && InCode(p, slots)
      && trampoline == Templates(p, slots) && tempAddr == TempAddrs(slots)
      && oldIPs == Sources(slots) && newIPs == Destinations(slots)
    }

    method AppendTempAddress(address: u32, pos: nat, size: nat)
      requires size >= 4
      modifies `tempAddr
      ensures tempAddr == old(tempAddr) + [TempAddr(address, pos + size - 4, pos + size)]
    {
      tempAddr := tempAddr + [TempAddr(address, pos + (size - 4), pos + size)];
    }

    /** The branches of the loop: what is copied for one instruction. */
    method CopyInstruction(oldPos: nat, newPos: nat, jmpDest: nat, hs: Inst)
      returns (ok: bool, copySrc: seq<byte>, jmpDest': nat, finished: bool, ghost slot: Slot)
      requires p.Valid() && oldPos < 20 && hs == p.At(oldPos) && !hs.error && oldPos + hs.len <= |p.code|
      modifies `tempAddr
      ensures slot.src == oldPos && slot.dst == newPos && slot.inst == hs
      ensures ok <==> Treat(p, oldPos, newPos) != []
      ensures ok ==> Treat(p, oldPos, newPos) == [slot]
      ensures ok ==> copySrc == Template(p, slot) && tempAddr == old(tempAddr) + TempAddrs([slot])
      ensures ok ==>
        jmpDest' == if IsInternalBranch(p, slot) then Max(jmpDest, hs.Dest(p.target + oldPos)) else jmpDest
      ensures ok ==> finished == Exits(p, slot, jmpDest')
    {
      hide Faithful, Inst.Dest;
      var pInst := p.target + oldPos;
      slot := Slot(oldPos, newPos, hs, Verbatim, 0, false);
      copySrc := p.code[oldPos..oldPos + hs.len];
      ok, jmpDest', finished := true, jmpDest, false;
      if oldPos >= JMP_REL_SIZE {
        AppendTempAddress(pInst, newPos, 5);
        copySrc := [0xE9, 0, 0, 0, 0];
        finished := true;
        slot := Slot(oldPos, newPos, hs, Jmp, pInst, true);
      } else if hs.IsCall() {
        var dest := hs.Dest(pInst);
        AppendTempAddress(dest, newPos, 5);
        copySrc := [0xE8, 0, 0, 0, 0];
        slot := Slot(oldPos, newPos, hs, Call, dest, false);
      } else if hs.IsJmp() {
        var dest := hs.Dest(pInst);
        slot := Slot(oldPos, newPos, hs, if p.IsInternal(dest) then Verbatim else Jmp, dest, false);
        if p.IsInternal(dest) {
          jmpDest' := Max(jmpDest, dest);
        } else {
          AppendTempAddress(dest, newPos, 5);
          copySrc := [0xE9, 0, 0, 0, 0];
          finished := pInst >= jmpDest';
        }
      } else if hs.IsJcc() {
        var dest := hs.Dest(pInst);
        slot := Slot(oldPos, newPos, hs, Verbatim, dest, false);
        if p.IsInternal(dest) {
          jmpDest' := Max(jmpDest, dest);
        } else if hs.IsLoop() {
          ok := false;
        } else {
          AppendTempAddress(dest, newPos, 6);
          copySrc := [0x0F, 0x80 + hs.Condition(), 0, 0, 0, 0];
          slot := Slot(oldPos, newPos, hs, Jcc(hs.Condition()), dest, false);
        }
      } else if hs.IsRet() {
        finished := pInst >= jmpDest';
      }
      assert [slot][..0] == [];
    }

    /** One turn of the loop: treats the instruction after `slots`. */
    method AppendInstruction(oldPos: nat, newPos: nat, jmpDest: nat)
      returns (ok: bool, oldPos': nat, newPos': nat, jmpDest': nat, finished: bool)
      requires p.Valid() && Built(p, slots) && !Finished(p, slots) && Reflects()
      requires oldPos == SrcEnd(slots) && newPos == DstEnd(slots) && jmpDest == JmpDest(p, slots) && oldPos < 20
      modifies `trampoline, `tempAddr, `oldIPs, `newIPs, `slots
      ensures ok <==> NextSlot(p, old(slots)) != []
      ensures !ok ==> slots == old(slots)
      ensures ok ==> slots == old(slots) + NextSlot(p, old(slots)) && Built(p, slots) && Reflects()
      ensures ok ==> oldPos' == SrcEnd(slots) && newPos' == DstEnd(slots) && jmpDest' == JmpDest(p, slots)
      ensures ok ==> finished == Finished(p, slots) && oldPos' > oldPos
    {
      hide Faithful, Inst.Dest, Treat, Template, Templates, TempAddrs, JmpDest, Sources, Destinations, Exits,
        IsInternalBranch;
      oldPos', newPos', jmpDest', finished := oldPos, newPos, jmpDest, false;
      var pInst := p.target + oldPos;
      var hs := p.At(oldPos);
      if hs.error {
        ErrorIsNotTreated(p, oldPos, newPos);
        return false, oldPos, newPos, jmpDest, false;
      }
      LengthOf(p.dis, p.code[oldPos..]);
      var copySrc;
      ghost var slot;
      ok, copySrc, jmpDest', finished, slot := CopyInstruction(oldPos, newPos, jmpDest, hs);
      if !ok {
        return;
      }
      OneMoreSlot(p, slots, slot);
      if pInst < jmpDest' && |copySrc| != hs.len {
        ok := false;
        return;
      }
      trampoline := trampoline + copySrc;
      oldIPs := oldIPs + [oldPos];
      oldPos' := oldPos + hs.len;
      newIPs := newIPs + [newPos];
      newPos' := newPos + |copySrc|;
      slots := slots + [slot];
      assert slots[..|slots| - 1] == old(slots);
    }

    /** Succeeds exactly when every instruction up to the exit can be relocated and
        there is room for the patch. */
    method CreateTrampolineFunction(above: seq<byte>, aboveExecutable: bool) returns (ok: bool)
      requires p.Valid() && |above| == JMP_REL_SIZE
      requires trampoline == [] && tempAddr == [] && oldIPs == [] && newIPs == [] && !patchAbove && slots == []
      modifies this
      ensures ok <==> CanRelocate(p, above, aboveExecutable)
      ensures Built(p, slots)
      ensures ok ==> Finished(p, slots) && Reflects() && oldIPs != []
      ensures ok ==> patchAbove == !LongJumpFits(p, SrcEnd(slots))
      ensures ok ==> patchAbove ==> JumpAboveFits(p, SrcEnd(slots), above, aboveExecutable)
      ensures !ok ==> StuckAt(p, slots) || CrampedAt(p, slots, above, aboveExecutable)
    {
      hide Faithful, Inst.Dest, Treat, Template, Exits, IsInternalBranch, NextSlot, CanRelocate, Refused, PatchRoom;
      var oldPos, newPos, jmpDest, finished := 0, 0, 0, false;
      while !finished
        invariant Built(p, slots) && finished == Finished(p, slots) && Reflects() && !patchAbove
        invariant oldPos == SrcEnd(slots) && newPos == DstEnd(slots) && jmpDest == JmpDest(p, slots)
        decreases !finished, 20 - oldPos
      {
        BuiltEndsEarly(p, slots);
        ok, oldPos, newPos, jmpDest, finished := AppendInstruction(oldPos, newPos, jmpDest);
        if !ok {
          StopDecides(p, slots, above, aboveExecutable);
          NextSlotExactly(p, slots);
          return;
        }
      }
      BuiltEndsEarly(p, slots);
      StopDecides(p, slots, above, aboveExecutable);
      PatchRoomExactly(p, SrcEnd(slots), above, aboveExecutable);
      var longFits := oldPos >= JMP_REL_SIZE;
      if !longFits {
        longFits := IsCodePadding(p.code[oldPos..JMP_REL_SIZE]);
      }
      if !longFits {
        var shortFits := oldPos >= JMP_REL_SHORT_SIZE;
        if !shortFits {
          shortFits := IsCodePadding(p.code[oldPos..JMP_REL_SHORT_SIZE]);
        }
        if !shortFits {
          return false;
        }
        if !aboveExecutable {
          return false;
        }
        var aboveFits := IsCodePadding(above);
        if !aboveFits {
          return false;
        }
        patchAbove := true;
      }
      ok := true;
    }

    /** Fills in the operands and makes the instruction pointers absolute. */
    method ResolveTemporaryAddresses(pTrampoline: u32) returns (ok: bool)
      requires p.Valid() && Built(p, slots) && Reflects()
      modifies `trampoline, `oldIPs, `newIPs
      ensures ok && trampoline == AllResolved(p, slots, pTrampoline)
      ensures var above := if patchAbove then 1 else 0;
        && |oldIPs| == |newIPs| == |slots| + above
        && (forall i :: 0 <= i < |slots| ==>
              oldIPs[i] == p.target + slots[i].src && newIPs[i] == pTrampoline + slots[i].dst)
        && (patchAbove ==> oldIPs[|slots|] == p.target && newIPs[|slots|] == p.target - JMP_REL_SIZE)
    {
      hide Faithful, Built, Template, Resolved, Templates, AllResolved, TempAddrs, Store;
      BuiltShape(p, slots);
      BytesTile(p, slots, pTrampoline);
      PatchingResolves(p, slots, [], pTrampoline);
      ghost var template := trampoline;
      ghost var resolved := AllResolved(p, slots, pTrampoline);
      assert Templates(p, slots) + [] == template && resolved + [] == resolved;
      for i := 0 to |tempAddr|
        modifies `trampoline
        invariant Fits(tempAddr[..i], |template|) && |trampoline| == |template|
        invariant trampoline == Patched(template, tempAddr[..i], pTrampoline)
      {
        var ta := tempAddr[i];
        assert ta in tempAddr;
        if ta.position > |trampoline| - 4 {
          return false;
        }
        var done := tempAddr[..i + 1];
        assert done[..|done| - 1] == tempAddr[..i];
        trampoline := Store(trampoline, ta, pTrampoline);
      }
      assert tempAddr[..|tempAddr|] == tempAddr;
      ShiftIPs(pTrampoline);
      ok := true;
    }

    method ShiftIPs(pTrampoline: u32)
      requires oldIPs == Sources(slots) && newIPs == Destinations(slots) && p.target >= 5
      modifies `oldIPs, `newIPs
      ensures var above := if patchAbove then 1 else 0;
        && |oldIPs| == |newIPs| == |slots| + above
        && (forall i :: 0 <= i < |slots| ==>
              oldIPs[i] == p.target + slots[i].src && newIPs[i] == pTrampoline + slots[i].dst)
        && (patchAbove ==> oldIPs[|slots|] == p.target && newIPs[|slots|] == p.target - JMP_REL_SIZE)
    {
      for i := 0 to |oldIPs|
        invariant |oldIPs| == |newIPs| == |slots|
        invariant forall j :: 0 <= j < |slots| ==> oldIPs[j] == slots[j].src + if j < i then p.target else 0
        invariant forall j :: 0 <= j < |slots| ==> newIPs[j] == slots[j].dst + if j < i then pTrampoline else 0
      {
        oldIPs := oldIPs[i := oldIPs[i] + p.target];
        newIPs := newIPs[i := newIPs[i] + pTrampoline];
      }
      if patchAbove {
        oldIPs := oldIPs + [p.target];
        newIPs := newIPs + [p.target - JMP_REL_SIZE];
      }
    }
  }

  lemma BuiltEndsEarly(p: Program, slots: seq<Slot>)
    requires p.Valid() && Built(p, slots)
    ensures SrcEnd(slots) < 35 && (!Finished(p, slots) ==> SrcEnd(slots) < 20) && InCode(p, slots)
  {
    hide Faithful, Built, Finished;
    BuiltShape(p, slots);
    TiledEnds(p, slots);
    if slots != [] && slots[|slots| - 1].resume {
      FinishedAfterResume(p, slots);
    }
  }

  lemma ErrorIsNotTreated(p: Program, src: nat, dst: nat)
    requires src < |p.code| && p.At(src).error
    ensures Treat(p, src, dst) == []
  {
  }
}
