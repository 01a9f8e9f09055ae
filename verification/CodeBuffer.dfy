/** The allocator behind the hooks, in the 32-bit configuration: blocks of reserved
    memory from which small buffers are cut, kept or given up together. */
module CodeBuffer {
  import opened Options
  import opened Words

  const BLOCK_SIZE: int := 0x10000
  const ALIGNMENT: int := 4

  datatype Protect = ExecuteRead | ReadOnly

  datatype MemoryBlock = MemoryBlock(
    address: u32, protect: Protect, uncommittedSize: nat, uncommittedCount: nat, fixedSize: nat, fixedCount: nat)
  {
    function Next(): int { address + fixedSize + uncommittedSize }

    predicate Fits(protect: Protect, capacity: nat) {
      this.protect == protect && fixedSize + uncommittedSize + capacity <= BLOCK_SIZE
    }

    function Grown(size: nat): MemoryBlock {
      this.(uncommittedSize := uncommittedSize + size, uncommittedCount := uncommittedCount + 1)
    }

    function Committed(): MemoryBlock {
      if uncommittedSize == 0 then this
      else this.(fixedSize := fixedSize + uncommittedSize, uncommittedSize := 0,
                 fixedCount := fixedCount + uncommittedCount, uncommittedCount := 0)
    }

    predicate IsIdle() { fixedCount == 0 && uncommittedSize == 0 }
  }

  function Fresh(address: u32, protect: Protect): MemoryBlock {
    MemoryBlock(address, protect, 0, 0, 0, 0)
  }

  /** A buffer handed out. */
  datatype Alloc = Alloc(address: int, size: nat) {
    function End(): int { address + size }
  }

  predicate Apart(a: Alloc, b: Alloc) {
    a.End() <= b.address || b.End() <= a.address
  }

  /** The size of a request, rounded up to the alignment of a pointer. */
  function Rounded(size: u32): (r: nat)
    requires 0 < size <= TWO32 - ALIGNMENT
    ensures r % ALIGNMENT == 0 && size <= r < size + ALIGNMENT
  {
    (size + ALIGNMENT - 1) / ALIGNMENT * ALIGNMENT
  }

  // ----- the invariant -----

  ghost predicate BlockOk(b: MemoryBlock) {
    && b.address > 0 && b.address % ALIGNMENT == 0 && b.address + BLOCK_SIZE <= TWO32
    && b.fixedSize % ALIGNMENT == 0 && b.uncommittedSize % ALIGNMENT == 0
    && b.fixedSize + b.uncommittedSize <= BLOCK_SIZE && (b.uncommittedSize > 0 ==> b.uncommittedCount > 0)
  }

  ghost predicate AllBlocksOk(blocks: seq<MemoryBlock>) {
    forall b :: b in blocks ==> BlockOk(b)
  }

  ghost predicate Around(b: MemoryBlock, x: int) {
    b.address <= x < b.address + BLOCK_SIZE
  }

  ghost predicate BlocksApart(b: MemoryBlock, c: MemoryBlock) {
    b.address + BLOCK_SIZE <= c.address || c.address + BLOCK_SIZE <= b.address
  }

  ghost predicate SpacedOut(blocks: seq<MemoryBlock>) {
    forall i, j :: 0 <= i < j < |blocks| ==> BlocksApart(blocks[i], blocks[j])
  }

  ghost function Within(allocs: set<Alloc>, b: MemoryBlock): set<Alloc> {
    set a | a in allocs && Around(b, a.address)
  }

  ghost predicate Counts(blocks: seq<MemoryBlock>, live: set<Alloc>, pending: set<Alloc>) {
    forall b :: b in blocks ==> b.fixedCount == |Within(live, b)| && b.uncommittedCount == |Within(pending, b)|
  }

  /** Buffer a lies in the committed or in the uncommitted part of b. */
  ghost predicate InPart(a: Alloc, b: MemoryBlock, committed: bool) {
    if committed then b.address <= a.address && a.End() <= b.address + b.fixedSize
    else b.address + b.fixedSize <= a.address && a.End() <= b.Next()
  }

  ghost predicate Housed(blocks: seq<MemoryBlock>, allocs: set<Alloc>, committed: bool) {
    forall a :: a in allocs ==>
      a.size > 0 && a.address % ALIGNMENT == 0 && exists b :: b in blocks && InPart(a, b, committed)
  }

  ghost predicate AllApart(allocs: set<Alloc>) {
    forall a, b :: a in allocs && b in allocs && a != b ==> Apart(a, b)
  }

  /** The committed and the pending buffers are aligned, not empty, apart from each
      other and inside the right part of their block, and each block counts its own. */
  ghost predicate Sound(blocks: seq<MemoryBlock>, live: set<Alloc>, pending: set<Alloc>) {
    && SpacedOut(blocks) && AllBlocksOk(blocks) && Counts(blocks, live, pending)
    && Housed(blocks, live, true) && Housed(blocks, pending, false) && AllApart(live + pending)
  }

  ghost function Bases(blocks: seq<MemoryBlock>): set<u32> {
    set b | b in blocks :: b.address
  }

  /** No block without buffers. */
  ghost predicate NoneIdle(blocks: seq<MemoryBlock>) {
    forall b :: b in blocks ==> !b.IsIdle()
  }

  // ----- buffers and their blocks -----

  lemma SameBlock(blocks: seq<MemoryBlock>, i: nat, j: nat, x: int)
    requires SpacedOut(blocks) && i < |blocks| && j < |blocks| && Around(blocks[i], x) && Around(blocks[j], x)
    ensures i == j
  {
  }

  /** The block a buffer lies in. */
  lemma HomeOf(blocks: seq<MemoryBlock>, allocs: set<Alloc>, committed: bool, a: Alloc) returns (i: nat)
    requires AllBlocksOk(blocks) && Housed(blocks, allocs, committed) && a in allocs
    ensures i < |blocks| && InPart(a, blocks[i], committed) && Around(blocks[i], a.address)
  {
    var b :| b in blocks && InPart(a, b, committed);
    i :| 0 <= i < |blocks| && blocks[i] == b;
    assert BlockOk(b);
  }

  /** A buffer found around a block lies in that block. */
  lemma WithinIsInPart(blocks: seq<MemoryBlock>, allocs: set<Alloc>, committed: bool, a: Alloc, j: nat)
    requires SpacedOut(blocks) && AllBlocksOk(blocks) && Housed(blocks, allocs, committed) && a in allocs
    requires j < |blocks| && Around(blocks[j], a.address)
    ensures InPart(a, blocks[j], committed)
  {
    hide SpacedOut, AllBlocksOk, Housed, InPart, Around;
    var i := HomeOf(blocks, allocs, committed, a);
    SameBlock(blocks, i, j, a.address);
  }

  // ----- a new block -----

  ghost predicate CanReserve(blocks: seq<MemoryBlock>, address: u32) {
    && address > 0 && address % ALIGNMENT == 0 && address + BLOCK_SIZE <= TWO32
    && forall b :: b in blocks ==> BlocksApart(b, Fresh(address, ReadOnly))
  }

  lemma OneMoreBlock(blocks: seq<MemoryBlock>, f: MemoryBlock)
    requires SpacedOut(blocks) && AllBlocksOk(blocks) && CanReserve(blocks, f.address)
    requires f == Fresh(f.address, f.protect)
    ensures SpacedOut(blocks + [f]) && AllBlocksOk(blocks + [f])
  {
    forall i, j | 0 <= i < j < |blocks + [f]|
      ensures BlocksApart((blocks + [f])[i], (blocks + [f])[j])
    {
      if j == |blocks| {
        assert blocks[i] in blocks && BlocksApart(blocks[i], Fresh(f.address, ReadOnly));
      }
    }
  }

  lemma HousedInMore(blocks: seq<MemoryBlock>, allocs: set<Alloc>, committed: bool, f: MemoryBlock)
    requires AllBlocksOk(blocks) && Housed(blocks, allocs, committed) && SpacedOut(blocks + [f])
    ensures Housed(blocks + [f], allocs, committed) && Within(allocs, f) == {}
  {
    hide SpacedOut, AllBlocksOk;
    var more := blocks + [f];
    forall a | a in allocs
      ensures exists b :: b in more && InPart(a, b, committed)
      ensures !Around(f, a.address)
    {
      var i := HomeOf(blocks, allocs, committed, a);
      assert more[i] == blocks[i] && more[i] in more && more[|blocks|] == f;
      if Around(f, a.address) {
        SameBlock(more, i, |blocks|, a.address);
      }
    }
  }

  lemma FreshKeepsSound(blocks: seq<MemoryBlock>, live: set<Alloc>, pending: set<Alloc>, f: MemoryBlock)
    requires Sound(blocks, live, pending) && CanReserve(blocks, f.address) && f == Fresh(f.address, f.protect)
    ensures Sound(blocks + [f], live, pending)
  {
    hide SpacedOut, AllBlocksOk, Housed, AllApart, CanReserve, Within;
    OneMoreBlock(blocks, f);
    HousedInMore(blocks, live, true, f);
    HousedInMore(blocks, pending, false, f);
  }

  // ----- allocating -----

  /** The next buffer of a block is apart from all others. */
  lemma NextIsApart(blocks: seq<MemoryBlock>, allocs: set<Alloc>, committed: bool, i: nat, a: Alloc, x: Alloc)
    requires SpacedOut(blocks) && AllBlocksOk(blocks) && Housed(blocks, allocs, committed) && x in allocs
    requires i < |blocks| && a.address == blocks[i].Next() && a.size > 0 && a.End() <= blocks[i].address + BLOCK_SIZE
    ensures Apart(a, x)
  {
    hide Housed;
    var j := HomeOf(blocks, allocs, committed, x);
    assert BlockOk(blocks[i]) && BlockOk(blocks[j]);
    if i < j {
      assert BlocksApart(blocks[i], blocks[j]);
    } else if j < i {
      assert BlocksApart(blocks[j], blocks[i]);
    }
  }

  lemma GrowKeepsHoused(blocks: seq<MemoryBlock>, allocs: set<Alloc>, committed: bool, i: nat, size: nat)
    requires AllBlocksOk(blocks) && Housed(blocks, allocs, committed) && i < |blocks|
    ensures Housed(blocks[i := blocks[i].Grown(size)], allocs, committed)
  {
    hide AllBlocksOk;
    var grown := blocks[i := blocks[i].Grown(size)];
    forall a | a in allocs
      ensures exists b :: b in grown && InPart(a, b, committed)
    {
      var j := HomeOf(blocks, allocs, committed, a);
      assert grown[j] in grown && InPart(a, grown[j], committed);
    }
  }

  lemma GrowKeepsBlocks(blocks: seq<MemoryBlock>, i: nat, size: nat)
    requires SpacedOut(blocks) && AllBlocksOk(blocks) && i < |blocks|
    requires size % ALIGNMENT == 0 && blocks[i].fixedSize + blocks[i].uncommittedSize + size <= BLOCK_SIZE
    ensures SpacedOut(blocks[i := blocks[i].Grown(size)]) && AllBlocksOk(blocks[i := blocks[i].Grown(size)])
  {
    assert blocks[i] in blocks && BlockOk(blocks[i]);
    var grown := blocks[i := blocks[i].Grown(size)];
    forall j, k | 0 <= j < k < |grown|
      ensures BlocksApart(grown[j], grown[k])
    {
      assert BlocksApart(blocks[j], blocks[k]);
    }
  }

  lemma GrowCounts(blocks: seq<MemoryBlock>, pending: set<Alloc>, i: nat, a: Alloc, j: nat)
    requires SpacedOut(blocks) && i < |blocks| && j < |blocks| && a !in pending && Around(blocks[i], a.address)
    ensures |Within(pending + {a}, blocks[j])| == |Within(pending, blocks[j])| + if j == i then 1 else 0
  {
    hide SpacedOut, Around;
    var was, now := Within(pending, blocks[j]), Within(pending + {a}, blocks[j]);
    if j == i {
      assert now == was + {a};
    } else {
      if Around(blocks[j], a.address) {
        SameBlock(blocks, i, j, a.address);
      }
      assert now == was;
    }
  }

  lemma GrowKeepsCounts(blocks: seq<MemoryBlock>, live: set<Alloc>, pending: set<Alloc>, i: nat, a: Alloc)
    requires SpacedOut(blocks) && Counts(blocks, live, pending) && i < |blocks|
    requires a !in pending && Around(blocks[i], a.address)
    ensures Counts(blocks[i := blocks[i].Grown(a.size)], live, pending + {a})
  {
    hide SpacedOut, Within, Around;
    var grown := blocks[i := blocks[i].Grown(a.size)];
    forall j | 0 <= j < |blocks|
      ensures grown[j].fixedCount == |Within(live, grown[j])|
      ensures grown[j].uncommittedCount == |Within(pending + {a}, grown[j])|
    {
      assert blocks[j] in blocks;
      SameWithin(live, blocks[j], grown[j]);
      SameWithin(pending + {a}, blocks[j], grown[j]);
      GrowCounts(blocks, pending, i, a, j);
    }
  }

  lemma SameWithin(allocs: set<Alloc>, b: MemoryBlock, c: MemoryBlock)
    requires b.address == c.address
    ensures Within(allocs, b) == Within(allocs, c)
  {
  }

  /** The buffer cut off next is aligned, new and apart from all others. */
  lemma GrowKeepsSound(blocks: seq<MemoryBlock>, live: set<Alloc>, pending: set<Alloc>, i: nat, size: nat)
    requires Sound(blocks, live, pending) && i < |blocks|
    requires size > 0 && size % ALIGNMENT == 0 && blocks[i].fixedSize + blocks[i].uncommittedSize + size <= BLOCK_SIZE
    ensures var a := Alloc(blocks[i].Next(), size);
      && (forall x :: x in live + pending ==> Apart(a, x)) && a !in live + pending
      && Sound(blocks[i := blocks[i].Grown(size)], live, pending + {a})
  {
    hide SpacedOut, Counts, Housed;
    var a := Alloc(blocks[i].Next(), size);
    var grown := blocks[i := blocks[i].Grown(size)];
    assert blocks[i] in blocks && BlockOk(blocks[i]);
    forall x | x in live + pending
      ensures Apart(a, x)
    {
      NextIsApart(blocks, if x in live then live else pending, x in live, i, a, x);
    }
    assert !Apart(a, a);
    GrowKeepsHoused(blocks, live, true, i, size);
    GrowKeepsHoused(blocks, pending, false, i, size);
    NewIsHoused(grown, pending, i, a);
    GrowKeepsBlocks(blocks, i, size);
    GrowKeepsCounts(blocks, live, pending, i, a);
    assert live + (pending + {a}) == live + pending + {a};
  }

  lemma NewIsHoused(blocks: seq<MemoryBlock>, allocs: set<Alloc>, i: nat, a: Alloc)
    requires Housed(blocks, allocs, false) && i < |blocks| && InPart(a, blocks[i], false)
    requires a.size > 0 && a.address % ALIGNMENT == 0
    ensures Housed(blocks, allocs + {a}, false)
  {
    assert blocks[i] in blocks;
  }

  // ----- committing -----

  function AllCommitted(blocks: seq<MemoryBlock>): seq<MemoryBlock> {
    seq(|blocks|, i requires 0 <= i < |blocks| => blocks[i].Committed())
  }

  lemma CommitKeepsBlocks(blocks: seq<MemoryBlock>)
    requires SpacedOut(blocks) && AllBlocksOk(blocks)
    ensures SpacedOut(AllCommitted(blocks)) && AllBlocksOk(AllCommitted(blocks))
  {
    var done := AllCommitted(blocks);
    forall i | 0 <= i < |blocks|
      ensures BlockOk(done[i])
    {
      assert BlockOk(blocks[i]);
    }
    forall i, j | 0 <= i < j < |blocks|
      ensures BlocksApart(done[i], done[j])
    {
      assert BlocksApart(blocks[i], blocks[j]);
    }
  }

  lemma CommitKeepsHoused(blocks: seq<MemoryBlock>, allocs: set<Alloc>, committed: bool)
    requires AllBlocksOk(blocks) && Housed(blocks, allocs, committed)
    ensures Housed(AllCommitted(blocks), allocs, true)
  {
    hide AllBlocksOk;
    var done := AllCommitted(blocks);
    forall a | a in allocs
      ensures exists b :: b in done && InPart(a, b, true)
    {
      var i := HomeOf(blocks, allocs, committed, a);
      assert done[i] in done && InPart(a, done[i], true);
    }
  }

  /** A block whose uncommitted part is empty has nothing pending. */
  lemma NothingPending(blocks: seq<MemoryBlock>, live: set<Alloc>, pending: set<Alloc>, i: nat)
    requires Sound(blocks, live, pending) && i < |blocks| && blocks[i].uncommittedSize == 0
    ensures Within(pending, blocks[i]) == {} && blocks[i].uncommittedCount == 0
  {
    hide SpacedOut, AllBlocksOk, AllApart, Around;
    forall a | a in pending && Around(blocks[i], a.address)
      ensures false
    {
      WithinIsInPart(blocks, pending, false, a, i);
    }
    assert blocks[i] in blocks;
  }

  /** With nothing pending, no block has uncommitted space. */
  lemma NothingUncommitted(blocks: seq<MemoryBlock>, live: set<Alloc>)
    requires Sound(blocks, live, {})
    ensures forall b :: b in blocks ==> b.uncommittedSize == 0 && b.uncommittedCount == 0
  {
    hide SpacedOut, AllApart, Housed;
    forall b | b in blocks ensures Within({}, b) == {} && BlockOk(b) {
    }
  }

  lemma OneAddress(blocks: seq<MemoryBlock>, live: set<Alloc>, pending: set<Alloc>, a: Alloc, b: Alloc)
    requires Sound(blocks, live, pending) && a in live && b in live && a.address == b.address
    ensures a == b
  {
    hide SpacedOut, AllBlocksOk, Counts;
    assert a.size > 0 && b.size > 0;
    assert a != b ==> Apart(a, b);
  }

  lemma LiveIsNotPending(blocks: seq<MemoryBlock>, live: set<Alloc>, pending: set<Alloc>, a: Alloc)
    requires Sound(blocks, live, pending) && a in live
    ensures a !in pending
  {
    hide SpacedOut, AllBlocksOk, AllApart, Around, Counts;
    if a in pending {
      var i := HomeOf(blocks, live, true, a);
      WithinIsInPart(blocks, pending, false, a, i);
    }
  }

  lemma CommitKeepsCounts(blocks: seq<MemoryBlock>, live: set<Alloc>, pending: set<Alloc>)
    requires Sound(blocks, live, pending)
    ensures Counts(AllCommitted(blocks), live + pending, {})
  {
    hide SpacedOut, AllBlocksOk, AllApart, Housed, Sound, Around;
    var done := AllCommitted(blocks);
    assert Counts(blocks, live, pending) by { SoundCounts(blocks, live, pending); }
    forall i | 0 <= i < |done|
      ensures done[i].fixedCount == |Within(live + pending, done[i])|
      ensures done[i].uncommittedCount == |Within({}, done[i])|
    {
      var b := blocks[i];
      assert b in blocks;
      if b.uncommittedSize == 0 {
        NothingPending(blocks, live, pending, i);
      }
      forall a | a in live ensures a !in pending { LiveIsNotPending(blocks, live, pending, a); }
      SameAround(b, done[i]);
      assert Within(live + pending, done[i]) == Within(live, b) + Within(pending, b);
      assert Within(live, b) !! Within(pending, b);
      assert Within({}, done[i]) == {};
    }
  }

  lemma SoundCounts(blocks: seq<MemoryBlock>, live: set<Alloc>, pending: set<Alloc>)
    requires Sound(blocks, live, pending)
    ensures Counts(blocks, live, pending)
  {
  }

  lemma SameAround(b: MemoryBlock, c: MemoryBlock)
    requires b.address == c.address
    ensures forall x: int :: Around(b, x) == Around(c, x)
  {
  }

  /** Committing makes every pending buffer live. */
  lemma CommitKeepsSound(blocks: seq<MemoryBlock>, live: set<Alloc>, pending: set<Alloc>)
    requires Sound(blocks, live, pending)
    ensures Sound(AllCommitted(blocks), live + pending, {})
  {
    hide SpacedOut, AllBlocksOk, AllApart, Counts, AllCommitted, Housed, Within;
    CommitKeepsCounts(blocks, live, pending);
    assert Housed(AllCommitted(blocks), live + pending, true) by { HousedTogether(blocks, live, pending); }
    NoneIsHoused(AllCommitted(blocks));
    CommitKeepsBlocks(blocks);
    assert live + pending + {} == live + pending;
  }

  lemma HousedTogether(blocks: seq<MemoryBlock>, live: set<Alloc>, pending: set<Alloc>)
    requires AllBlocksOk(blocks) && Housed(blocks, live, true) && Housed(blocks, pending, false)
    ensures Housed(AllCommitted(blocks), live + pending, true)
  {
    hide AllBlocksOk, AllCommitted, InPart;
    CommitKeepsHoused(blocks, live, true);
    CommitKeepsHoused(blocks, pending, false);
  }

  lemma NoneIsHoused(blocks: seq<MemoryBlock>)
    ensures Housed(blocks, {}, false)
  {
  }

  // ----- rolling back -----

  /** What a rollback makes of a block; blocks left without committed buffers are
      released, unless they had nothing pending either. */
  function Rolled(b: MemoryBlock): seq<MemoryBlock> {
    if b.uncommittedSize == 0 then [b]
    else if b.fixedCount == 0 then []
    else [b.(uncommittedSize := 0, uncommittedCount := 0)]
  }

  function RolledBack(blocks: seq<MemoryBlock>): seq<MemoryBlock> {
    if blocks == [] then [] else RolledBack(blocks[..|blocks| - 1]) + Rolled(blocks[|blocks| - 1])
  }

  lemma {:induction false} RolledBackIs(blocks: seq<MemoryBlock>, c: MemoryBlock)
    ensures c in RolledBack(blocks) <==> exists i :: 0 <= i < |blocks| && c in Rolled(blocks[i])
    decreases |blocks|
  {
    hide Rolled;
    if blocks != [] {
      var before := blocks[..|blocks| - 1];
      RolledBackIs(before, c);
      if i :| 0 <= i < |blocks| && c in Rolled(blocks[i]) {
        assert i < |before| ==> before[i] == blocks[i];
      }
    }
  }

  lemma RolledFields(b: MemoryBlock, c: MemoryBlock)
    requires c in Rolled(b)
    ensures c.address == b.address && c.uncommittedSize == 0 && c.fixedSize == b.fixedSize
    ensures c.fixedCount == b.fixedCount
    ensures c.uncommittedCount == if b.uncommittedSize == 0 then b.uncommittedCount else 0
    ensures BlockOk(b) ==> BlockOk(c)
  {
  }

  lemma {:induction false} RollbackKeepsBlocks(blocks: seq<MemoryBlock>)
    requires SpacedOut(blocks) && AllBlocksOk(blocks)
    ensures SpacedOut(RolledBack(blocks)) && AllBlocksOk(RolledBack(blocks))
    decreases |blocks|
  {
    hide Rolled, BlockOk;
    if blocks != [] {
      var before, last := blocks[..|blocks| - 1], blocks[|blocks| - 1];
      BlocksBefore(blocks);
      RollbackKeepsBlocks(before);
      var kept, more := RolledBack(before), Rolled(last);
      assert |more| <= 1 by { RolledAtMostOne(last); }
      forall c | c in RolledBack(blocks)
        ensures BlockOk(c)
      {
        RolledBackIs(blocks, c);
        var i :| 0 <= i < |blocks| && c in Rolled(blocks[i]);
        RolledFields(blocks[i], c);
        assert blocks[i] in blocks;
      }
      forall c, d | c in kept && d in more
        ensures BlocksApart(c, d)
      {
        RolledBackIs(before, c);
        var i :| 0 <= i < |before| && c in Rolled(before[i]);
        RolledFields(before[i], c);
        RolledFields(last, d);
        assert BlocksApart(blocks[i], blocks[|blocks| - 1]);
      }
    }
  }

  lemma BlocksBefore(blocks: seq<MemoryBlock>)
    requires SpacedOut(blocks) && AllBlocksOk(blocks) && blocks != []
    ensures SpacedOut(blocks[..|blocks| - 1]) && AllBlocksOk(blocks[..|blocks| - 1])
  {
  }

  lemma RolledAtMostOne(b: MemoryBlock)
    ensures |Rolled(b)| <= 1
  {
  }

  lemma RollbackKeepsHoused(blocks: seq<MemoryBlock>, live: set<Alloc>, pending: set<Alloc>)
    requires Sound(blocks, live, pending)
    ensures Housed(RolledBack(blocks), live, true)
  {
    hide SpacedOut, AllApart, RolledBack, Around;
    var rolled := RolledBack(blocks);
    forall a | a in live
      ensures exists b :: b in rolled && InPart(a, b, true)
    {
      var i := HomeOf(blocks, live, true, a);
      assert blocks[i] in blocks && a in Within(live, blocks[i]);
      var b := blocks[i];
      var c := b.(uncommittedSize := 0, uncommittedCount := if b.uncommittedSize == 0 then b.uncommittedCount else 0);
      assert c in Rolled(blocks[i]);
      RolledBackIs(blocks, c);
    }
  }

  /** Rolling back forgets the pending buffers and only those. */
  lemma RollbackKeepsSound(blocks: seq<MemoryBlock>, live: set<Alloc>, pending: set<Alloc>)
    requires Sound(blocks, live, pending)
    ensures Sound(RolledBack(blocks), live, {})
  {
    hide SpacedOut, AllBlocksOk, RolledBack, Rolled, Housed, Within;
    RollbackKeepsBlocks(blocks);
    RollbackKeepsHoused(blocks, live, pending);
    NoneIsHoused(RolledBack(blocks));
    forall c | c in RolledBack(blocks)
      ensures c.fixedCount == |Within(live, c)| && c.uncommittedCount == |Within({}, c)|
    {
      RolledBackIs(blocks, c);
      var i :| 0 <= i < |blocks| && c in Rolled(blocks[i]);
      assert blocks[i] in blocks;
      RolledFields(blocks[i], c);
      SameWithin(live, blocks[i], c);
      NoneWithin(c);
      if blocks[i].uncommittedSize == 0 {
        NothingPending(blocks, live, pending, i);
      }
    }
  }

  lemma NoneWithin(b: MemoryBlock)
    ensures Within({}, b) == {}
  {
  }

  // ----- freeing -----

  /** What freeing a buffer in block i makes of the blocks. */
  function Freed(blocks: seq<MemoryBlock>, i: nat): seq<MemoryBlock>
    requires i < |blocks| && blocks[i].fixedCount > 0
  {
    if blocks[i].fixedCount == 1 then blocks[..i] + blocks[i + 1..]
    else blocks[i := blocks[i].(fixedCount := blocks[i].fixedCount - 1)]
  }

  /** Where a block that is not released is found afterwards. */
  lemma FreedIs(blocks: seq<MemoryBlock>, i: nat, c: MemoryBlock)
    requires i < |blocks| && blocks[i].fixedCount > 0
    ensures c in Freed(blocks, i) <==>
      || (exists j :: 0 <= j < |blocks| && j != i && c == blocks[j])
      || (blocks[i].fixedCount > 1 && c == blocks[i].(fixedCount := blocks[i].fixedCount - 1))
  {
    var freed := Freed(blocks, i);
    if blocks[i].fixedCount == 1 {
      assert forall j :: 0 <= j < i ==> freed[j] == blocks[j];
      assert forall j :: i < j < |blocks| ==> freed[j - 1] == blocks[j];
    } else {
      assert forall j :: 0 <= j < |blocks| && j != i ==> freed[j] == blocks[j];
      assert freed[i] in freed;
    }
  }

  lemma FreedKeepsBlocks(blocks: seq<MemoryBlock>, i: nat)
    requires SpacedOut(blocks) && AllBlocksOk(blocks) && i < |blocks| && blocks[i].fixedCount > 0
    ensures SpacedOut(Freed(blocks, i)) && AllBlocksOk(Freed(blocks, i))
  {
    var freed := Freed(blocks, i);
    assert blocks[i] in blocks && BlockOk(blocks[i]);
    forall j, k | 0 <= j < k < |freed|
      ensures BlocksApart(freed[j], freed[k])
    {
      var shift := if blocks[i].fixedCount == 1 then 1 else 0;
      var j', k' := if j < i then j else j + shift, if k < i then k else k + shift;
      assert freed[j].address == blocks[j'].address && freed[k].address == blocks[k'].address;
      assert BlocksApart(blocks[j'], blocks[k']);
    }
  }

  /** A buffer other than the freed one keeps its block. */
  lemma FreedKeepsHoused(blocks: seq<MemoryBlock>, live: set<Alloc>, pending: set<Alloc>, i: nat, a: Alloc)
    requires Sound(blocks, live, pending) && i < |blocks| && a in live && Around(blocks[i], a.address)
    requires blocks[i].fixedCount > 0
    ensures Housed(Freed(blocks, i), live - {a}, true)
  {
    hide SpacedOut, AllApart, Freed, Around, Counts, InPart, Within;
    forall x | x in live - {a}
      ensures exists b :: b in Freed(blocks, i) && InPart(x, b, true)
    {
      var j := HomeOf(blocks, live, true, x);
      if j == i {
        StaysAtHome(blocks, live, pending, i, a, x);
      } else {
        FreedIs(blocks, i, blocks[j]);
      }
    }
  }

  lemma StaysAtHome(blocks: seq<MemoryBlock>, live: set<Alloc>, pending: set<Alloc>, i: nat, a: Alloc, x: Alloc)
    requires Counts(blocks, live, pending) && i < |blocks| && a in live && x in live && a != x
    requires Around(blocks[i], a.address) && Around(blocks[i], x.address) && InPart(x, blocks[i], true)
    ensures blocks[i].fixedCount > 1 && exists b :: b in Freed(blocks, i) && InPart(x, b, true)
  {
    hide Freed, Around;
    assert blocks[i] in blocks;
    TwoMembers(Within(live, blocks[i]), a, x);
    var c := blocks[i].(fixedCount := blocks[i].fixedCount - 1);
    FreedIs(blocks, i, c);
    assert InPart(x, c, true);
  }

  lemma TwoMembers<T>(s: set<T>, a: T, x: T)
    requires a in s && x in s && a != x
    ensures |s| > 1
  {
    assert {a, x} <= s;
    SubsetSize({a, x}, s);
  }

  lemma {:induction false} SubsetSize<T>(s: set<T>, t: set<T>)
    requires s <= t
    ensures |s| <= |t|
  {
    if s != {} {
      var x :| x in s;
      SubsetSize(s - {x}, t - {x});
    }
  }

  lemma FreedCounts(blocks: seq<MemoryBlock>, live: set<Alloc>, i: nat, a: Alloc, j: nat)
    requires SpacedOut(blocks) && i < |blocks| && j < |blocks| && a in live && Around(blocks[i], a.address)
    ensures |Within(live - {a}, blocks[j])| == |Within(live, blocks[j])| - if j == i then 1 else 0
  {
    hide SpacedOut, Around;
    var was, now := Within(live, blocks[j]), Within(live - {a}, blocks[j]);
    if j == i {
      assert now == was - {a};
    } else {
      if Around(blocks[j], a.address) {
        SameBlock(blocks, i, j, a.address);
      }
      assert now == was;
    }
  }

  lemma PendingElsewhere(blocks: seq<MemoryBlock>, live: set<Alloc>, pending: set<Alloc>, i: nat)
    requires Sound(blocks, live, pending) && i < |blocks| && blocks[i].fixedCount > 0 && blocks[i].uncommittedSize == 0
    ensures Housed(Freed(blocks, i), pending, false)
  {
    hide SpacedOut, AllApart, Freed;
    forall x | x in pending
      ensures exists b :: b in Freed(blocks, i) && InPart(x, b, false)
    {
      var j := HomeOf(blocks, pending, false, x);
      FreedIs(blocks, i, blocks[j]);
    }
  }

  /** Freeing gives up one buffer, and its block exactly when it was the last one. */
  lemma FreeKeepsSound(blocks: seq<MemoryBlock>, live: set<Alloc>, pending: set<Alloc>, i: nat, a: Alloc)
    requires Sound(blocks, live, pending) && i < |blocks| && a in live && Around(blocks[i], a.address)
    requires blocks[i].uncommittedSize == 0
    ensures blocks[i].fixedCount == |Within(live, blocks[i])| > 0
    ensures Sound(Freed(blocks, i), live - {a}, pending)
    ensures blocks[i].fixedCount == 1 <==> Within(live - {a}, blocks[i]) == {}
  {
    hide SpacedOut, AllBlocksOk, Freed, Housed, Around;
    assert blocks[i] in blocks;
    FreedCounts(blocks, live, i, a, i);
    assert a in Within(live, blocks[i]);
    FreedKeepsBlocks(blocks, i);
    FreedKeepsHoused(blocks, live, pending, i, a);
    PendingElsewhere(blocks, live, pending, i);
    FreedKeepsCounts(blocks, live, pending, i, a);
  }

  lemma FreedKeepsCounts(blocks: seq<MemoryBlock>, live: set<Alloc>, pending: set<Alloc>, i: nat, a: Alloc)
    requires SpacedOut(blocks) && Counts(blocks, live, pending) && i < |blocks| && a in live
    requires Around(blocks[i], a.address) && blocks[i].fixedCount > 0
    ensures Counts(Freed(blocks, i), live - {a}, pending)
  {
    hide SpacedOut, Freed, Within, Around;
    forall c | c in Freed(blocks, i)
      ensures c.fixedCount == |Within(live - {a}, c)| && c.uncommittedCount == |Within(pending, c)|
    {
      FreedIs(blocks, i, c);
      var j :| 0 <= j < |blocks| && c.address == blocks[j].address && c.uncommittedCount == blocks[j].uncommittedCount
        && c.fixedCount == blocks[j].fixedCount - if j == i then 1 else 0;
      assert blocks[j] in blocks;
      SameWithin(live - {a}, blocks[j], c);
      SameWithin(pending, blocks[j], c);
      FreedCounts(blocks, live, i, a, j);
    }
  }

  /** The block around p has one buffer less; it is gone exactly if none is left in it. */
  ghost predicate GivenUp(was: seq<MemoryBlock>, p: int, now: seq<MemoryBlock>, live: set<Alloc>) {
    exists i ::
      && 0 <= i < |was| && Around(was[i], p) && was[i].fixedCount > 0 && now == Freed(was, i)
      && (was[i].fixedCount == 1 <==> Within(live, was[i]) == {})
  }

  // ----- the allocator -----

  /** What the operating system answers: the address of a new reservation (0 for
      NULL), and whether the pages can be committed and made writable. */
  datatype System = System(reserved: u32, commits: bool, protects: bool)

  ghost predicate SomeFits(blocks: seq<MemoryBlock>, protect: Protect, capacity: nat) {
    exists b :: b in blocks && b.Fits(protect, capacity)
  }

  /** When a request succeeds. */
  ghost predicate HasRoom(blocks: seq<MemoryBlock>, protect: Protect, size: u32, os: System)
    requires 0 < size <= TWO32 - ALIGNMENT
  {
    os.commits && os.protects && (os.reserved != 0 || SomeFits(blocks, protect, Rounded(size)))
  }

  /** No block of this protection has n bytes left of its 64 KB. */
  ghost predicate AllFull(blocks: seq<MemoryBlock>, protect: Protect, n: nat) {
    forall b :: b in blocks && b.protect == protect ==> b.fixedSize + b.uncommittedSize + n > 65536
  }

  /** Block i is the first of this protection that has n bytes left. */
  ghost predicate FirstWithRoom(blocks: seq<MemoryBlock>, i: nat, protect: Protect, n: nat) {
    && i < |blocks| && blocks[i].protect == protect && blocks[i].fixedSize + blocks[i].uncommittedSize + n <= 65536
    && AllFull(blocks[..i], protect, n)
  }

  /** A buffer of n bytes was cut off block i, behind everything that is in it. */
  ghost predicate CutOff(was: seq<MemoryBlock>, i: nat, n: nat, now: seq<MemoryBlock>, p: u32)
    requires i < |was|
  {
    var b := was[i];
    && p as int == b.address + b.fixedSize + b.uncommittedSize
    && now == was[i := MemoryBlock(b.address, b.protect, b.uncommittedSize + n, b.uncommittedCount + 1, b.fixedSize,
                                   b.fixedCount)]
  }

  lemma FullIs(blocks: seq<MemoryBlock>, protect: Protect, n: nat)
    ensures AllFull(blocks, protect, n) <==> forall i :: 0 <= i < |blocks| ==> !blocks[i].Fits(protect, n)
  {
    if AllFull(blocks, protect, n) {
      forall i | 0 <= i < |blocks| ensures !blocks[i].Fits(protect, n) {
        assert blocks[i] in blocks;
      }
    }
  }

  lemma FullExactly(blocks: seq<MemoryBlock>, protect: Protect, n: nat)
    ensures SomeFits(blocks, protect, n) <==> !AllFull(blocks, protect, n)
  {
  }

  /** The blocks after looking for room. */
  ghost function Searched(blocks: seq<MemoryBlock>, protect: Protect, capacity: nat, reserved: u32): seq<MemoryBlock> {
    if reserved == 0 || SomeFits(blocks, protect, capacity) then blocks else blocks + [Fresh(reserved, protect)]
  }

  /** Looking for room leaves an idle block exactly if a new one had to be reserved. */
  lemma SearchedIdle(blocks: seq<MemoryBlock>, protect: Protect, capacity: nat, reserved: u32)
    requires NoneIdle(blocks)
    ensures NoneIdle(Searched(blocks, protect, capacity, reserved)) <==>
      reserved == 0 || SomeFits(blocks, protect, capacity)
  {
    var more := blocks + [Fresh(reserved, protect)];
    assert more[|blocks|] in more && more[|blocks|].IsIdle();
  }

  /** A request succeeds exactly if the pages can be committed and made writable, and
      there is room in some block or a new one can be reserved. */
  lemma HasRoomExactly(blocks: seq<MemoryBlock>, protect: Protect, size: u32, os: System)
    requires 0 < size <= TWO32 - ALIGNMENT
    ensures HasRoom(blocks, protect, size, os) <==>
      os.commits && os.protects && (os.reserved != 0 || !AllFull(blocks, protect, Rounded(size)))
    ensures Rounded(size) % 4 == 0 && size <= Rounded(size) < size + 4
  {
    hide AllFull, SomeFits;
    FullExactly(blocks, protect, Rounded(size));
  }

  /** A rollback does not release an idle block. */
  lemma IdleSurvives(blocks: seq<MemoryBlock>, b: MemoryBlock)
    requires b in blocks && b.IsIdle()
    ensures b in RolledBack(blocks)
  {
    var i :| 0 <= i < |blocks| && blocks[i] == b;
    assert b in Rolled(blocks[i]);
    RolledBackIs(blocks, b);
  }

  class Buffers {
    var blocks: seq<MemoryBlock>
    ghost var live: set<Alloc>
    ghost var pending: set<Alloc>

    ghost predicate Valid()
      reads this
    {
      Sound(blocks, live, pending)
    }

    constructor ()
      ensures Valid() && blocks == [] && live == {} && pending == {}
    {
      blocks, live, pending := [], {}, {};
    }

    /** The first registered block with room, or else a new one at the end. */
    method GetMemoryBlock(protect: Protect, capacity: nat, reserved: u32) returns (r: Option<nat>)
      requires Valid() && capacity > 0
      requires reserved != 0 ==> CanReserve(blocks, reserved)
      modifies `blocks
      ensures Valid()
      ensures r.Some? && blocks == old(blocks) ==> FirstWithRoom(blocks, r.value, protect, capacity)
      ensures r.None? || blocks != old(blocks) ==> AllFull(old(blocks), protect, capacity)
      ensures blocks == Searched(old(blocks), protect, capacity, reserved)
      ensures blocks != old(blocks) ==>
        reserved != 0 && blocks == old(blocks) + [Fresh(reserved, protect)] && r == Some(|old(blocks)|)
      ensures r.None? <==> reserved == 0 && !SomeFits(old(blocks), protect, capacity)
    {
      hide Sound, CanReserve, AllFull;
      for i := 0 to |blocks|
        invariant forall j :: 0 <= j < i ==> !blocks[j].Fits(protect, capacity)
      {
        if blocks[i].Fits(protect, capacity) {
          FullIs(blocks[..i], protect, capacity);
          return Some(i);
        }
      }
      FullIs(blocks, protect, capacity);
      if reserved != 0 {
        FreshKeepsSound(blocks, live, pending, Fresh(reserved, protect));
        blocks := blocks + [Fresh(reserved, protect)];
        return Some(|blocks| - 1);
      }
      return None;
    }

    /** A new pending buffer, apart from all others; a reservation holds one block, so
        larger requests cannot be committed. A failure after a new block had to be
        reserved, and nothing else, leaves an idle block behind. */
    method AllocateBuffer(protect: Protect, size: u32, os: System) returns (p: Option<u32>)
      requires Valid() && 0 < size <= TWO32 - ALIGNMENT
      requires os.reserved != 0 ==> CanReserve(blocks, os.reserved)
      requires os.commits ==> Rounded(size) <= BLOCK_SIZE
      modifies `blocks, `pending
      ensures Valid()
      ensures p.None? ==> pending == old(pending)
      ensures p.Some? ==>
        var a := Alloc(p.value, Rounded(size));
        && pending == old(pending) + {a} && a !in old(live + pending)
        && forall x :: x in old(live + pending) ==> Apart(a, x)
      ensures p.Some? && |blocks| == |old(blocks)| ==>
        exists i :: FirstWithRoom(old(blocks), i, protect, Rounded(size))
          && CutOff(old(blocks), i, Rounded(size), blocks, p.value)
      ensures p.Some? && |blocks| != |old(blocks)| ==>
        p.value == os.reserved && blocks == old(blocks) + [MemoryBlock(os.reserved, protect, Rounded(size), 1, 0, 0)]
      ensures |blocks| != |old(blocks)| || (p.None? && os.commits && os.protects) ==>
        AllFull(old(blocks), protect, Rounded(size))
      ensures p.Some? <==> HasRoom(old(blocks), protect, size, os)
      ensures p.None? ==> blocks == Searched(old(blocks), protect, Rounded(size), os.reserved)
      ensures old(NoneIdle(blocks)) ==>
        (NoneIdle(blocks) <==>
         (os.commits && os.protects) || os.reserved == 0 || SomeFits(old(blocks), protect, Rounded(size)))
      ensures forall b: MemoryBlock :: b.protect != protect ==> (b in blocks <==> b in old(blocks))
      ensures forall b :: b in blocks ==> b.address == os.reserved || b.address in Bases(old(blocks))
    {
      hide Sound, CanReserve, SomeFits, NoneIdle, AllFull;
      var capacity := Rounded(size);
      var r := GetMemoryBlock(protect, capacity, os.reserved);
      if old(NoneIdle(blocks)) {
        SearchedIdle(old(blocks), protect, capacity, os.reserved);
      }
      if r.None? {
        return None;
      }
      var i := r.value;
      if !os.commits || !os.protects {
        return None;
      }
      GrownBlocks(old(blocks), blocks, i, capacity);
      assert blocks == old(blocks) ==> FirstWithRoom(old(blocks), i, protect, capacity);
      GrowKeepsSound(blocks, live, pending, i, capacity);
      NextIsAddress(blocks, live, pending, i, capacity);
      p := Some(blocks[i].Next());
      pending := pending + {Alloc(blocks[i].Next(), capacity)};
      blocks := blocks[i := blocks[i].Grown(capacity)];
      assert |blocks| == |old(blocks)| ==> CutOff(old(blocks), i, capacity, blocks, p.value);
    }

    /** Every pending buffer becomes live. */
    method CommitBuffer()
      requires Valid()
      modifies this
      ensures Valid() && live == old(live + pending) && pending == {} && blocks == AllCommitted(old(blocks))
    {
      hide Sound;
      CommitKeepsSound(blocks, live, pending);
      live, pending := live + pending, {};
      for i := 0 to |blocks|
        modifies `blocks
        invariant |blocks| == |old(blocks)|
        invariant forall j ::
          0 <= j < |blocks| ==> blocks[j] == if j < i then old(blocks)[j].Committed() else old(blocks)[j]
      {
        var block := blocks[i];
        if block.uncommittedSize != 0 {
          block := block.(fixedSize := block.fixedSize + block.uncommittedSize, uncommittedSize := 0);
          block := block.(fixedCount := block.fixedCount + block.uncommittedCount, uncommittedCount := 0);
          blocks := blocks[i := block];
        }
      }
      assert blocks == AllCommitted(old(blocks));
    }

    /** Every pending buffer is forgotten; the live ones stay. */
    method RollbackBuffer()
      requires Valid()
      modifies this
      ensures Valid() && live == old(live) && pending == {} && blocks == RolledBack(old(blocks))
    {
      hide Sound, RolledBack, Rolled;
      RollbackKeepsSound(blocks, live, pending);
      pending := {};
      var i := 0;
      ghost var n := 0;
      assert old(blocks)[..0] == [];
      NothingRolledBack();
      while i < |blocks|
        modifies `blocks
        invariant n <= |old(blocks)| && i <= |blocks|
        invariant blocks[..i] == RolledBack(old(blocks)[..n]) && blocks[i..] == old(blocks)[n..]
        decreases |blocks| - i
      {
        var block := blocks[i];
        ghost var was := blocks;
        OneRolledBack(old(blocks), n);
        assert was[i..][0] == block && was[i..][1..] == was[i + 1..] && old(blocks)[n..][1..] == old(blocks)[n + 1..];
        n := n + 1;
        if block.uncommittedSize == 0 {
          RolledCases(block);
          i := i + 1;
        } else {
          RolledCases(block);
          block := block.(uncommittedSize := 0, uncommittedCount := 0);
          if block.fixedCount == 0 {
            blocks := blocks[..i] + blocks[i + 1..];
          } else {
            blocks := blocks[i := block];
            i := i + 1;
          }
        }
      }
      assert blocks[..i] == blocks && old(blocks)[..n] == old(blocks);
    }

    /** The buffer at p is given up, and its block exactly if no other is left in it. */
    method FreeBuffer(p: u32)
      requires Valid() && exists a :: a in live && a.address == p
      requires forall b :: b in blocks && b.address <= p < b.address + b.fixedSize ==> b.uncommittedSize == 0
      modifies this
      ensures Valid() && pending == old(pending)
      ensures exists a :: a in old(live) && a.address == p && live == old(live) - {a}
      ensures GivenUp(old(blocks), p, blocks, live)
    {
      hide Sound, Freed, Within;
      ghost var a :| a in live && a.address == p;
      ghost var home := LiveHome(blocks, live, pending, a);
      for i := 0 to |blocks|
        invariant i <= home
        invariant Valid() && blocks == old(blocks) && live == old(live) && pending == old(pending)
      {
        var block := blocks[i];
        if block.address <= p < block.address + block.fixedSize {
          FixedIsAround(blocks, live, pending, i, p);
          FreeKeepsSound(blocks, live, pending, i, a);
          ghost var was := blocks;
          if block.fixedCount == 1 {
            blocks := blocks[..i] + blocks[i + 1..];
          } else {
            blocks := blocks[i := block.(fixedCount := block.fixedCount - 1)];
          }
          live := live - {a};
          FreedCases(was, i);
          return;
        }
      }
    }

    method UninitializeBuffer()
      modifies this
      ensures Valid() && blocks == [] && live == {} && pending == {}
    {
      blocks, live, pending := [], {}, {};
    }
  }

  /** Cutting a buffer off the block that was found, or off a new one, leaves none idle
      and touches no block of another kind. */
  lemma GrownBlocks(was: seq<MemoryBlock>, blocks: seq<MemoryBlock>, i: nat, size: nat)
    requires i < |blocks| && size > 0
    requires blocks == was || (i == |was| && exists f :: blocks == was + [f] && f.protect == blocks[i].protect)
    ensures NoneIdle(was) ==> NoneIdle(blocks[i := blocks[i].Grown(size)])
    ensures forall b: MemoryBlock ::
      b.protect != blocks[i].protect ==> (b in blocks[i := blocks[i].Grown(size)] <==> b in was)
  {
    var grown := blocks[i := blocks[i].Grown(size)];
    assert forall j :: 0 <= j < |grown| && j != i ==> grown[j] == blocks[j] && (j < |was| ==> grown[j] == was[j]);
    forall b | b in was && b.protect != blocks[i].protect
      ensures b in grown
    {
      var j :| 0 <= j < |was| && was[j] == b;
      assert blocks[j] == b && grown[j] == b;
    }
  }

  /** An answer of the operating system after which a block without buffers stays:
      the memory is reserved but cannot be committed. */
  method LeftBehind() returns (b: Buffers)
    ensures b.Valid() && b.live == b.pending == {} && b.blocks == [Fresh(BLOCK_SIZE, ExecuteRead)]
  {
    b := new Buffers();
    var p := b.AllocateBuffer(ExecuteRead, 16, System(BLOCK_SIZE, false, true));
    assert b.blocks == [] + [Fresh(BLOCK_SIZE, ExecuteRead)];
    var was := b.blocks;
    b.RollbackBuffer();
    assert was[..0] == [] && RolledBack(was) == [] + Rolled(was[0]);
  }

  lemma NextIsAddress(blocks: seq<MemoryBlock>, live: set<Alloc>, pending: set<Alloc>, i: nat, size: nat)
    requires Sound(blocks, live, pending) && i < |blocks| && size > 0
    requires blocks[i].fixedSize + blocks[i].uncommittedSize + size <= BLOCK_SIZE
    ensures 0 < blocks[i].Next() < TWO32
  {
    assert BlockOk(blocks[i]);
  }

  lemma NothingRolledBack()
    ensures RolledBack([]) == []
  {
  }

  lemma OneRolledBack(blocks: seq<MemoryBlock>, n: nat)
    ensures n < |blocks| ==> RolledBack(blocks[..n + 1]) == RolledBack(blocks[..n]) + Rolled(blocks[n])
  {
    if n < |blocks| {
      assert blocks[..n + 1][..n] == blocks[..n];
    }
  }

  lemma RolledCases(b: MemoryBlock)
    ensures b.uncommittedSize == 0 ==> Rolled(b) == [b]
    ensures b.uncommittedSize != 0 && b.fixedCount == 0 ==> Rolled(b) == []
    ensures b.uncommittedSize != 0 && b.fixedCount != 0 ==>
      Rolled(b) == [b.(uncommittedSize := 0, uncommittedCount := 0)]
  {
  }

  lemma LiveHome(blocks: seq<MemoryBlock>, live: set<Alloc>, pending: set<Alloc>, a: Alloc) returns (i: nat)
    requires Sound(blocks, live, pending) && a in live
    ensures i < |blocks| && blocks[i].address <= a.address < blocks[i].address + blocks[i].fixedSize
  {
    i := HomeOf(blocks, live, true, a);
  }

  lemma FixedIsAround(blocks: seq<MemoryBlock>, live: set<Alloc>, pending: set<Alloc>, i: nat, x: int)
    requires Sound(blocks, live, pending) && i < |blocks|
    requires blocks[i].address <= x < blocks[i].address + blocks[i].fixedSize
    ensures Around(blocks[i], x)
  {
    assert BlockOk(blocks[i]);
  }

  lemma FreedCases(blocks: seq<MemoryBlock>, i: nat)
    requires i < |blocks| && blocks[i].fixedCount > 0
    ensures blocks[i].fixedCount == 1 ==> Freed(blocks, i) == blocks[..i] + blocks[i + 1..]
    ensures blocks[i].fixedCount != 1 ==>
      Freed(blocks, i) == blocks[i := blocks[i].(fixedCount := blocks[i].fixedCount - 1)]
  {
  }
}
