# Verification of the caster launcher, relay and bundled libraries

Dafny models of the parts of this repository whose correctness is hardest to see by
reading, and proofs about them. `dafny verify dfyconfig.toml` checks everything.

* **Hashing** (`Mult128`, `Xxh3Kernels`, `Xxh3Long`, `Xxh3Secret`, `Xxh3Stream`, `Xxh32`,
  `Xxh64`, `Invertible`, `Xxh3Exact`, `KnownAnswers`, `Evaluate`): the streaming states with their buffers, counters and catch-up tail are
  proved to give the one-shot hash for every split of every input that a one-shot call can take,
  on top of the scalar and SSE2 kernels and the schoolbook multiplication.
* **Hooking** (`Trampoline`, `Simulation`, `CodeBuffer`, `Hooks`): the builder that relocates the
  first instructions of a function, a simulation theorem between the original code and the
  relocated code, the block allocator, and the manager that patches and restores code memory on
  top of both.
* **Relay** (`Rooms`, `Framing`): the room manager as atomic steps over a set of rooms with the
  messages each connection was sent, and the first message of a connection.
* **Settings and input** (`Ini`, `IniExact`, `IniText`, `Mapping`, `MappingText`,
  `AirDash`): two printer/parser pairs, one
  on top of the other, with the exact set of documents that survive, and the air-dash macro as a
  transducer with an output grammar.

`Words` and `Options` hold machine words, byte memory and the optional value.

## How to read it

State that the code changes in place is a class whose methods are proved against functions;
`Valid()`, `Ready()` or `Steady()` is what holds between any two calls, so what is proved from it
holds in every run. The lemmas beside a class say what the functions and the invariant mean.
Machine arithmetic is written out modulo 2^32 or 2^64 over unbounded integers.

Theorems whose name ends in `Exactly` say the same in plain terms, by opcodes, bytes, characters
and numbers, without the functions that the methods are proved against; `KnownAnswers` does so for
the hashes. They are what tells the code apart from code that is wrong in the same way everywhere.

Facts about the surroundings are preconditions:

* `Trampoline.Faithful`: an instruction is recognised by its own bytes, has 1 to 15 of them, and
  E8, E9 and 0F 80..8F with 32-bit operands are read as the Intel manual (volume 2, CALL, JMP and
  Jcc) defines them. `Simulation.BranchesIsFaithful` exhibits a disassembler of this kind.
* `Simulation.Placed.Valid`: no branch of the original code leads into the memory given to its
  trampoline. Calls are taken to come back to the instruction after them. Everything that is not
  a near call, a relative branch or a return counts as executed and falls through, indirect and
  far jumps, INT3 and IRET included.
* `Hooks`: what a new patch covers, 5 bytes from the target or 7 from the jump above it, lies in
  code and meets the patch of no other hook (`MayPatch`); for a hook that overlaps an earlier
  one, `OverlappingBackup` says exactly when the code is restored. New reservations lie outside
  code and apart from the other blocks (`Reservable`). Answers of the operating system
  (`System`, `writable`, `executable`) are parameters, so every failure is covered.
* `Rooms`: each register and join brings a fresh connection, and a write succeeds or fails as a
  whole.

## Where the code differs from what one might expect

* Internal branches of a trampoline are safe only forwards, or back over code that does not grow:
  `SimulatesExactly` says so of whole runs, in both directions, and `BackwardJumpMisses` is a
  function that the code accepts and whose relocated branch lands inside another instruction.
* A failed allocation that had to reserve a new block leaves that block behind with nothing in
  it (`AllocateBuffer`, `LeftBehind`), and a rollback does not release it (`IdleSurvives`).
* The streaming XXH64 digest tells short from long inputs by a 64-bit total that wraps, so from
  2^64 bytes on it can take a long input for a short one, and then gives another hash unless its
  unmerged lanes happen to merge to what is used for them (`StreamedIsHash`, `WrongHashExists`);
  XXH32 keeps a sticky flag instead and is right for every length.
* `tcp_listener.go` explains why a TRACE request cannot be confused with a host registration by
  an improbable port; in fact no well-formed message can begin like any of the listed methods
  (`NeverHttp`).
* A client join whose second code byte is at most 4 is read as a host registration
  (`ClientJoinRoundTrip`); the room alphabet has no such byte.
* An INI file does not carry every document: `RoundTripExactly` says which ones come back. What
  was loaded need not be among them (`LoadedMayChange`).
* `ini.hpp` announces that `parse` returns false on a syntax error; the code skips what it cannot
  read and always returns true (`Document.Parse`).
* `mapping.hpp` speaks of 18 keys per player; the code writes 22 (`KEYS`).
* `save` writes an empty binding with a stray index, SOCD mode 0 and frame counts outside their
  ranges, and `load` changes them (`Canonical` in `LoadedIsSaved` is the exact condition).

## Model

| member | source | states |
|---|---|---|
| `Mult128.SumsNeverWrap` | 3rdparty/xxhash/xxhash.h:4532-4547 | neither the cross sum nor the upper sum of the schoolbook multiply wraps: their 64-bit additions equal the unbounded sums |
| `Mult128.SumOfParts` | 3rdparty/xxhash/xxhash.h:4537-4551 | the two returned halves recombine exactly the four partial products |
| `Mult128.Exact` | 3rdparty/xxhash/xxhash.h:4432-4551 | `high64 * 2^64 + low64 == lhs * rhs` for all operands |
| `Xxh3Kernels.Accumulate512Scalar` | 3rdparty/xxhash/xxhash.h:5777-5816 | the sequential loop that adds into `lane ^ 1` in place computes the simultaneous kernel on all eight lanes |
| `Xxh3Kernels.ScrambleScalar` | 3rdparty/xxhash/xxhash.h:5826-5855 | the in-place scalar scramble computes the simultaneous scramble |
| `Xxh3Kernels.XorElements` | 3rdparty/xxhash/xxhash.h:5190-5200 | exclusive or of 64-bit words is exclusive or of their 32-bit elements |
| `Xxh3Kernels.Accumulate128Lanes` | 3rdparty/xxhash/xxhash.h:5185-5203 | one 128-bit step gives each lane its neighbour's data plus the product of the halves of its own keyed data |
| `Xxh3Kernels.Accumulate512Lanes` | 3rdparty/xxhash/xxhash.h:5185-5203 | the i-th 128-bit step computes lanes 2i and 2i+1 of the scalar kernel |
| `Xxh3Kernels.Accumulate512Sse2` | 3rdparty/xxhash/xxhash.h:5173-5205 | the SSE2 kernel refines the same function as the scalar one |
| `Xxh3Kernels.SplitMultiply` | 3rdparty/xxhash/xxhash.h:5225-5233 | `prod_lo + (prod_hi << 32)` is multiplication by the 32-bit prime modulo 2^64 |
| `Xxh3Kernels.Scramble128Lanes` | 3rdparty/xxhash/xxhash.h:5215-5234 | the 128-bit scramble step is the lane-wise scramble |
| `Xxh3Kernels.ScrambleSse2` | 3rdparty/xxhash/xxhash.h:5209-5236 | the SSE2 scramble refines the same function as the scalar one |
| `Xxh3Kernels.AccumulateStripe` | 3rdparty/xxhash/xxhash.h:5936-5985 | whichever kernel is selected, a stripe has the same effect |
| `Xxh3Long.ConsumeComposes` | 3rdparty/xxhash/xxhash.h:6412-6446 | consuming a stripes and then b stripes from where they ended is consuming a + b |
| `Xxh3Long.ConsumePrefix` | 3rdparty/xxhash/xxhash.h:6412-6446 | the result depends only on the stripes consumed |
| `Xxh3Long.ConsumeCounter` | 3rdparty/xxhash/xxhash.h:6420-6445 | the counter is the total number of stripes modulo the stripes per block |
| `Xxh3Long.RunToBlockEnd` | 3rdparty/xxhash/xxhash.h:6424-6431 | a block that is filled up is accumulated and scrambled once, exactly at its end, and the counter restarts |
| `Xxh3Long.RunInsideBlock` | 3rdparty/xxhash/xxhash.h:6438-6443 | short of a block end nothing is scrambled and the secret advances by 8 per stripe |
| `Xxh3Long.ConsumeStripes` | 3rdparty/xxhash/xxhash.h:6412-6446 | the code that starts inside a block and crosses block ends equals the fold over single stripes |
| `Xxh3Long.BlockCounts` | 3rdparty/xxhash/xxhash.h:5994-6011 | the counts taken from (len-1)/block_len and the rest add up to (len-1)/64 stripes, the rest short of a block |
| `Xxh3Long.ConsumeBlocks` | 3rdparty/xxhash/xxhash.h:5994-6004 | the full blocks, each scrambled once at its end, are the fold over their stripes |
| `Xxh3Long.HashLongLoop` | 3rdparty/xxhash/xxhash.h:5987-6018 | the block-by-block one-shot loop computes the same lanes as the stripe fold plus the last stripe |
| `Xxh3Long.ScalarKernelsCompute` | 3rdparty/xxhash/xxhash.h:5777-5855 | the scalar kernels meet what is asked of the kernel functions |
| `Xxh3Secret.InitCustomSecret` | 3rdparty/xxhash/xxhash.h:5857-5905 | the secret is the default one with the seed added to the first and subtracted from the second word of every 16-byte row |
| `Xxh3Secret.ZeroSeed` | 3rdparty/xxhash/xxhash.h:6123-6143 | deriving with seed 0 gives the default secret, so the shortcut for it changes nothing |
| `Xxh3Stream.FillKeepsBuffered` | 3rdparty/xxhash/xxhash.h:6480-6486 | a short update keeps the buffer invariant, catch-up tail included |
| `Xxh3Stream.CompletedBuffer` | 3rdparty/xxhash/xxhash.h:6495-6506 | the buffer completed with the start of the input is the next 256 bytes, and its end the 64 bytes before the rest |
| `Xxh3Stream.AfterBulk` | 3rdparty/xxhash/xxhash.h:6508-6518 | folding all whole stripes before the last byte leaves 1 to 64 bytes, and the 64 bytes before them are the ones saved |
| `Xxh3Stream.RestIsBuffered` | 3rdparty/xxhash/xxhash.h:6519-6525 | buffering what is left restores the buffer invariant once the 64 bytes before it are saved at the end of the buffer |
| `Xxh3Stream.LastStripeIsLast` | 3rdparty/xxhash/xxhash.h:6553-6574 | the stripe rebuilt from the buffer and its catch-up tail is the last 64 bytes of the input |
| `Xxh3Stream.DigestFromBuffer` | 3rdparty/xxhash/xxhash.h:6553-6581 | continuing from the buffered state gives the lanes of the whole input |
| `Xxh3Stream.Xxh3State.constructor` | 3rdparty/xxhash/xxhash.h:1812-1817 | a created state satisfies the coherence of the derived-secret cache |
| `Xxh3Stream.Xxh3State.ResetInternal` | 3rdparty/xxhash/xxhash.h:6324-6348 | the counters, seed, secret and limits after any reset; lanes at their start value |
| `Xxh3Stream.Xxh3State.Reset` | 3rdparty/xxhash/xxhash.h:6350-6358 | the state is ready for the default secret |
| `Xxh3Stream.Xxh3State.ResetWithSecret` | 3rdparty/xxhash/xxhash.h:6360-6369 | succeeds exactly for a secret of at least 136 bytes, and keeps the cache coherent when it fails |
| `Xxh3Stream.Xxh3State.ResetWithSeed` | 3rdparty/xxhash/xxhash.h:6371-6381 | the custom secret is the one derived from the seed even when the derivation is skipped |
| `Xxh3Stream.Xxh3State.ResetWithSecretAndSeed` | 3rdparty/xxhash/xxhash.h:6383-6393 | succeeds exactly for a valid secret, otherwise changes nothing |
| `Xxh3Stream.Xxh3State.DrainInput` | 3rdparty/xxhash/xxhash.h:6508-6518 | whole buffer lengths are folded from the input itself, and the 64 bytes before the rest are saved |
| `Xxh3Stream.Xxh3State.Update` | 3rdparty/xxhash/xxhash.h:6456-6534 | every update keeps: stripes consumed plus buffered bytes are the input so far, 1..256 bytes buffered once there is input, the catch-up tail, the lanes and the counter |
| `Xxh3Stream.Xxh3State.DigestLong` | 3rdparty/xxhash/xxhash.h:6544-6581 | the lanes of the whole input, without changing the state |
| `Xxh3Stream.Xxh3State.Digest64` | 3rdparty/xxhash/xxhash.h:6582-6596 | the digest is the one-shot hash of everything fed, across the 240-byte switch |
| `Xxh3Stream.Xxh3State.Digest128` | 3rdparty/xxhash/xxhash.h:7080-7094 | the same for 128 bits |
| `Xxh3Stream.OneShot64` | 3rdparty/xxhash/xxhash.h:6159-6210 | the one-shot code computes the specified hash in all four modes |
| `Xxh3Stream.OneShot128` | 3rdparty/xxhash/xxhash.h:6970-7028 | the same for 128 bits |
| `Xxh3Stream.HashInPieces` | 3rdparty/xxhash/xxhash.h:6456-6596 | whole runs: for every mode, input and split into updates, streaming gives the one-shot 64- and 128-bit hashes of the concatenation |
| `Xxh3Exact.LowHalfIs64` | 3rdparty/xxhash/xxhash.h:6879-6889 | of an input above 240 bytes the lower half of the 128-bit hash is the 64-bit hash, in every mode |
| `Xxh3Exact.FinalizedExactly` | 3rdparty/xxhash/xxhash.h:6019-6062 | both halves as formulas: which part of the secret each takes, which multiple of the length each starts from, and the avalanche, in numbers |
| `Xxh3Exact.LaneExactly` | 3rdparty/xxhash/xxhash.h:5777-5816 | one stripe as a formula, lane by lane: the data of the other lane of the pair, and the product of the halves of the keyed data |
| `Xxh3Exact.ScrambledExactly` | 3rdparty/xxhash/xxhash.h:5826-5855 | one scramble as a formula |
| `Xxh3Exact.BlockExactly` | 3rdparty/xxhash/xxhash.h:6412-6446 | where the keys of a block and of its scramble are taken from a secret of any size |
| `Xxh3Exact.ConsumedExactly` | 3rdparty/xxhash/xxhash.h:5994-6011 | the stripes are taken one after the other, 64 bytes each |
| `Xxh3Exact.LastStripeExactly` | 3rdparty/xxhash/xxhash.h:6013-6017 | the last 64 bytes take the key 7 bytes below that of the scramble |
| `Xxh3Exact.ModesExactly` | 3rdparty/xxhash/xxhash.h:6159-6210 | which secret and seed each of the four modes hashes short and long inputs with |
| `Xxh3Exact.DerivedWords` | 3rdparty/xxhash/xxhash.h:5857-5905 | every word of the derived secret, from the default one in numbers |
| `Xxh3Exact.SamePrimes` | 3rdparty/xxhash/xxhash.h:6064-6068 | the constants of XXH3 are those of XXH32 and XXH64 |
| `Xxh32.FoldComposes` | 3rdparty/xxhash/xxhash.h:3017-3042 | folding a stripes and then b stripes is folding a + b |
| `Xxh32.ConsumeLong` | 3rdparty/xxhash/xxhash.h:3017-3042 | the loop in place folds every full stripe and returns how far it got |
| `Xxh32.Finalize` | 3rdparty/xxhash/xxhash.h:3067-3154 | the finalizer absorbs exactly the len mod 16 bytes left |
| `Xxh32.OneShot` | 3rdparty/xxhash/xxhash.h:3156-3177 | the one-shot code computes the specified hash |
| `Xxh32.SeedLane` | 3rdparty/xxhash/xxhash.h:3278-3284 | while no stripe was consumed the third lane still is the seed |
| `Xxh32.LargeLenStep` | 3rdparty/xxhash/xxhash.h:3239-3240 | the sticky flag is set exactly when the true length reached 16, even after the 32-bit total wraps |
| `Xxh32.Xxh32State.Reset` | 3rdparty/xxhash/xxhash.h:3221-3227 | an empty, valid state |
| `Xxh32.Xxh32State.Update` | 3rdparty/xxhash/xxhash.h:3231-3274 | the buffer holds the length modulo 16, the lanes the fold over all full stripes, for every update |
| `Xxh32.Xxh32State.Digest` | 3rdparty/xxhash/xxhash.h:3278-3291 | the one-shot hash of everything fed, for inputs of every length |
| `Xxh32.HashInPieces` | 3rdparty/xxhash/xxhash.h:3221-3291 | whole runs: any split of the input into updates hashes like the one-shot call |
| `KnownAnswers.Text32` | 3rdparty/xxhash/xxhash.h:3156-3177 | the XXH32 of the same text, two stripes and a tail of both kinds, in numbers |
| `KnownAnswers.Empty32` | 3rdparty/xxhash/xxhash.h:3156-3177 | the XXH32 of nothing, 02CC5D05 |
| `Xxh64.FoldComposes` | 3rdparty/xxhash/xxhash.h:3536-3570 | folding a stripes and then b stripes is folding a + b |
| `Xxh64.ConsumeLong` | 3rdparty/xxhash/xxhash.h:3536-3570 | the loop in place folds every full stripe and returns how far it got |
| `Xxh64.Finalize` | 3rdparty/xxhash/xxhash.h:3610-3642 | the finalizer absorbs exactly the len mod 32 bytes left, whatever else the length says |
| `Xxh64.OneShot` | 3rdparty/xxhash/xxhash.h:3654-3674 | the one-shot code computes the specified hash |
| `Xxh64.SeedLane` | 3rdparty/xxhash/xxhash.h:3773-3781 | while no stripe was consumed the third lane still is the seed |
| `Invertible.XorShiftCancel` | 3rdparty/xxhash/xxhash.h:3503-3511 | `h ^ (h >> k)` loses nothing: equal results come from equal words |
| `Invertible.RotlCancel` | 3rdparty/xxhash/xxhash.h:2797-2797 | a rotation loses nothing |
| `Xxh64.AvalancheCancel` | 3rdparty/xxhash/xxhash.h:3503-3511 | the avalanche loses nothing |
| `Xxh64.TailCancel` | 3rdparty/xxhash/xxhash.h:3610-3633 | absorbing the same tail bytes into two hash values never makes them equal |
| `Xxh64.StreamedIsHash` | 3rdparty/xxhash/xxhash.h:3773-3787 | what the streaming digest computes is the one-shot hash exactly unless a long input looks short after its total wrapped and the lanes left unmerged do not happen to merge to the value used for them: tail and avalanche lose nothing |
| `Xxh64.WrongHashExists` | 3rdparty/xxhash/xxhash.h:3773-3787 | for every seed an input of 2^64 bytes, zeros up to a last stripe that cancels the lanes, is hashed wrongly by streaming |
| `Xxh64.WrapKeepsResidue` | 3rdparty/xxhash/xxhash.h:3783-3786 | the wrapped 64-bit total still gives the right number of buffered bytes |
| `Xxh64.Xxh64State.Reset` | 3rdparty/xxhash/xxhash.h:3718-3724 | an empty, valid state |
| `Xxh64.Xxh64State.Update` | 3rdparty/xxhash/xxhash.h:3727-3769 | the buffer holds the length modulo 32, the lanes the fold over all full stripes, for every update |
| `Xxh64.Xxh64State.Digest` | 3rdparty/xxhash/xxhash.h:3773-3787 | the streamed value for every input, and the one-shot hash exactly for inputs that do not look short after the 64-bit total wrapped |
| `Xxh64.HashInPieces` | 3rdparty/xxhash/xxhash.h:3718-3787 | whole runs: any split of an input below 2^64 bytes hashes like the one-shot call, and of a longer one exactly if it does not look short |
| `KnownAnswers.Text64` | 3rdparty/xxhash/xxhash.h:3654-3674 | the XXH64 of a text of 45 bytes, one stripe and a tail of every kind, in numbers |
| `KnownAnswers.Empty64` | 3rdparty/xxhash/xxhash.h:3654-3674 | the XXH64 of nothing, EF46DB3751D8E999 |
| `Trampoline.IsCodePadding` | 3rdparty/minhook/src/trampoline.cc:364-385 | true exactly for a run of one padding byte 00, 90 or CC |
| `Trampoline.BuiltShape` | 3rdparty/minhook/src/trampoline.cc:116-232 | copied instructions tile the function and the trampoline without gaps; only the last may be the jump back, and only behind 5 bytes |
| `Trampoline.FrozenWhilePending` | 3rdparty/minhook/src/trampoline.cc:219-223 | an instruction before the destination of a pending internal branch keeps its length |
| `Trampoline.DistanceKept` | 3rdparty/minhook/src/trampoline.cc:168-223 | from an internal branch up to its destination the trampoline keeps all distances |
| `Trampoline.FinishedReaches` | 3rdparty/minhook/src/trampoline.cc:131-217 | copying does not stop before the destination of an internal branch is reached |
| `Trampoline.PatchingResolves` | 3rdparty/minhook/src/trampoline.cc:268-293 | filling in the recorded operands one after the other turns the templates into the resolved slots, and touches nothing else |
| `Trampoline.ResolvedAt` | 3rdparty/minhook/src/trampoline.cc:268-293 | the bytes of every slot are found at its offset |
| `Trampoline.PatchIsSafe` | 3rdparty/minhook/src/trampoline.cc:234-257 | if the patch fits, each byte the enable step overwrites from the target on was copied or is padding |
| `Trampoline.BuiltIsUnique` | 3rdparty/minhook/src/trampoline.cc:116-232 | the instructions can be treated in one way only: of two sequences that were built one begins with the other |
| `Trampoline.StopDecides` | 3rdparty/minhook/src/trampoline.cc:116-257 | wherever building stops, at an exit or at an instruction it refuses, decides whether a trampoline can be made at all |
| `Trampoline.NextSlotExactly` | 3rdparty/minhook/src/trampoline.cc:116-226 | by opcodes: an instruction is refused exactly if it cannot be decoded, is an E0 to E3 that leaves, or would change its length below a pending branch; and what it becomes otherwise |
| `Trampoline.EndsExactly` | 3rdparty/minhook/src/trampoline.cc:129-217 | the function is complete exactly at the jump back, or at a jump out or a return (C2, C3) that no branch passes over |
| `Trampoline.PatchRoomExactly` | 3rdparty/minhook/src/trampoline.cc:234-257 | 5 bytes copied or filled with one of 00, 90 and CC; or 2, and 5 such bytes in executable memory above |
| `Trampoline.UnsupportedExactly` | 3rdparty/minhook/src/trampoline.cc:102-258 | no trampoline can be made if and only if some instruction is refused before the function is complete, or the function is too short for the patch |
| `Trampoline.BuiltFromSame` | 3rdparty/minhook/src/trampoline.cc:116-232 | only the bytes up to the end of the last instruction treated decide how a function is relocated |
| `Trampoline.CreateTrampoline.AppendTempAddress` | 3rdparty/minhook/src/trampoline.cc:324-338 | records the operand field and the address of the next instruction |
| `Trampoline.CreateTrampoline.CopyInstruction` | 3rdparty/minhook/src/trampoline.cc:127-217 | each class of instruction is copied, rewritten or refused as specified; `NextSlotExactly` says which, by opcodes |
| `Trampoline.CreateTrampoline.AppendInstruction` | 3rdparty/minhook/src/trampoline.cc:116-232 | one turn of the loop appends the specified slot, or fails exactly when there is none |
| `Trampoline.CreateTrampoline.CreateTrampolineFunction` | 3rdparty/minhook/src/trampoline.cc:102-258 | succeeds exactly when the function can be relocated and has room for the patch; otherwise where it got stuck, at a refused instruction or for lack of room; the slots built, when the jump goes above, and that at least one instruction pointer is recorded |
| `Trampoline.CreateTrampoline.ResolveTemporaryAddresses` | 3rdparty/minhook/src/trampoline.cc:260-308 | the resolved bytes and the absolute old and new instruction pointers; it never fails |
| `Simulation.OperandReaches` | 3rdparty/minhook/src/trampoline.cc:291-292 | an operand relative to the next instruction gives back its destination modulo 2^32 |
| `Simulation.DecodedBranch` | 3rdparty/minhook/src/trampoline.cc:155-207 | a rewritten branch decodes as the same kind of branch, with the same condition, to its original absolute destination |
| `Simulation.FallsThrough` | 3rdparty/minhook/src/trampoline.cc:228-231 | falling through leads to corresponding instructions |
| `Simulation.FlowExactly` | 3rdparty/minhook/src/trampoline.cc:127-217 | by opcodes: a call comes back, a jump is taken, a conditional branch may be, C2 and C3 return, everything else goes on, and where to |
| `Simulation.EventsExactly` | 3rdparty/minhook/src/trampoline.cc:127-217 | by opcodes: what a run records of an instruction |
| `Simulation.CopyLandsExactly` | 3rdparty/minhook/src/trampoline.cc:173-202 | an internal branch copied as it is reaches the copy of its destination exactly when the code between kept its length |
| `Simulation.RewrittenSimulates` | 3rdparty/minhook/src/trampoline.cc:155-207 | a rewritten branch and its original lead to corresponding places under the same condition |
| `Simulation.VerbatimSimulates` | 3rdparty/minhook/src/trampoline.cc:124-125 | a copied instruction and its original lead to corresponding places, an internal branch if it lands (`InternalSimulatesExactly`: exactly then) |
| `Simulation.RunsAlike` | 3rdparty/minhook/src/trampoline.cc:102-258 | from corresponding places, runs under the same conditions have the same trace and corresponding ends, as long as the internal branches that can be reached from there are safe |
| `Simulation.TrampolineSimulates` | 3rdparty/minhook/src/trampoline.cc:102-308 | whole runs, if every internal branch is safe: the trampoline takes the same calls, tests and executes the same instructions and leaves for the same address as the code it was made from; what can be checked on the function without running it |
| `Simulation.SimulatesExactly` | 3rdparty/minhook/src/trampoline.cc:102-308 | whole runs, for every accepted function: all runs of the trampoline, placed apart from the function, do what the function does if and only if every internal branch that the function can reach is safe |
| `Simulation.ForwardLands` | 3rdparty/minhook/src/trampoline.cc:168-223 | a branch to an instruction at or after itself always lands on its copy |
| `Simulation.BackwardLanding` | 3rdparty/minhook/src/trampoline.cc:168-223 | a branch back lands exactly when the instructions in between did not grow, all changes of length taken together |
| `Simulation.BackwardLandingKept` | 3rdparty/minhook/src/trampoline.cc:168-223 | where nothing in between is shortened: exactly when nothing in between is rewritten to another length |
| `Simulation.LandsExactlyIfSafe` | 3rdparty/minhook/src/trampoline.cc:168-223 | an internal branch lands exactly if it leads to an instruction at or after itself, or back over instructions that do not grow |
| `Simulation.InternalSimulatesExactly` | 3rdparty/minhook/src/trampoline.cc:168-223 | taken internal branch and copy lead to corresponding places exactly if the branch is safe |
| `Simulation.ForwardSimulates` | 3rdparty/minhook/src/trampoline.cc:102-308 | whole runs of every function whose internal branches all lead forwards to an instruction, with nothing else assumed |
| `Simulation.ForwardJumpsAreSafe` | 3rdparty/minhook/src/trampoline.cc:168-223 | a function with two internal branches that the theorem applies to |
| `Simulation.BackwardJumpMisses` | 3rdparty/minhook/src/trampoline.cc:173-177 | a function the code accepts whose backward branch lands inside a lengthened instruction |
| `CodeBuffer.FreshKeepsSound` | 3rdparty/minhook/src/buffer.cc:284-300 | a new block disturbs nothing |
| `CodeBuffer.GrowKeepsSound` | 3rdparty/minhook/src/buffer.cc:194-208 | the next buffer of a block is aligned, new, inside its block and apart from all others |
| `CodeBuffer.CommitKeepsSound` | 3rdparty/minhook/src/buffer.cc:154-175 | committing makes every pending buffer live and keeps all counts |
| `CodeBuffer.RollbackKeepsSound` | 3rdparty/minhook/src/buffer.cc:131-152 | rolling back forgets the pending buffers and only those |
| `CodeBuffer.IdleSurvives` | 3rdparty/minhook/src/buffer.cc:131-152 | a rollback does not release a block that was reserved and never used |
| `CodeBuffer.SearchedIdle` | 3rdparty/minhook/src/buffer.cc:212-300 | looking for room leaves an idle block exactly if a new one had to be reserved |
| `CodeBuffer.LeftBehind` | 3rdparty/minhook/src/buffer.cc:180-210 | a request whose pages cannot be committed, followed by a rollback, leaves its block registered without a buffer |
| `CodeBuffer.FreeKeepsSound` | 3rdparty/minhook/src/buffer.cc:105-129 | `fixedCount` is the number of live buffers of a block; freeing the last one, and only that, releases it |
| `CodeBuffer.NothingUncommitted` | 3rdparty/minhook/src/buffer.cc:154-175 | with nothing pending no block has uncommitted space |
| `CodeBuffer.Buffers.GetMemoryBlock` | 3rdparty/minhook/src/buffer.cc:212-300 | the first registered block with that many bytes left of its 64 KB, or else, if all are full, a new one at the end; NULL exactly if neither is to be had |
| `CodeBuffer.Buffers.AllocateBuffer` | 3rdparty/minhook/src/buffer.cc:180-210 | the buffer is cut off the first block with room, or off a new one if all are full; it succeeds exactly when there is room or a block can be reserved and the pages can be committed; the buffer is apart from all others; an idle block is left exactly when a new one had to be reserved and could not be used |
| `CodeBuffer.HasRoomExactly` | 3rdparty/minhook/src/buffer.cc:180-260 | when a request succeeds, by the bytes left in the blocks, the size rounded up to a multiple of 4 |
| `CodeBuffer.Buffers.CommitBuffer` | 3rdparty/minhook/src/buffer.cc:154-175 | the loop commits every block |
| `CodeBuffer.Buffers.RollbackBuffer` | 3rdparty/minhook/src/buffer.cc:131-152 | the loop, which erases while it walks, computes the specified rollback |
| `CodeBuffer.Buffers.FreeBuffer` | 3rdparty/minhook/src/buffer.cc:105-129 | exactly the buffer at p is given up, and its block exactly if nothing is left in it |
| `CodeBuffer.Buffers.UninitializeBuffer` | 3rdparty/minhook/src/buffer.cc:79-88 | nothing is left |
| `Hooks.PatchExactly` | 3rdparty/minhook/src/hook.cc:532-561 | a patch covers 5 bytes from the target on, or 5 above it and 2 from it on |
| `Hooks.OtherRangesKept` | 3rdparty/minhook/src/hook.cc:532-595 | writing one hook's range leaves the ranges of the others alone |
| `Hooks.SwitchKeepsCode` | 3rdparty/minhook/src/hook.cc:532-595 | after a switch, code is what it was except under the jumps of enabled hooks |
| `Hooks.DisabledIsPristine` | 3rdparty/minhook/src/hook.cc:571-595 | the range of a disabled hook holds its original bytes |
| `Hooks.EnabledReachesDetour` | 3rdparty/minhook/src/hook.cc:547-561 | from an enabled hook's function the near jump, or the short jump to the near jump above it, leads to the detour |
| `Hooks.RegisteredTrampolineSimulates` | 3rdparty/minhook/src/hook.cc:216-227 | as long as a hook is registered its trampoline memory holds the resolved copy, which simulates the code that was read when the hook was created, if the internal branches that can be reached are safe |
| `Hooks.CopiedFromPristine` | 3rdparty/minhook/src/hook.cc:184-216 | if no enabled jump covered what was copied, the code that was read gives the very trampoline that the original function gives |
| `Hooks.PatchDestroysNoCode` | 3rdparty/minhook/src/hook.cc:532-561 | every byte that enabling a registered hook overwrites is padding above the function, or belongs to a copied instruction or to padding behind the copied ones, as the original code has it |
| `Hooks.OverlappingBackup` | 3rdparty/minhook/src/hook.cc:243-250 | two hooks that overlap: over all sequences of switches that end with both disabled, the code is restored exactly if the first was disabled when the second was created, or is switched last, or its jump equals the code where they overlap |
| `Hooks.OverlapLeavesJump` | 3rdparty/minhook/src/hook.cc:243-250 | two hooks two bytes apart whose code is not restored |
| `Hooks.WithoutKeepsOwned` | 3rdparty/minhook/src/hook.cc:310-322 | removing a hook gives up its two buffers and no others |
| `Hooks.InsertKeepsRegistered` | 3rdparty/minhook/src/hook.cc:276-278 | inserting at the lower bound keeps the vector strictly sorted and the ranges apart |
| `Hooks.QueueSettled` | 3rdparty/minhook/src/hook.cc:469-527 | after a successful apply every hook is enabled exactly as it was queued |
| `Hooks.RelocationDecides` | 3rdparty/minhook/src/hook.cc:193-250 | whether there is room for a hook depends on the one way its function can be relocated |
| `Hooks.StatusExactly` | 3rdparty/minhook/src/hook.cc:162-256 | when a function is unsupported, and when it is hooked: by opcodes, padding and the bytes left in the blocks |
| `Hooks.AllDisabledRestores` | 3rdparty/minhook/src/hook.cc:633-667 | with no hook enabled all code is what it was |
| `Hooks.HookManager.LowerBound` | 3rdparty/minhook/src/hook.cc:669-679 | binary search over the sorted vector splits it at the target |
| `Hooks.HookManager.FindHook` | 3rdparty/minhook/src/hook.cc:669-679 | finds the hook of a target exactly when there is one |
| `Hooks.HookManager.EnableHookLL` | 3rdparty/minhook/src/hook.cc:532-569 | writes the jump and sets both flags, or changes nothing if memory cannot be made writable |
| `Hooks.HookManager.DisableHookLL` | 3rdparty/minhook/src/hook.cc:571-595 | puts the original bytes back and clears both flags, or changes nothing |
| `Hooks.HookManager.MovedIPs` | 3rdparty/minhook/src/hook.cc:479-499 | the pairs collected are exactly those of the hooks to be switched, from the function to the trampoline or back; there are some exactly if some hook is to be switched |
| `Hooks.HookManager.SwitchHooks` | 3rdparty/minhook/src/hook.cc:501-523 | all hooks switched as wanted, or those before the first whose memory cannot be made writable; no memory changes but under hooks |
| `Hooks.HookManager.ApplyQueued` | 3rdparty/minhook/src/hook.cc:469-527 | on success `isEnabled == queueEnable` for every hook |
| `Hooks.HookManager.EnableAllHooksLL` | 3rdparty/minhook/src/hook.cc:597-631 | all hooks enabled, or those before the first failure |
| `Hooks.HookManager.DisableAllHooksLL` | 3rdparty/minhook/src/hook.cc:633-667 | all hooks disabled, or those before the first failure |
| `Hooks.HookManager.EnableHook` | 3rdparty/minhook/src/hook.cc:329-366 | the status and effect for one hook or for all; no memory changes but under that hook, or under hooks |
| `Hooks.HookManager.DisableHook` | 3rdparty/minhook/src/hook.cc:368-405 | the status and effect for one hook or for all; no memory changes but under that hook, or under hooks |
| `Hooks.HookManager.QueueHook` | 3rdparty/minhook/src/hook.cc:407-467 | only the queue flag of the target, or of all hooks, changes |
| `Hooks.HookManager.PlaceTrampoline` | 3rdparty/minhook/src/hook.cc:193-222 | the trampoline buffer is pending, holds the resolved bytes and overlaps neither code nor other buffers; the instruction pointers of function and trampoline, one by one |
| `Hooks.HookManager.PlaceBackup` | 3rdparty/minhook/src/hook.cc:235-250 | the backup buffer holds the bytes about to be overwritten |
| `Hooks.HookManager.Register` | 3rdparty/minhook/src/hook.cc:260-278 | commits the two buffers and inserts the entry in order |
| `Hooks.HookManager.CreateHook` | 3rdparty/minhook/src/hook.cc:162-283 | for patches that do not overlap: the exact status from the state before and the answers of the system; on failure the live buffers are as before, though a reserved block may stay; on success a disabled hook with the copy of the code as it was and its instruction pointers; no memory changes outside the allocator's blocks |
| `Hooks.HookManager.RemoveHook` | 3rdparty/minhook/src/hook.cc:285-327 | the exact status (the memory matters only for an enabled hook); on success the hook is gone, its code restored and its two buffers freed; otherwise nothing changes; no other memory does |
| `Hooks.HookManager.Initialize` | 3rdparty/minhook/src/hook.cc:104-118 | succeeds exactly once |
| `Hooks.HookManager.Uninitialize` | 3rdparty/minhook/src/hook.cc:120-144 | all code restored and everything freed, or nothing freed if a hook cannot be disabled |
| `Rooms.NextIndexIsNextId` | server/room.go:91-97 | the n-th allocation walks the cycle of the 2^32-1 non-zero ids |
| `Rooms.SameId` | server/room.go:91-97 | two allocations share an id exactly when a whole number of cycles separates them |
| `Rooms.RoomManager.RegisterHost` | server/room.go:104-150 | takes the code given, or the first free one of ten generated, or fails exactly when none is free |
| `Rooms.RoomManager.JoinClient` | server/room.go:155-207 | the outcome for missing, expired, non-waiting and waiting rooms and for each write that fails; a room that is not joined stays as it is |
| `Rooms.RoomManager.FindByMatchIdLocked` | server/room.go:332-340 | a matched room with that id, or none exists |
| `Rooms.RoomManager.RecordPeerUdpAddr` | server/room.go:212-277 | the sender's address is recorded and sent once; a failed write leaves it recorded, unsent, and gives no peer; addresses forwarded are never overwritten; completion schedules the deletion of this room |
| `Rooms.RoomManager.DeleteIfMatch` | server/room.go:293-300 | removes the room under the code exactly if its id matches |
| `Rooms.RoomManager.RunDeferred` | server/room.go:268-300 | a pending deletion removes its own room, or another one only if whole id cycles lie between them |
| `Rooms.RoomManager.DeleteIfSame` | server/room.go:307-313 | removes exactly the room it was given, if it is live |
| `Rooms.RoomManager.Cleanup` | server/room.go:317-328 | removes exactly the expired rooms and counts them |
| `Rooms.RoomManager.SameRoomIds` | server/room.go:91-97 | two matched rooms share an id exactly when whole id cycles separate them |
| `Rooms.RoomManager.LookupIsDeterministic` | server/room.go:332-340 | while less than a cycle separates live rooms, at most one has an id, so map order does not matter |
| `Rooms.RoomManager.OthersUntouched` | server/room.go:155-277 | a step on one room leaves the history of all others as it was |
| `Rooms.RoomManager.TracesFollowGrammar` | server/room.go:155-277 | in every run what any connection ever given was sent is a prefix of [MatchInfo(m), TunInfo(m, a)] |
| `Rooms.RoomManager.PeersAgree` | server/room.go:155-277 | both peers get the same id, the client only after the host, and each the address recorded for the other |
| `Framing.ReadInitialMessage` | server/tcp_listener.go:138-163 | what is cut off any stream and what is left |
| `Framing.HandleTCPConn` | server/tcp_listener.go:85-109 | what any stream leads to: redirect, close, error reply or an accepted message |
| `Framing.ReaderAndClassifierAgree` | server/protocol.go:217-248 | for a valid type byte the branch the reader takes is the one the classifier takes |
| `Framing.HostRegisterRoundTrip` | server/protocol.go:124-147 | every well-formed host registration is read with its own length and decoded to its own fields, whatever follows |
| `Framing.ClientJoinRoundTrip` | server/protocol.go:156-172 | a client join is read as itself exactly when the second byte of its code exceeds 4 |
| `Framing.AlphabetJoinRoundTrip` | server/tcp_listener.go:138-163 | codes of the room alphabet always qualify |
| `Framing.AcceptedWasEncoded` | server/protocol.go:124-172 | an accepted stream begins with the encoding of what was accepted |
| `Framing.NeverHttp` | server/tcp_listener.go:327-360 | a well-formed message is never taken for HTTP, TRACE included |
| `Framing.RedirectedExactly` | server/tcp_listener.go:343-360 | a stream is redirected exactly if it begins with GET and a blank, HEAD, POST, PUT and a blank, DELE, CONN, OPTI, TRAC or PATC |
| `Framing.RequestsAreRedirected` | server/tcp_listener.go:343-360 | every request line of HTTP is redirected, and nothing is taken off it |
| `Framing.HandledExactly` | server/tcp_listener.go:85-163 | byte by byte what any other stream leads to: closed, an error reply, or the message accepted, and what is left |
| `Framing.HostDecoderExactly` | server/protocol.go:124-147 | byte by byte what the host decoder takes, and why it refuses |
| `Framing.JoinDecoderExactly` | server/protocol.go:156-172 | byte by byte what the join decoder takes, and why it refuses |
| `Framing.AlphabetExactly` | server/protocol.go:59-59 | the letters of room codes, one by one |
| `AirDash.AirDashMacro.Reset` | src/dll/input/air_dash_macro.cpp:32-35 | back to idle whatever the state was |
| `AirDash.AirDashMacro.Step` | src/dll/input/air_dash_macro.cpp:37-90 | one frame: output, marker and next state |
| `AirDash.AirDashMacro.Transduce` | src/dll/input/air_dash_macro.cpp:37-90 | a whole input stream through the object equals the run of the transducer |
| `AirDash.RunFinishesBurst` | src/dll/input/air_dash_macro.cpp:55-70 | from inside a burst the run emits the rest of it and continues from idle |
| `AirDash.RunIsTheParse` | src/dll/input/air_dash_macro.cpp:37-90 | whole runs: the output is the one and only sequence that parses into raw frames and bursts, the last possibly cut short |
| `AirDash.BurstShape` | src/dll/input/air_dash_macro.cpp:55-86 | k button-free frames of 7 or 9, only the first marked, then 4 or 6 with A, B and AB |
| `AirDash.TriggersAreApart` | src/dll/input/air_dash_macro.cpp:72-86 | burst starts are at least k + 1 frames apart |
| `AirDash.HoldingRepeats` | src/dll/input/air_dash_macro.cpp:13-16 | holding the trigger repeats the burst with period k + 1 |
| `AirDash.TriggersExactly` | src/dll/input/air_dash_macro.cpp:72-86 | exactly ten input words start a burst |
| `AirDash.BurstWords` | src/dll/input/air_dash_macro.cpp:55-86 | a burst word by word |
| `Ini.TrimIsTrimmed` | src/common/string_utils.hpp:12-20 | trimming changes nothing exactly for text that neither starts nor ends with white space |
| `Ini.TrimText` | src/common/string_utils.hpp:14-20 | the two loops compute it |
| `Ini.InsertKeeps` | src/common/ini.cpp:118-118 | inserting a key keeps a section strictly ascending and adds just that key |
| `Ini.PutKeepsOk` | src/common/ini.cpp:109-119 | setting a value keeps the document consistent |
| `Ini.Document.Parse` | src/common/ini.cpp:18-77 | the parser with its position, section and continuation loop computes the fold over the lines |
| `Ini.Document.Dump` | src/common/ini.cpp:79-98 | sections in the order they came, keys ascending |
| `Ini.Document.Get` | src/common/ini.cpp:100-107 | the value, if any |
| `Ini.Document.Set` | src/common/ini.cpp:109-119 | overwrites or inserts the one value |
| `Ini.EntryLine` | src/common/ini.cpp:42-67 | a printed line is understood as its entry exactly if that is well formed |
| `Ini.ParseEntry` | src/common/ini.cpp:56-75 | the line of a well-formed entry sets it and consumes nothing else, unless a final backslash can draw in the next line |
| `Ini.ParseSection` | src/common/ini.cpp:46-75 | a printed section is read back whole, in the same order; a value may end in a backslash where nothing follows |
| `Ini.RoundTrip` | src/common/ini.cpp:18-98 | for well-formed documents no lookup changes by printing and parsing; the last value printed may end in a backslash |
| `Ini.DumpIsStable` | src/common/ini.cpp:18-98 | saving, loading and saving a well-formed document writes the same text again |
| `Ini.SurvivesExactlyIf` | src/common/ini.cpp:18-98 | an entry of its own is read back exactly if its section name and it are well formed |
| `IniText.SpacedEntry` | src/common/ini.cpp:33-67 | blanks, tabs and carriage returns anywhere around key and value do not count |
| `IniText.SpacedHeader` | src/common/ini.cpp:36-50 | nor around a header, its brackets and its name |
| `IniText.IgnoredLine` | src/common/ini.cpp:33-60 | blank lines, comments with # or ;, and lines without = or without a key say nothing |
| `IniText.ContinuedValue` | src/common/ini.cpp:62-72 | a backslash at the end of a value is replaced by the next line, blanks trimmed |
| `IniText.LastLine` | src/common/ini.cpp:23-31 | the last line needs no line end |
| `IniText.LineEndsDoNotMatter` | src/common/ini.cpp:18-77 | every text means the same with CR LF for LF |
| `IniText.PrintedText` | src/common/ini.cpp:79-98 | how two sections are printed, character by character |
| `IniText.LessExactly` | src/common/ini.cpp:79-98 | the order of keys: a proper beginning first, otherwise by the first character that differs |
| `IniExact.Growth` | src/common/ini.cpp:18-77 | parsing sets at most one key for each line that is an entry of its own |
| `IniExact.PairsCount` | src/common/ini.cpp:79-98 | the printed text has one line for each pair of section and key |
| `IniExact.NotSwallowed` | src/common/ini.cpp:62-72 | a value that comes back as it was did not go on in the next line |
| `IniExact.LoadedMayChange` | src/common/ini.cpp:62-72 | a text whose document does not survive: its value is continued by a blank line and ends in a space |
| `IniExact.RoundTripExactly` | src/common/ini.cpp:18-98 | for every document: printing and parsing changes no lookup if and only if it is well formed |
| `Mapping.ParsePrinted` | src/common/controller/mapping.cpp:185-205 | reading the decimal form of a number gives the number |
| `Mapping.BindingRoundTrip` | src/common/controller/mapping.cpp:143-216 | parsing a serialized binding gives it back exactly if an empty binding has index 0 |
| `Mapping.ReadBindingIsStable` | src/common/controller/mapping.cpp:169-216 | whatever text a binding was read from, it is written in a form that reads the same |
| `MappingText.ReadsExactly` | src/common/ini.cpp:128-138 | what is read of any text: C white space, a sign and digits by position; the rest does not count |
| `MappingText.PrintsExactly` | src/common/controller/mapping.cpp:292-316 | numbers are printed in decimal without leading zeros |
| `MappingText.SignedRange` | src/common/ini.cpp:128-138 | a printed number is read exactly if 64 bits hold it |
| `MappingText.UnsignedRange` | src/common/controller/mapping.cpp:185-211 | an index exactly if 32 bits hold its amount; a negative one counts from above |
| `MappingText.PlainExactly` | src/common/controller/mapping.cpp:143-197 | buttons, axes and keys: the prefix, and the lower 16 bits of any number |
| `MappingText.HatExactly` | src/common/controller/mapping.cpp:143-211 | hats: both numbers and the bytes they go to |
| `MappingText.UnboundExactly` | src/common/controller/mapping.cpp:169-216 | everything else is no binding |
| `Mapping.SavedGets` | src/common/controller/mapping.cpp:292-316 | every key of the saved player holds its value and the other player's keys are untouched |
| `MappingText.SavedExactly` | src/common/controller/mapping.cpp:292-316 | every field is saved under its name, the names spelled out |
| `Mapping.SavePlayer` | src/common/controller/mapping.cpp:292-316 | the sets have the specified effect |
| `Mapping.ControllerMapping.LoadPlayer` | src/common/controller/mapping.cpp:318-362 | overwrites what the document says, with the casts and clamps |
| `MappingText.FramesExactly` | src/common/controller/mapping.cpp:349-361 | frame counts are taken to the nearest number in 1 to 30, 0 to 30 and 1 to 30 |
| `MappingText.NumbersExactly` | src/common/controller/mapping.cpp:320-348 | the other numbers modulo the width of their field, a SOCD mode of 0 as 1 |
| `MappingText.BindingsExactly` | src/common/controller/mapping.cpp:323-336 | every binding comes from its key, or stays |
| `MappingText.SwitchExactly` | src/common/ini.cpp:140-154 | the four words for yes and for no, in any case; anything else leaves the switch |
| `MappingText.AbsentKeeps` | src/common/controller/mapping.cpp:318-362 | a field whose key is absent or holds no number keeps its value |
| `Mapping.LoadedIsSaved` | src/common/controller/mapping.cpp:318-362 | loading what was saved gives the same mapping exactly if it is canonical |
| `Mapping.SaveMapping` | src/common/controller/mapping.cpp:366-387 | the text written for both players, a well-formed document |
| `Mapping.LoadMapping` | src/common/controller/mapping.cpp:389-401 | both players loaded, or nothing changed if there is no file |
| `Mapping.MappingsRoundTrip` | src/common/controller/mapping.cpp:366-401 | through the text, each player's mapping comes back exactly if it is canonical, whatever was held before |

## Left out

- The short-input mixers of XXH3 (0 to 240 bytes), its avalanches and merges: they are parameters of the model (`Kernels`), the same for the one-shot and the streaming hash, so only the choice between short and long and the data passed to them is modelled.
- NULL inputs of the hash functions are taken as empty inputs; one-shot inputs are shorter than 2^64 bytes.
- SIMD variants other than SSE2, prefetching, alignment and big-endian branches of xxHash, and hash quality.
- XXH3 inputs of 2^64 bytes or more: its 64-bit total wraps too, and nothing is stated for lengths that no one-shot call can take.
- The x64 branches of MinHook, the instruction decoder behind the disassembler, and thread suspension: the instruction pointers are proved to be recorded, not how threads are moved.
- Trampoline code that jumps into the middle of a copied instruction: it is accepted, counts as an unsafe branch, and is not told apart where it would happen to do the same.
- Simulation.TrampolineSimulates: assumes that every internal branch is safe (`AllSafe`); `SimulatesExactly` is the condition in both directions; operands other than branch destinations are taken to be position independent, as in 32-bit code.
- Hooks.HookManager.CreateHook: the 64 bytes from the target on and the 5 bytes above are readable; overlapping patches are excluded by a precondition (`MayPatch`) and treated apart from the manager, on its memory operations alone (`OverlappingBackup`).
- Contents of released memory, and changes to hooked code by anyone else.
- CodeBuffer.Buffers.AllocateBuffer: requests whose rounding wraps to 0 are excluded, as the assertions in the code do; the page protection of committed buffers is not modelled.
- Rooms: sockets, time-outs and the goroutines that call the manager; `Hosted` is written outside the lock and its order with MatchInfo is not protected; the unconditional delete after a failed `Hosted` write is modelled as a method but promises nothing about whose room it removes.
- The UDP listener and the remaining message encoders, which are flat.
- Mapping.SavePlayer: sets the keys in a loop over their list, where the code has one call after the other.
- Atomic replacement of files, logging, labels of bindings and the default mapping; the configuration file, whose multi-line relay lists the INI grammar cannot carry.
- Characters are taken one by one; the 8-bit encoding of the files is not modelled, and enumerators outside the declared input types do not occur.
- GUI, rendering, process and memory access, connection detection, the client-side protocol and the rollback engine.
