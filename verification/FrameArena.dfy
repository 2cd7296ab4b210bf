/** The byte arena behind the delay ring (src/frame-arena.hpp, src/frame-arena.cpp). */
module FrameArena {
  import opened Words

  const ALIGNMENT: nat := 64

  function RoundUp(bytes: nat): (r: nat)
    ensures bytes <= r < bytes + ALIGNMENT && r % ALIGNMENT == 0
  {
    (bytes + ALIGNMENT - 1) / ALIGNMENT * ALIGNMENT
  }

  datatype Config = Config(blockBytes: nat, limitBytes: nat, maxSpareBlocks: nat)

  const MIB: nat := 1024 * 1024
  const MIN_SIZED_BLOCK_BYTES: nat := 4 * MIB
  const MAX_SIZED_BLOCK_BYTES: nat := 8 * MIB

  ghost predicate WholePayloads(blockBytes: nat, unit: nat) {
    exists frames: nat :: frames >= 1 && blockBytes == frames * unit
  }

  /** The least whole number of MiB that 64 of hold the expected bytes, between the two limits. */
  function SizedBlock(expectedBytes: nat): (block: nat)
    ensures MIN_SIZED_BLOCK_BYTES <= block <= MAX_SIZED_BLOCK_BYTES && block % MIB == 0
    ensures block < MAX_SIZED_BLOCK_BYTES ==> block >= expectedBytes / 64
    ensures block > MIN_SIZED_BLOCK_BYTES ==> block - MIB < expectedBytes / 64
  {
    Max(MIN_SIZED_BLOCK_BYTES, Min((expectedBytes / 64 + MIB - 1) / MIB * MIB, MAX_SIZED_BLOCK_BYTES))
  }

  /** As many payloads as a block holds, but at least one. */
  function PayloadBlock(block: nat, unit: nat): (bytes: nat)
    requires unit > 0
    ensures WholePayloads(bytes, unit) && bytes <= Max(block, unit) && block < bytes + unit
  {
    var frames := Max(1, block / unit);
    assert WholePayloads(frames * unit, unit);
    frames * unit
  }

  /** The arena of a ring expected to hold expectedBytes: blocks between 4 and 8 MiB, or a whole number
      of fixed-size payloads, and a limit that always leaves room for two blocks past the expected bytes. */
  function SizedFor(expectedBytes: nat, budgetBytes: nat, fixedPayloadBytes: nat): (c: Config)
    ensures fixedPayloadBytes == 0 ==> MIN_SIZED_BLOCK_BYTES <= c.blockBytes <= MAX_SIZED_BLOCK_BYTES
    ensures fixedPayloadBytes > 0 ==> WholePayloads(c.blockBytes, RoundUp(fixedPayloadBytes))
    ensures c.limitBytes >= budgetBytes && c.limitBytes >= expectedBytes + 2 * c.blockBytes
    ensures c.limitBytes == budgetBytes || c.limitBytes == expectedBytes + 2 * c.blockBytes
    ensures var block := SizedBlock(expectedBytes);
            if fixedPayloadBytes == 0 then c.blockBytes == block
            else c.blockBytes <= Max(block, RoundUp(fixedPayloadBytes)) && block < c.blockBytes + RoundUp(fixedPayloadBytes)
  {
    var sized := SizedBlock(expectedBytes);
    var block := if fixedPayloadBytes == 0 then sized else PayloadBlock(sized, RoundUp(fixedPayloadBytes));
    Config(block, Max(budgetBytes, expectedBytes + 2 * block), 1)
  }

  /** A handle: `memory` and `offset` are the data pointer, `bytes` the reserved size as a 32-bit value. */
  datatype Allocation = NoAllocation | Allocation(memory: nat, offset: nat, block: nat, bytes: U32)

  /** memory: the address the operating system gave the block, None once released. */
  datatype Block = Block(memory: Option<nat>, capacity: nat, used: nat, live: nat, oversized: bool, spare: bool)
  const RELEASED := Block(None, 0, 0, 0, false, false)

  datatype Stats = Stats(committedBytes: nat, peakCommittedBytes: nat, liveBytes: nat, blocks: nat,
                         spareBlocks: nat, failedAllocations: nat, releasedBlocks: nat)

  /** A live allocation as the arena's user sees it: size bytes of one block's memory. */
  datatype Piece = Piece(memory: nat, block: nat, offset: nat, size: nat)

  predicate Overlap(p: Piece, q: Piece) {
    p.memory == q.memory && p.offset < q.offset + q.size && q.offset < p.offset + p.size
  }

  function HandleOf(p: Piece): Allocation {
    Allocation(p.memory, p.offset, p.block, Wrap32(p.size))
  }

  // --- Totals over the blocks and over the live pieces ---

  function Capacity(b: Block): nat { b.capacity }
  function Mapped(b: Block): nat { if b.memory.Some? then 1 else 0 }
  function EmptyOversized(b: Block): nat { if b.memory.Some? && b.oversized && b.live == 0 then 1 else 0 }

  function Tally(blocks: seq<Block>, f: Block -> nat): nat {
    if blocks == [] then 0 else f(blocks[0]) + Tally(blocks[1..], f)
  }

  lemma {:induction false} TallyUpdate(blocks: seq<Block>, id: nat, b: Block, f: Block -> nat)
    requires id < |blocks|
    ensures Tally(blocks[id := b], f) + f(blocks[id]) == Tally(blocks, f) + f(b)
  {
    if id == 0 {
      assert blocks[0 := b][1..] == blocks[1..];
    } else {
      assert blocks[id := b][1..] == blocks[1..][id - 1 := b];
      TallyUpdate(blocks[1..], id - 1, b, f);
    }
  }

  lemma {:induction false} TallyAppend(blocks: seq<Block>, b: Block, f: Block -> nat)
    ensures Tally(blocks + [b], f) == Tally(blocks, f) + f(b)
  {
    if blocks == [] {
      assert [b][1..] == [];
    } else {
      assert (blocks + [b])[1..] == blocks[1..] + [b];
      TallyAppend(blocks[1..], b, f);
    }
  }

  lemma {:induction false} TallyMember(blocks: seq<Block>, id: nat, f: Block -> nat)
    requires id < |blocks|
    ensures f(blocks[id]) <= Tally(blocks, f)
  {
    if id > 0 {
      TallyMember(blocks[1..], id - 1, f);
    }
  }

  lemma {:induction false} TallyZero(blocks: seq<Block>, f: Block -> nat)
    requires forall id :: 0 <= id < |blocks| ==> f(blocks[id]) == 0
    ensures Tally(blocks, f) == 0
  {
    if blocks != [] {
      TallyZero(blocks[1..], f);
    }
  }

  ghost function TotalSize(live: set<Piece>): nat {
    if live == {} then 0 else var p :| p in live; p.size + TotalSize(live - {p})
  }

  lemma {:induction false} TotalSizeWithout(live: set<Piece>, p: Piece)
    requires p in live
    ensures TotalSize(live) == p.size + TotalSize(live - {p})
    decreases live
  {
    var q :| q in live && TotalSize(live) == q.size + TotalSize(live - {q});
    if q != p {
      TotalSizeWithout(live - {q}, p);
      TotalSizeWithout(live - {p}, q);
      assert live - {q} - {p} == live - {p} - {q};
    }
  }

  lemma TotalSizeWith(live: set<Piece>, p: Piece)
    requires p !in live
    ensures TotalSize(live + {p}) == TotalSize(live) + p.size
  {
    TotalSizeWithout(live + {p}, p);
    assert live + {p} - {p} == live;
  }

  ghost function PiecesIn(live: set<Piece>, id: nat): set<Piece> {
    set p | p in live && p.block == id
  }

  // --- The representation invariant ---

  /** The bookkeeping, as one value: what the class keeps in its fields, and the live pieces. */
  datatype Arena = Arena(blocks: seq<Block>, spare: seq<nat>, vacant: seq<nat>, current: Option<nat>,
                         emptyOversized: nat, live: set<Piece>)

  ghost predicate Distinct(s: seq<nat>) {
    forall i, j :: 0 <= i < j < |s| ==> s[i] != s[j]
  }

  /** A block counts the pieces inside it, which lie in its used prefix, and starts over when it has none. */
  ghost predicate BlockOk(a: Arena, id: nat, unit: nat)
    requires id < |a.blocks|
  {
    var b := a.blocks[id];
    && b.live == |PiecesIn(a.live, id)|
    && b.used <= b.capacity && b.used % ALIGNMENT == 0
    && (b.memory.None? ==> b == RELEASED)
    && (b.memory.Some? ==> if b.oversized then b.capacity > unit && b.live <= 1 else b.capacity == unit)
  }

  /** Whether an empty standard block is on the spare list, and whether its memory starts over. */
  ghost predicate BlockSettled(a: Arena, id: nat)
    requires id < |a.blocks|
  {
    var b := a.blocks[id];
    && (b.spare <==> b.memory.Some? && !b.oversized && b.live == 0 && a.current != Some(id))
    && (b.live == 0 ==> b.used == 0)
  }

  ghost predicate PieceOk(a: Arena, p: Piece) {
    && p.block < |a.blocks|
    && a.blocks[p.block].memory == Some(p.memory)
    && p.size > 0 && p.size % ALIGNMENT == 0 && p.offset % ALIGNMENT == 0
    && p.offset + p.size <= a.blocks[p.block].used
  }

  ghost predicate Blocks(a: Arena, unit: nat) {
    forall id :: 0 <= id < |a.blocks| ==> BlockOk(a, id, unit)
  }

  ghost predicate Settled(a: Arena, open: Option<nat>) {
    forall id :: 0 <= id < |a.blocks| && Some(id) != open ==> BlockSettled(a, id)
  }

  ghost predicate Pieces(a: Arena) {
    && (forall p :: p in a.live ==> PieceOk(a, p))
    && (forall p, q :: p in a.live && q in a.live && p != q ==> !Overlap(p, q))
  }

  ghost predicate Memories(a: Arena) {
    forall i, j :: 0 <= i < j < |a.blocks| && a.blocks[i].memory.Some? ==> a.blocks[i].memory != a.blocks[j].memory
  }

  ghost predicate Lists(a: Arena) {
    && Distinct(a.spare) && (forall id: nat :: id in a.spare <==> id < |a.blocks| && a.blocks[id].spare)
    && Distinct(a.vacant) && (forall id: nat :: id in a.vacant <==> id < |a.blocks| && a.blocks[id].memory.None?)
  }

  ghost predicate CurrentOk(a: Arena) {
    a.current.Some? ==> a.current.value < |a.blocks| && a.blocks[a.current.value].memory.Some?
                        && !a.blocks[a.current.value].oversized
  }

  ghost predicate OpenOk(a: Arena, open: Option<nat>) {
    open.Some? ==> open.value < |a.blocks| && a.blocks[open.value].memory.Some? && a.current != open
                   && a.blocks[open.value].live == 0 && !a.blocks[open.value].spare
  }

  ghost predicate Counted(a: Arena, open: Option<nat>)
    requires OpenOk(a, open)
  {
    a.emptyOversized + (if open.Some? then EmptyOversized(a.blocks[open.value]) else 0)
    == Tally(a.blocks, EmptyOversized)
  }

  /** open: a block with no live piece that the operation under way has in hand (just created, or just
      emptied): not yet the current block, a spare, or counted as an empty oversized one. */
  ghost predicate Wf(a: Arena, unit: nat, open: Option<nat>) {
    && Blocks(a, unit) && Settled(a, open) && Pieces(a) && Memories(a) && Lists(a)
    && CurrentOk(a) && OpenOk(a, open) && Counted(a, open)
  }

  // --- The steps, on that value ---

  lemma PiecesInWith(live: set<Piece>, p: Piece, id: nat)
    requires p !in live
    ensures PiecesIn(live + {p}, id) == if p.block == id then PiecesIn(live, id) + {p} else PiecesIn(live, id)
    ensures |PiecesIn(live + {p}, id)| == |PiecesIn(live, id)| + (if p.block == id then 1 else 0)
  {
    assert PiecesIn(live + {p}, id) == if p.block == id then PiecesIn(live, id) + {p} else PiecesIn(live, id);
  }

  lemma PiecesInWithout(live: set<Piece>, p: Piece, id: nat)
    requires p in live
    ensures |PiecesIn(live - {p}, id)| + (if p.block == id then 1 else 0) == |PiecesIn(live, id)|
  {
    assert live - {p} + {p} == live;
    PiecesInWith(live - {p}, p, id);
  }

  lemma NoPieces(a: Arena, unit: nat, open: Option<nat>, id: nat)
    requires Wf(a, unit, open) && id < |a.blocks| && a.blocks[id].live == 0
    ensures forall p :: p in a.live ==> p.block != id
  {
    assert BlockOk(a, id, unit);
    forall p | p in a.live
      ensures p.block != id
    {
      assert p.block == id ==> p in PiecesIn(a.live, id);
    }
  }

  ghost predicate FreshMemory(a: Arena, memory: nat) {
    forall id :: 0 <= id < |a.blocks| ==> a.blocks[id].memory != Some(memory)
  }

  function NextId(a: Arena): nat {
    if a.vacant != [] then a.vacant[|a.vacant| - 1] else |a.blocks|
  }

  function WithNewBlock(a: Arena, memory: nat, capacity: nat, oversized: bool): Arena
    requires a.vacant != [] ==> a.vacant[|a.vacant| - 1] < |a.blocks|
  {
    var b := Block(Some(memory), capacity, 0, 0, oversized, false);
    if a.vacant != [] then
      a.(blocks := a.blocks[a.vacant[|a.vacant| - 1] := b], vacant := a.vacant[..|a.vacant| - 1])
    else
      a.(blocks := a.blocks + [b])
  }

  lemma VacantId(a: Arena, unit: nat)
    requires Wf(a, unit, None)
    ensures a.vacant != [] ==> NextId(a) < |a.blocks| && a.blocks[NextId(a)] == RELEASED
  {
    if a.vacant != [] {
      assert NextId(a) in a.vacant;
      assert BlockOk(a, NextId(a), unit);
    }
  }

  lemma NewBlockKeeps(a: Arena, unit: nat, memory: nat, capacity: nat, oversized: bool)
    requires Wf(a, unit, None) && FreshMemory(a, memory)
    requires if oversized then capacity > unit else capacity == unit
    requires a.vacant != [] ==> a.vacant[|a.vacant| - 1] < |a.blocks|
    ensures Wf(WithNewBlock(a, memory, capacity, oversized), unit, Some(NextId(a)))
    ensures var a' := WithNewBlock(a, memory, capacity, oversized);
            && Tally(a'.blocks, Capacity) == Tally(a.blocks, Capacity) + capacity
            && Tally(a'.blocks, Mapped) == Tally(a.blocks, Mapped) + 1
  {
    VacantId(a, unit);
    var id := NextId(a);
    var a' := WithNewBlock(a, memory, capacity, oversized);
    var b := a'.blocks[id];
    if a.vacant != [] {
      TallyUpdate(a.blocks, id, b, Capacity);
      TallyUpdate(a.blocks, id, b, Mapped);
      TallyUpdate(a.blocks, id, b, EmptyOversized);
    } else {
      TallyAppend(a.blocks, b, Capacity);
      TallyAppend(a.blocks, b, Mapped);
      TallyAppend(a.blocks, b, EmptyOversized);
    }
    NewBlockKeepsBlocks(a, unit, memory, capacity, oversized);
    NewBlockKeepsLists(a, unit, memory, capacity, oversized);
  }

  lemma NewBlockKeepsBlocks(a: Arena, unit: nat, memory: nat, capacity: nat, oversized: bool)
    requires Wf(a, unit, None) && FreshMemory(a, memory)
    requires if oversized then capacity > unit else capacity == unit
    requires a.vacant != [] ==> a.vacant[|a.vacant| - 1] < |a.blocks|
    ensures var a' := WithNewBlock(a, memory, capacity, oversized);
            Blocks(a', unit) && Settled(a', Some(NextId(a))) && Pieces(a') && Memories(a')
  {
    VacantId(a, unit);
    var id := NextId(a);
    var a' := WithNewBlock(a, memory, capacity, oversized);
    assert PiecesIn(a'.live, id) == {} by {
      if a.vacant != [] {
        NoPieces(a, unit, None, id);
      }
    }
    forall k | 0 <= k < |a'.blocks|
      ensures BlockOk(a', k, unit)
      ensures k != id ==> BlockSettled(a', k)
    {
      if k != id {
        assert BlockOk(a, k, unit) && BlockSettled(a, k);
      }
    }
    assert forall p :: p in a.live ==> PieceOk(a, p) && PieceOk(a', p);
  }

  lemma NewBlockKeepsLists(a: Arena, unit: nat, memory: nat, capacity: nat, oversized: bool)
    requires Wf(a, unit, None)
    requires a.vacant != [] ==> a.vacant[|a.vacant| - 1] < |a.blocks|
    ensures Lists(WithNewBlock(a, memory, capacity, oversized))
  {
    VacantId(a, unit);
    var id := NextId(a);
    var a' := WithNewBlock(a, memory, capacity, oversized);
    if a.vacant != [] {
      assert a.vacant == a'.vacant + [id];
      assert a'.blocks[id].memory.Some? && !a'.blocks[id].spare;
      forall v: nat
        ensures v in a'.vacant <==> v < |a'.blocks| && a'.blocks[v].memory.None?
      {
        assert v in a.vacant <==> v in a'.vacant || v == id;
      }
    }
  }

  // A piece put at the end of a block's used prefix.

  function PieceAt(a: Arena, id: nat, size: nat): Piece
    requires id < |a.blocks| && a.blocks[id].memory.Some?
  {
    Piece(a.blocks[id].memory.value, id, a.blocks[id].used, size)
  }

  function WithPiece(a: Arena, id: nat, size: nat): Arena
    requires id < |a.blocks| && a.blocks[id].memory.Some?
  {
    var b := a.blocks[id];
    a.(blocks := a.blocks[id := b.(used := b.used + size, live := b.live + 1)], live := a.live + {PieceAt(a, id, size)})
  }

  /** Where a piece may go: the current block, or a new oversized block made for it. */
  ghost predicate Takes(a: Arena, open: Option<nat>, id: nat, size: nat) {
    && id < |a.blocks| && a.blocks[id].memory.Some?
    && size > 0 && size % ALIGNMENT == 0 && a.blocks[id].used + size <= a.blocks[id].capacity
    && if a.blocks[id].oversized then open == Some(id) else open.None? && a.current == Some(id)
  }

  lemma PieceKeeps(a: Arena, unit: nat, open: Option<nat>, id: nat, size: nat)
    requires Wf(a, unit, open) && Takes(a, open, id, size)
    ensures PieceAt(a, id, size) !in a.live
    ensures Wf(WithPiece(a, id, size), unit, None)
    ensures var a' := WithPiece(a, id, size);
            && Tally(a'.blocks, Capacity) == Tally(a.blocks, Capacity)
            && Tally(a'.blocks, Mapped) == Tally(a.blocks, Mapped)
  {
    var a' := WithPiece(a, id, size);
    TallyUpdate(a.blocks, id, a'.blocks[id], Capacity);
    TallyUpdate(a.blocks, id, a'.blocks[id], Mapped);
    TallyUpdate(a.blocks, id, a'.blocks[id], EmptyOversized);
    PieceKeepsPieces(a, unit, open, id, size);
    PieceKeepsBlocks(a, unit, open, id, size);
    assert Lists(a') by {
      assert forall k :: 0 <= k < |a.blocks| ==> a'.blocks[k].spare == a.blocks[k].spare
                                                 && a'.blocks[k].memory == a.blocks[k].memory;
    }
  }

  lemma PieceKeepsPieces(a: Arena, unit: nat, open: Option<nat>, id: nat, size: nat)
    requires Wf(a, unit, open) && Takes(a, open, id, size)
    ensures PieceAt(a, id, size) !in a.live
    ensures Pieces(WithPiece(a, id, size)) && Memories(WithPiece(a, id, size))
  {
    var a' := WithPiece(a, id, size);
    var n := PieceAt(a, id, size);
    assert BlockOk(a, id, unit);
    forall p | p in a.live
      ensures PieceOk(a', p) && !Overlap(p, n) && !Overlap(n, p)
    {
      assert PieceOk(a, p);
      assert p.memory == n.memory ==> p.block == id;
    }
    assert PieceOk(a', n);
  }

  lemma PieceKeepsBlocks(a: Arena, unit: nat, open: Option<nat>, id: nat, size: nat)
    requires Wf(a, unit, open) && Takes(a, open, id, size) && PieceAt(a, id, size) !in a.live
    ensures Blocks(WithPiece(a, id, size), unit) && Settled(WithPiece(a, id, size), None)
  {
    var a' := WithPiece(a, id, size);
    ThisBlockKept(a, unit, open, id, size);
    forall k | 0 <= k < |a'.blocks| && k != id
      ensures BlockOk(a', k, unit) && BlockSettled(a', k)
    {
      OtherBlockKept(a, unit, open, id, size, k);
    }
  }

  lemma SumOfMultiples(x: nat, y: nat)
    requires x % ALIGNMENT == 0 && y % ALIGNMENT == 0
    ensures (x + y) % ALIGNMENT == 0
  {
  }

  lemma ThisBlockKept(a: Arena, unit: nat, open: Option<nat>, id: nat, size: nat)
    requires Blocks(a, unit) && Settled(a, open) && OpenOk(a, open)
    requires Takes(a, open, id, size) && PieceAt(a, id, size) !in a.live
    ensures BlockOk(WithPiece(a, id, size), id, unit) && BlockSettled(WithPiece(a, id, size), id)
  {
    PiecesInWith(a.live, PieceAt(a, id, size), id);
    assert BlockOk(a, id, unit) && (Some(id) != open ==> BlockSettled(a, id));
    SumOfMultiples(a.blocks[id].used, size);
  }

  lemma OtherBlockKept(a: Arena, unit: nat, open: Option<nat>, id: nat, size: nat, k: nat)
    requires Blocks(a, unit) && Settled(a, open) && Takes(a, open, id, size) && PieceAt(a, id, size) !in a.live
    requires k < |a.blocks| && k != id
    ensures BlockOk(WithPiece(a, id, size), k, unit) && BlockSettled(WithPiece(a, id, size), k)
  {
    PiecesInWith(a.live, PieceAt(a, id, size), k);
    assert BlockOk(a, k, unit) && BlockSettled(a, k);
  }

  // A piece taken out of its block.

  function WithoutPiece(a: Arena, p: Piece, restart: bool): Arena
    requires p.block < |a.blocks| && a.blocks[p.block].live > 0
  {
    var b := a.blocks[p.block];
    a.(blocks := a.blocks[p.block := b.(used := if restart then 0 else b.used, live := b.live - 1)], live := a.live - {p})
  }

  lemma PieceHasBlock(a: Arena, unit: nat, open: Option<nat>, p: Piece)
    requires Wf(a, unit, open) && p in a.live
    ensures p.block < |a.blocks| && a.blocks[p.block].memory.Some? && a.blocks[p.block].live > 0
    ensures open != Some(p.block) && !a.blocks[p.block].spare
  {
    assert PieceOk(a, p) && BlockOk(a, p.block, unit);
    assert p in PiecesIn(a.live, p.block);
    assert open != Some(p.block) ==> BlockSettled(a, p.block);
  }

  /** restart: an emptied current block begins again at its start; an emptied other block is left in hand. */
  lemma WithoutPieceKeeps(a: Arena, unit: nat, p: Piece)
    requires Wf(a, unit, None) && p in a.live
    requires p.block < |a.blocks| && a.blocks[p.block].live > 0
    ensures var emptied := a.blocks[p.block].live == 1;
            var isCurrent := a.current == Some(p.block);
            var a' := WithoutPiece(a, p, emptied && isCurrent);
            && Wf(a', unit, if emptied && !isCurrent then Some(p.block) else None)
            && Tally(a'.blocks, Capacity) == Tally(a.blocks, Capacity)
            && Tally(a'.blocks, Mapped) == Tally(a.blocks, Mapped)
  {
    PieceHasBlock(a, unit, None, p);
    var id := p.block;
    var emptied := a.blocks[id].live == 1;
    var open := if emptied && a.current != Some(id) then Some(id) else None;
    var a' := WithoutPiece(a, p, emptied && a.current == Some(id));
    TallyUpdate(a.blocks, id, a'.blocks[id], Capacity);
    TallyUpdate(a.blocks, id, a'.blocks[id], Mapped);
    TallyUpdate(a.blocks, id, a'.blocks[id], EmptyOversized);
    WithoutPieceKeepsBlocks(a, unit, p);
    assert Lists(a') by {
      assert forall k :: 0 <= k < |a.blocks| ==> a'.blocks[k].spare == a.blocks[k].spare
                                                 && a'.blocks[k].memory == a.blocks[k].memory;
    }
  }

  lemma WithoutPieceKeepsBlocks(a: Arena, unit: nat, p: Piece)
    requires Wf(a, unit, None) && p in a.live
    requires p.block < |a.blocks| && a.blocks[p.block].live > 0
    ensures var emptied := a.blocks[p.block].live == 1;
            var isCurrent := a.current == Some(p.block);
            var a' := WithoutPiece(a, p, emptied && isCurrent);
            && Blocks(a', unit) && Pieces(a') && Memories(a')
            && Settled(a', if emptied && !isCurrent then Some(p.block) else None)
  {
    PieceHasBlock(a, unit, None, p);
    var id := p.block;
    var emptied := a.blocks[id].live == 1;
    var open := if emptied && a.current != Some(id) then Some(id) else None;
    var a' := WithoutPiece(a, p, emptied && a.current == Some(id));
    forall k | 0 <= k < |a'.blocks|
      ensures BlockOk(a', k, unit)
      ensures Some(k) != open ==> BlockSettled(a', k)
    {
      PiecesInWithout(a.live, p, k);
      assert BlockOk(a, k, unit) && BlockSettled(a, k);
    }
    assert BlockOk(a', id, unit);
    forall q | q in a'.live
      ensures PieceOk(a', q)
    {
      assert PieceOk(a, q);
      assert emptied ==> q.block != id by {
        assert q.block == id ==> q in PiecesIn(a'.live, id);
      }
    }
  }

  // Blocks changing hands: onto the spare list, off it, to the operating system.

  function AsSpare(a: Arena, id: nat): Arena
    requires id < |a.blocks|
  {
    a.(blocks := a.blocks[id := a.blocks[id].(used := 0, spare := true)], spare := a.spare + [id])
  }

  function AsEmptyOversized(a: Arena, id: nat): Arena
    requires id < |a.blocks|
  {
    a.(blocks := a.blocks[id := a.blocks[id].(used := 0)], emptyOversized := a.emptyOversized + 1)
  }

  function AsCurrent(a: Arena, id: nat): Arena { a.(current := Some(id)) }

  function SpareAsCurrent(a: Arena): Arena
    requires a.spare != [] && a.spare[|a.spare| - 1] < |a.blocks|
  {
    var id := a.spare[|a.spare| - 1];
    a.(current := Some(id), spare := a.spare[..|a.spare| - 1], blocks := a.blocks[id := a.blocks[id].(spare := false)])
  }

  lemma SameTallies(a: Arena, id: nat, b: Block)
    requires id < |a.blocks| && b.memory == a.blocks[id].memory && b.capacity == a.blocks[id].capacity
    requires b.oversized == a.blocks[id].oversized && b.live == a.blocks[id].live
    ensures Tally(a.blocks[id := b], Capacity) == Tally(a.blocks, Capacity)
    ensures Tally(a.blocks[id := b], Mapped) == Tally(a.blocks, Mapped)
    ensures Tally(a.blocks[id := b], EmptyOversized) == Tally(a.blocks, EmptyOversized)
  {
    TallyUpdate(a.blocks, id, b, Capacity);
    TallyUpdate(a.blocks, id, b, Mapped);
    TallyUpdate(a.blocks, id, b, EmptyOversized);
  }

  /** A block without pieces changes, or is released. */
  lemma PiecesStay(a: Arena, a': Arena, id: nat)
    requires Pieces(a) && Memories(a) && id < |a.blocks| == |a'.blocks| && a'.live == a.live
    requires a'.blocks == a.blocks[id := a'.blocks[id]] && forall p :: p in a.live ==> p.block != id
    requires a'.blocks[id].memory == a.blocks[id].memory || a'.blocks[id].memory.None?
    ensures Pieces(a') && Memories(a')
  {
    assert forall p :: p in a.live ==> PieceOk(a, p) && PieceOk(a', p);
  }

  lemma RetireKeepsLists(a: Arena, id: nat)
    requires Lists(a) && id < |a.blocks| && a.blocks[id].memory.Some? && !a.blocks[id].spare
    ensures Lists(AsSpare(a, id)) && Lists(AsEmptyOversized(a, id))
  {
  }

  lemma RetireKeeps(a: Arena, unit: nat, id: nat)
    requires Wf(a, unit, Some(id))
    ensures !a.blocks[id].oversized ==> Wf(AsSpare(a, id), unit, None)
    ensures a.blocks[id].oversized ==> Wf(AsEmptyOversized(a, id), unit, None)
  {
    NoPieces(a, unit, Some(id), id);
    var a' := if a.blocks[id].oversized then AsEmptyOversized(a, id) else AsSpare(a, id);
    SameTallies(a, id, a'.blocks[id]);
    assert Blocks(a', unit) && Settled(a', None) by {
      hide Lists, Pieces, Memories, PieceOk;
      forall k | 0 <= k < |a'.blocks|
        ensures BlockOk(a', k, unit) && BlockSettled(a', k)
      {
        assert BlockOk(a, k, unit) && (k != id ==> BlockSettled(a, k));
      }
    }
    PiecesStay(a, a', id);
    RetireKeepsLists(a, id);
    hide Blocks, Settled, Pieces, Memories, Lists;
  }

  lemma CurrentKeeps(a: Arena, unit: nat, id: nat)
    requires Wf(a, unit, Some(id)) && a.current.None? && !a.blocks[id].oversized && a.blocks[id].used == 0
    ensures Wf(AsCurrent(a, id), unit, None)
  {
    var a' := AsCurrent(a, id);
    forall k | 0 <= k < |a'.blocks|
      ensures BlockOk(a', k, unit) && BlockSettled(a', k)
    {
      assert BlockOk(a, k, unit) && (k != id ==> BlockSettled(a, k));
    }
    assert Pieces(a') by {
      assert forall p :: p in a.live ==> PieceOk(a, p) && PieceOk(a', p);
    }
  }

  /** Leaving a block that still holds pieces is all that moving on from the current block does. */
  lemma LeaveKeeps(a: Arena, unit: nat)
    requires Wf(a, unit, None) && a.current.Some? && a.blocks[a.current.value].live > 0
    ensures Wf(a.(current := None), unit, None)
  {
    var a' := a.(current := None);
    forall k | 0 <= k < |a'.blocks|
      ensures BlockOk(a', k, unit) && BlockSettled(a', k)
    {
      assert BlockOk(a, k, unit) && BlockSettled(a, k);
    }
    assert Pieces(a') by {
      assert forall p :: p in a.live ==> PieceOk(a, p) && PieceOk(a', p);
    }
  }

  lemma SpareListed(a: Arena, unit: nat, i: nat)
    requires Wf(a, unit, None) && i < |a.spare|
    ensures a.spare[i] < |a.blocks|
    ensures var b := a.blocks[a.spare[i]]; b.memory.Some? && b.capacity == unit && b.used == 0 && b.live == 0
                                           && !b.oversized && a.current != Some(a.spare[i])
  {
    var id := a.spare[i];
    assert id in a.spare;
    assert BlockOk(a, id, unit) && BlockSettled(a, id);
  }

  lemma SpareAsCurrentKeeps(a: Arena, unit: nat)
    requires Wf(a, unit, None) && a.current.None? && a.spare != [] && a.spare[|a.spare| - 1] < |a.blocks|
    ensures Wf(SpareAsCurrent(a), unit, None)
    ensures var a' := SpareAsCurrent(a);
            && Tally(a'.blocks, Capacity) == Tally(a.blocks, Capacity)
            && Tally(a'.blocks, Mapped) == Tally(a.blocks, Mapped)
  {
    SpareListed(a, unit, |a.spare| - 1);
    var id := a.spare[|a.spare| - 1];
    var a' := SpareAsCurrent(a);
    NoPieces(a, unit, None, id);
    SameTallies(a, id, a'.blocks[id]);
    assert Blocks(a', unit) && Settled(a', None) by {
      hide Lists, Pieces, Memories, PieceOk;
      forall k | 0 <= k < |a'.blocks|
        ensures BlockOk(a', k, unit) && BlockSettled(a', k)
      {
        assert BlockOk(a, k, unit) && BlockSettled(a, k);
      }
    }
    PiecesStay(a, a', id);
    SpareAsCurrentKeepsLists(a);
    hide Blocks, Settled, Pieces, Memories, Lists;
  }

  lemma SpareAsCurrentKeepsLists(a: Arena)
    requires Lists(a) && a.spare != [] && a.spare[|a.spare| - 1] < |a.blocks|
    ensures Lists(SpareAsCurrent(a))
  {
    var a', id := SpareAsCurrent(a), a.spare[|a.spare| - 1];
    assert a.spare == a'.spare + [id];
    forall v: nat
      ensures v in a'.spare <==> v < |a'.blocks| && a'.blocks[v].spare
    {
      assert v in a.spare <==> v in a'.spare || v == id;
    }
  }

  function Released(a: Arena, id: nat): Arena
    requires id < |a.blocks|
  {
    a.(blocks := a.blocks[id := RELEASED], vacant := a.vacant + [id])
  }

  function OldestSpareReleased(a: Arena): Arena
    requires a.spare != [] && a.spare[0] < |a.blocks|
  {
    Released(a.(spare := a.spare[1..]), a.spare[0])
  }

  function OversizedReleased(a: Arena, id: nat): Arena
    requires id < |a.blocks| && a.emptyOversized > 0
  {
    Released(a.(emptyOversized := a.emptyOversized - 1), id)
  }

  lemma ReleaseKeeps(a: Arena, unit: nat, id: nat, a': Arena)
    requires Wf(a, unit, None) && id < |a.blocks| && a.blocks[id].memory.Some? && a.blocks[id].live == 0
    requires a.current != Some(id)
    requires if a.blocks[id].oversized then a.emptyOversized > 0 && a' == OversizedReleased(a, id)
             else a.spare != [] && id == a.spare[0] && a' == OldestSpareReleased(a)
    ensures Wf(a', unit, None)
    ensures Tally(a'.blocks, Capacity) + a.blocks[id].capacity == Tally(a.blocks, Capacity)
    ensures Tally(a'.blocks, Mapped) + 1 == Tally(a.blocks, Mapped)
  {
    NoPieces(a, unit, None, id);
    TallyUpdate(a.blocks, id, RELEASED, Capacity);
    TallyUpdate(a.blocks, id, RELEASED, Mapped);
    TallyUpdate(a.blocks, id, RELEASED, EmptyOversized);
    assert PiecesIn(a.live, id) == {};
    assert Blocks(a', unit) && Settled(a', None) by {
      hide Lists, Pieces, Memories, PieceOk;
      forall k | 0 <= k < |a'.blocks|
        ensures BlockOk(a', k, unit) && BlockSettled(a', k)
      {
        assert BlockOk(a, k, unit) && BlockSettled(a, k);
      }
    }
    PiecesStay(a, a', id);
    ReleaseKeepsLists(a, unit, id, a');
    hide Blocks, Settled, Pieces, Memories, Lists;
  }

  lemma ReleaseKeepsLists(a: Arena, unit: nat, id: nat, a': Arena)
    requires Wf(a, unit, None) && id < |a.blocks| && a.blocks[id].memory.Some? && a.blocks[id].live == 0
    requires a.current != Some(id)
    requires if a.blocks[id].oversized then a.emptyOversized > 0 && a' == OversizedReleased(a, id)
             else a.spare != [] && id == a.spare[0] && a' == OldestSpareReleased(a)
    ensures Lists(a')
  {
    assert BlockSettled(a, id);
    if !a.blocks[id].oversized {
      assert a.spare == [id] + a'.spare;
      forall v: nat
        ensures v in a'.spare <==> v < |a'.blocks| && a'.blocks[v].spare
      {
        assert v in a.spare <==> v in a'.spare || v == id;
      }
    }
  }

  lemma CurrentTakes(a: Arena, unit: nat, size: nat)
    requires Wf(a, unit, None) && a.current.Some? && size > 0 && size % ALIGNMENT == 0
    requires a.blocks[a.current.value].used + size <= a.blocks[a.current.value].capacity
    ensures Takes(a, None, a.current.value, size)
  {
  }

  /** A request no bigger than a block only overflows a current block that holds something. */
  lemma FullHoldsPieces(a: Arena, unit: nat, size: nat)
    requires Wf(a, unit, None) && a.current.Some? && size <= unit
    requires a.blocks[a.current.value].used + size > a.blocks[a.current.value].capacity
    ensures a.blocks[a.current.value].live > 0
  {
    assert BlockOk(a, a.current.value, unit) && BlockSettled(a, a.current.value);
  }

  /** A handle tells the size of its piece if and only if that is below 4 GiB; of a larger one freeing leaves at least
      that much of the count of live bytes behind. */
  lemma HandleTellsSize(p: Piece)
    ensures HandleOf(p).bytes == p.size <==> p.size < TWO_32
    ensures p.size >= TWO_32 ==> p.size - HandleOf(p).bytes >= TWO_32
  {
  }

  /** Two live pieces never share a handle: a handle names the allocation it was returned for. */
  lemma HandlesDiffer(a: Arena, unit: nat, p: Piece, q: Piece)
    requires Wf(a, unit, None) && p in a.live && q in a.live && p != q
    ensures HandleOf(p) != HandleOf(q)
  {
    assert PieceOk(a, p) && PieceOk(a, q) && !Overlap(p, q);
  }

  predicate SameMemory(blocks: seq<Block>, before: seq<Block>) {
    |blocks| == |before| && forall id :: 0 <= id < |blocks| ==> blocks[id].memory == before[id].memory
  }

  // --- The class ---

  class FrameArena {
    const config: Config
    var blocks: seq<Block>
    var spare: seq<nat>
    var vacant: seq<nat>
    var current: Option<nat>
    var emptyOversized: nat
    var stats: Stats
    ghost var live: set<Piece>
    /** What 32-bit handles have made the live-bytes statistic lose count of: a multiple of 2^32, and 0
        until a piece of 4 GiB or more is freed. */
    ghost var uncounted: nat

    ghost function Value(): Arena
      reads this
    {
      Arena(blocks, spare, vacant, current, emptyOversized, live)
    }

    ghost predicate StatsOk()
      reads this
    {
      && stats.committedBytes == Tally(blocks, Capacity) <= config.limitBytes
      && stats.committedBytes <= stats.peakCommittedBytes
      && stats.blocks == Tally(blocks, Mapped)
      && stats.spareBlocks == |spare|
      && stats.liveBytes == TotalSize(live) + uncounted
    }

    ghost predicate Valid()
      reads this
    {
      && config.blockBytes > 0 && config.blockBytes % ALIGNMENT == 0
      && Wf(Value(), config.blockBytes, None)
      && StatsOk()
    }

    constructor (wanted: Config)
      ensures Valid() && live == {} && uncounted == 0 && blocks == []
      ensures config.limitBytes == wanted.limitBytes && config.maxSpareBlocks == wanted.maxSpareBlocks
      ensures config.blockBytes == RoundUp(Max(wanted.blockBytes, ALIGNMENT))
    {
      config := wanted.(blockBytes := RoundUp(Max(wanted.blockBytes, ALIGNMENT)));
      blocks, spare, vacant, current, emptyOversized := [], [], [], None, 0;
      stats := Stats(0, 0, 0, 0, 0, 0, 0);
      live, uncounted := {}, 0;
    }

    /** memory: the address the operating system offers (of a region no block uses), None if it refuses. */
    method NewBlockLocked(capacity: nat, oversized: bool, memory: Option<nat>) returns (id: Option<nat>)
      requires Valid()
      requires if oversized then capacity > config.blockBytes else capacity == config.blockBytes
      requires memory.Some? ==> FreshMemory(Value(), memory.value)
      modifies this`blocks, this`vacant, this`stats
      ensures id.Some? <==> old(stats.committedBytes) + capacity <= config.limitBytes && memory.Some?
      ensures id.None? ==> Valid() && Value() == old(Value())
                           && stats == old(stats).(failedAllocations := old(stats.failedAllocations) + 1)
      ensures id.Some? ==> id.value == NextId(old(Value()))
                           && (old(vacant) != [] ==> old(vacant)[|old(vacant)| - 1] < |old(blocks)|)
                           && Value() == WithNewBlock(old(Value()), memory.value, capacity, oversized)
                           && Wf(Value(), config.blockBytes, id) && StatsOk()
                           && stats.failedAllocations == old(stats.failedAllocations)
                           && stats.committedBytes == old(stats.committedBytes) + capacity
    {
      hide Blocks, Settled, Pieces, Memories, Lists, Counted;
      if stats.committedBytes + capacity > config.limitBytes || memory.None? {
        stats := stats.(failedAllocations := stats.failedAllocations + 1);
        return None;
      }
      ghost var before := Value();
      VacantId(before, config.blockBytes);
      NewBlockKeeps(before, config.blockBytes, memory.value, capacity, oversized);
      ghost var after := WithNewBlock(before, memory.value, capacity, oversized);
      var block := Block(memory, capacity, 0, 0, oversized, false);
      if vacant != [] {
        id := Some(vacant[|vacant| - 1]);
        vacant := vacant[..|vacant| - 1];
        blocks := blocks[id.value := block];
      } else {
        id := Some(|blocks|);
        blocks := blocks + [block];
      }
      assert Value() == after;
      var committed := stats.committedBytes + capacity;
      stats := stats.(committedBytes := committed, peakCommittedBytes := Max(stats.peakCommittedBytes, committed),
                      blocks := stats.blocks + 1);
    }

    /** An emptied block that is in nobody's hands becomes a spare, or waits for Trim when oversized. */
    method RetireIfEmptyLocked(id: nat)
      requires id < |blocks| && StatsOk() && config.blockBytes > 0
      requires Wf(Value(), config.blockBytes, Some(id))
               || (Wf(Value(), config.blockBytes, None) && blocks[id].live > 0)
      modifies this`blocks, this`spare, this`emptyOversized, this`stats
      ensures Wf(Value(), config.blockBytes, None) && StatsOk()
      ensures old(blocks[id].live) > 0 ==> Value() == old(Value()) && stats == old(stats)
      ensures old(blocks[id].live) == 0 ==>
                Value() == (if old(blocks[id].oversized) then AsEmptyOversized(old(Value()), id) else AsSpare(old(Value()), id))
      ensures stats == old(stats).(spareBlocks := |spare|)
    {
      hide Blocks, Settled, Pieces, Memories, Lists, Counted;
      if blocks[id].live != 0 || current == Some(id) || blocks[id].spare || blocks[id].memory.None? {
        return;
      }
      RetireKeeps(Value(), config.blockBytes, id);
      SameTallies(Value(), id, blocks[id].(used := 0));
      SameTallies(Value(), id, blocks[id].(used := 0, spare := true));
      blocks := blocks[id := blocks[id].(used := 0)];
      if blocks[id].oversized {
        emptyOversized := emptyOversized + 1;
        return;
      }
      blocks := blocks[id := blocks[id].(spare := true)];
      spare := spare + [id];
      stats := stats.(spareBlocks := stats.spareBlocks + 1);
      assert blocks == old(blocks)[id := old(blocks)[id].(used := 0, spare := true)];
    }

    ghost predicate FitsCurrent(size: nat)
      requires Valid()
      reads this
    {
      current.Some? && blocks[current.value].used + size <= blocks[current.value].capacity
    }

    /** What a request for `bytes` reserves. */
    function Reserved(bytes: nat): nat { RoundUp(Max(bytes, 1)) }

    /** Whether a request needs a block of its own or a new standard one. */
    ghost predicate NeedsNewBlock(size: nat)
      requires Valid()
      reads this
    {
      size > config.blockBytes || (!FitsCurrent(size) && spare == [])
    }

    ghost function NewBytes(size: nat): nat
      requires Valid()
      reads this
    {
      if NeedsNewBlock(size) then Max(size, config.blockBytes) else 0
    }

    ghost predicate Room(bytes: nat, memory: Option<nat>)
      requires Valid()
      reads this
    {
      var size := Reserved(bytes);
      NeedsNewBlock(size) ==> memory.Some? && stats.committedBytes + NewBytes(size) <= config.limitBytes
    }

    /** A request succeeds exactly when it needs no new block, or the limit and the operating system allow
        one; it then adds one piece, and no existing piece moves. */
    method Allocate(bytes: nat, memory: Option<nat>) returns (out: Allocation)
      requires Valid()
      requires memory.Some? ==> FreshMemory(Value(), memory.value)
      modifies this
      ensures Valid() && uncounted == old(uncounted)
      ensures out.Allocation? <==> old(Room(bytes, memory))
      ensures out.Allocation? ==>
                var piece := Piece(out.memory, out.block, out.offset, Reserved(bytes));
                && out == HandleOf(piece)
                && piece !in old(live)
                && live == old(live) + {piece}
      ensures out.NoAllocation? ==> live == old(live)
      ensures stats.committedBytes == old(stats.committedBytes)
                                      + (if out.Allocation? then old(NewBytes(Reserved(bytes))) else 0)
      ensures stats.failedAllocations == old(stats.failedAllocations) + (if out.NoAllocation? then 1 else 0)
    {
      hide Blocks, Settled, Pieces, Memories, Lists, Counted;
      var size := Reserved(bytes);
      if size > config.blockBytes {
        out := AllocateOversizedLocked(size, memory);
        return;
      }
      if current.None? || blocks[current.value].used + size > blocks[current.value].capacity {
        var ok := MoveOnLocked(size, memory);
        if !ok {
          return NoAllocation;
        }
      }
      CurrentTakes(Value(), config.blockBytes, size);
      out := PlaceLocked(current.value, None, size);
    }

    /** A payload bigger than a whole block gets a block of its own. */
    method AllocateOversizedLocked(size: nat, memory: Option<nat>) returns (out: Allocation)
      requires Valid() && size > config.blockBytes && size % ALIGNMENT == 0
      requires memory.Some? ==> FreshMemory(Value(), memory.value)
      modifies this
      ensures Valid() && uncounted == old(uncounted)
      ensures out.Allocation? <==> memory.Some? && old(stats.committedBytes) + size <= config.limitBytes
      ensures out.Allocation? ==>
                var piece := Piece(out.memory, out.block, out.offset, size);
                out == HandleOf(piece) && piece !in old(live) && live == old(live) + {piece}
      ensures out.NoAllocation? ==> live == old(live)
      ensures stats.committedBytes == old(stats.committedBytes) + (if out.Allocation? then size else 0)
      ensures stats.failedAllocations == old(stats.failedAllocations) + (if out.NoAllocation? then 1 else 0)
    {
      hide Blocks, Settled, Pieces, Memories, Lists, Counted;
      var own := NewBlockLocked(size, true, memory);
      if own.None? {
        return NoAllocation;
      }
      out := PlaceLocked(own.value, own, size);
    }

    /** The current block is full, or there is none: a spare, or else a new block, becomes current. */
    method MoveOnLocked(ghost size: nat, memory: Option<nat>) returns (ok: bool)
      requires Valid() && 0 < size <= config.blockBytes && size % ALIGNMENT == 0 && !FitsCurrent(size)
      requires memory.Some? ==> FreshMemory(Value(), memory.value)
      modifies this`blocks, this`spare, this`vacant, this`current, this`emptyOversized, this`stats
      ensures Valid()
      ensures ok <==> old(spare) != []
                      || (memory.Some? && old(stats.committedBytes) + config.blockBytes <= config.limitBytes)
      ensures ok ==> FitsCurrent(size)
      ensures stats.committedBytes == old(stats.committedBytes) + (if ok && old(spare) == [] then config.blockBytes else 0)
      ensures stats.failedAllocations == old(stats.failedAllocations) + (if ok then 0 else 1)
    {
      hide Blocks, Settled, Pieces, Memories, Lists, Counted;
      LeaveCurrentLocked(size);
      if spare != [] {
        TakeSpareLocked();
        return true;
      }
      ok := NewCurrentLocked(memory);
    }

    /** The block left behind still holds pieces, so it is never retired here. */
    method LeaveCurrentLocked(ghost size: nat)
      requires Valid() && size <= config.blockBytes && !FitsCurrent(size)
      modifies this`blocks, this`spare, this`current, this`emptyOversized, this`stats
      ensures Valid() && Value() == old(Value()).(current := None) && stats == old(stats)
    {
      hide Blocks, Settled, Pieces, Memories, Lists, Counted;
      var previous := current;
      ghost var before := Value();
      if previous.Some? {
        FullHoldsPieces(before, config.blockBytes, size);
        LeaveKeeps(before, config.blockBytes);
      }
      current := None;
      if previous.Some? {
        RetireIfEmptyLocked(previous.value);
      }
    }

    method NewCurrentLocked(memory: Option<nat>) returns (ok: bool)
      requires Valid() && current.None?
      requires memory.Some? ==> FreshMemory(Value(), memory.value)
      modifies this`blocks, this`vacant, this`current, this`stats
      ensures Valid()
      ensures ok <==> memory.Some? && old(stats.committedBytes) + config.blockBytes <= config.limitBytes
      ensures ok ==> current.Some? && blocks[current.value].used == 0
                     && blocks[current.value].capacity == config.blockBytes
      ensures stats.committedBytes == old(stats.committedBytes) + (if ok then config.blockBytes else 0)
      ensures stats.failedAllocations == old(stats.failedAllocations) + (if ok then 0 else 1)
    {
      hide Blocks, Settled, Pieces, Memories, Lists, Counted;
      var id := NewBlockLocked(config.blockBytes, false, memory);
      if id.None? {
        return false;
      }
      ghost var added := Value();
      CurrentKeeps(added, config.blockBytes, id.value);
      current := id;
      assert Value() == AsCurrent(added, id.value);
      return true;
    }

    method TakeSpareLocked()
      requires Valid() && current.None? && spare != []
      modifies this`blocks, this`spare, this`current, this`stats
      ensures Valid() && current == Some(old(spare)[|old(spare)| - 1])
      ensures blocks[current.value].used == 0 && blocks[current.value].capacity == config.blockBytes
      ensures !blocks[current.value].oversized && blocks[current.value].memory.Some?
      ensures stats == old(stats).(spareBlocks := |spare|)
    {
      hide Blocks, Settled, Pieces, Memories, Lists, Counted;
      ghost var before := Value();
      SpareListed(before, config.blockBytes, |spare| - 1);
      SpareAsCurrentKeeps(before, config.blockBytes);
      current := Some(spare[|spare| - 1]);
      spare := spare[..|spare| - 1];
      blocks := blocks[current.value := blocks[current.value].(spare := false)];
      assert Value() == SpareAsCurrent(before);
      stats := stats.(spareBlocks := stats.spareBlocks - 1);
    }

    /** The common end of an allocation: `size` bytes at the end of the used prefix of the current block,
        or of the oversized block just made for it. */
    method PlaceLocked(id: nat, ghost open: Option<nat>, size: nat) returns (out: Allocation)
      requires config.blockBytes > 0 && config.blockBytes % ALIGNMENT == 0 && StatsOk()
      requires Wf(Value(), config.blockBytes, open) && Takes(Value(), open, id, size)
      modifies this`blocks, this`live, this`stats
      ensures Valid()
      ensures old(PieceAt(Value(), id, size)) !in old(live)
      ensures live == old(live) + {old(PieceAt(Value(), id, size))}
      ensures out == HandleOf(old(PieceAt(Value(), id, size)))
      ensures stats == old(stats).(liveBytes := old(stats.liveBytes) + size)
    {
      hide Blocks, Settled, Pieces, Memories, Lists, Counted;
      ghost var before := Value();
      ghost var piece := PieceAt(before, id, size);
      PieceKeeps(before, config.blockBytes, open, id, size);
      TotalSizeWith(live, piece);
      var block := blocks[id];
      out := Allocation(block.memory.value, block.used, id, Wrap32(size));
      blocks := blocks[id := block.(used := block.used + size, live := block.live + 1)];
      live := live + {piece};
      assert Value() == WithPiece(before, id, size);
      stats := stats.(liveBytes := stats.liveBytes + size);
    }

    /** Takes one piece out of the live set and resets the handle; nothing else moves, and no memory goes
        back to the operating system. */
    method Free(a: Allocation, ghost piece: Piece) returns (reset: Allocation)
      requires Valid() && (a.Allocation? ==> piece in live && a == HandleOf(piece))
      modifies this
      ensures Valid() && reset == NoAllocation
      ensures a.NoAllocation? ==> Value() == old(Value()) && stats == old(stats) && uncounted == old(uncounted)
      ensures a.Allocation? ==> live == old(live) - {piece}
      ensures a.Allocation? ==> uncounted == old(uncounted) + (piece.size - Wrap32(piece.size))
      ensures stats == old(stats).(liveBytes := stats.liveBytes, spareBlocks := stats.spareBlocks)
      ensures SameMemory(blocks, old(blocks))
    {
      hide Blocks, Settled, Pieces, Memories, Lists, Counted;
      if a.NoAllocation? {
        return NoAllocation;
      }
      PieceHasBlock(Value(), config.blockBytes, None, piece);
      if a.block < |blocks| && blocks[a.block].live > 0 {
        var emptied := TakeOutLocked(a, piece);
        if emptied {
          RetireIfEmptyLocked(a.block);
        }
      }
      return NoAllocation;
    }

    /** The counting part of Free; the block is left in hand when this was the last piece of a block other
        than the current one. */
    method TakeOutLocked(a: Allocation, ghost piece: Piece) returns (emptied: bool)
      requires Valid() && piece in live && a == HandleOf(piece)
      requires a.block < |blocks| && blocks[a.block].live > 0
      modifies this`blocks, this`live, this`uncounted, this`stats
      ensures Wf(Value(), config.blockBytes, if emptied then Some(a.block) else None) && StatsOk()
      ensures live == old(live) - {piece} && SameMemory(blocks, old(blocks))
      ensures uncounted == old(uncounted) + (piece.size - Wrap32(piece.size))
      ensures stats == old(stats).(liveBytes := stats.liveBytes)
    {
      hide Blocks, Settled, Pieces, Memories, Lists, Counted;
      ghost var before := Value();
      WithoutPieceKeeps(before, config.blockBytes, piece);
      TotalSizeWithout(live, piece);
      var block := blocks[a.block];
      emptied := block.live == 1 && current != Some(a.block);
      live := live - {piece};
      uncounted := uncounted + (piece.size - Wrap32(piece.size));
      blocks := blocks[a.block := block.(live := block.live - 1)];
      stats := stats.(liveBytes := stats.liveBytes - Min(stats.liveBytes, a.bytes));
      if block.live == 1 && Some(a.block) == current {
        blocks := blocks[a.block := blocks[a.block].(used := 0)];
      }
      assert Value() == WithoutPiece(before, piece, block.live == 1 && Some(a.block) == current);
    }

    /** Gives one block without pieces back to the operating system. */
    method ReleaseBlockLocked(id: nat)
      requires Valid() && id < |blocks| && blocks[id].memory.Some? && blocks[id].live == 0 && current != Some(id)
      requires if blocks[id].oversized then emptyOversized > 0 else spare != [] && spare[0] == id
      modifies this
      ensures Valid() && uncounted == old(uncounted)
      ensures Value() == if old(blocks[id].oversized) then OversizedReleased(old(Value()), id)
                         else OldestSpareReleased(old(Value()))
      ensures stats.committedBytes + old(blocks[id].capacity) == old(stats.committedBytes)
      ensures stats.releasedBlocks == old(stats.releasedBlocks) + 1
    {
      hide Blocks, Settled, Pieces, Memories, Lists, Counted;
      ghost var before := Value();
      ghost var after := if blocks[id].oversized then OversizedReleased(before, id) else OldestSpareReleased(before);
      ReleaseKeeps(before, config.blockBytes, id, after);
      if blocks[id].oversized {
        emptyOversized := emptyOversized - 1;
      } else {
        spare := spare[1..];
        stats := stats.(spareBlocks := stats.spareBlocks - 1);
      }
      stats := stats.(committedBytes := stats.committedBytes - blocks[id].capacity, blocks := stats.blocks - 1,
                      releasedBlocks := stats.releasedBlocks + 1);
      blocks := blocks[id := RELEASED];
      vacant := vacant + [id];
      assert Value() == after;
    }

    predicate TrimWanted()
      reads this
    {
      |spare| > config.maxSpareBlocks || emptyOversized > 0
    }

    /** Releases the spares past the quota, oldest first, and every empty oversized block; every other block,
        and so every live piece, stays as it is. */
    method Trim()
      requires Valid()
      modifies this
      ensures Valid() && !TrimWanted()
      ensures live == old(live) && uncounted == old(uncounted) && current == old(current)
      ensures spare == old(spare)[|old(spare)| - Min(|old(spare)|, config.maxSpareBlocks)..]
      ensures |blocks| == |old(blocks)|
      ensures forall id :: 0 <= id < |blocks| ==>
                blocks[id] == if id in old(spare)[..|old(spare)| - |spare|] || EmptyOversized(old(blocks)[id]) == 1
                              then RELEASED else old(blocks)[id]
      ensures stats.committedBytes <= old(stats.committedBytes)
    {
      hide Blocks, Settled, Pieces, Memories, Lists, Counted;
      ghost var dropped := 0;
      while |spare| > config.maxSpareBlocks
        invariant Valid() && live == old(live) && uncounted == old(uncounted) && current == old(current)
        invariant dropped <= |old(spare)| && spare == old(spare)[dropped..]
        invariant dropped > 0 ==> |spare| >= config.maxSpareBlocks
        invariant |blocks| == |old(blocks)| && emptyOversized == old(emptyOversized)
        invariant forall id :: 0 <= id < |blocks| ==>
                    blocks[id] == if id in old(spare)[..dropped] then RELEASED else old(blocks)[id]
        invariant stats.committedBytes <= old(stats.committedBytes)
      {
        SpareListed(Value(), config.blockBytes, 0);
        assert old(spare)[..dropped + 1] == old(spare)[..dropped] + [spare[0]];
        ReleaseBlockLocked(spare[0]);
        dropped := dropped + 1;
      }
      ReleaseEmptyOversized();
    }

    method ReleaseEmptyOversized()
      requires Valid()
      modifies this
      ensures Valid() && emptyOversized == 0
      ensures live == old(live) && uncounted == old(uncounted) && current == old(current) && spare == old(spare)
      ensures |blocks| == |old(blocks)|
      ensures forall id :: 0 <= id < |blocks| ==>
                blocks[id] == if EmptyOversized(old(blocks)[id]) == 1 then RELEASED else old(blocks)[id]
      ensures stats.committedBytes <= old(stats.committedBytes)
    {
      hide Blocks, Settled, Pieces, Memories, Lists;
      var id := 0;
      while emptyOversized > 0 && id < |blocks|
        invariant Valid() && live == old(live) && uncounted == old(uncounted) && current == old(current)
        invariant spare == old(spare) && |blocks| == |old(blocks)| && id <= |blocks|
        invariant forall k :: 0 <= k < id ==>
                    blocks[k] == if EmptyOversized(old(blocks)[k]) == 1 then RELEASED else old(blocks)[k]
        invariant forall k :: id <= k < |blocks| ==> blocks[k] == old(blocks)[k]
        invariant stats.committedBytes <= old(stats.committedBytes)
      {
        var block := blocks[id];
        if block.memory.Some? && block.oversized && block.live == 0 {
          ReleaseBlockLocked(id);
        }
        id := id + 1;
      }
      if emptyOversized > 0 {
        TallyZero(blocks, EmptyOversized);
      }
      forall k | id <= k < |blocks|
        ensures EmptyOversized(blocks[k]) == 0
      {
        TallyMember(blocks, k, EmptyOversized);
      }
    }
  }
}
