/** The boundary-tag allocator: one static buffer, a two-word header before every block (size with the allocation bit,
    then the size of the block below), and the address of the last block kept in the buffer itself. */
module Heap {
  import opened Tiling

  const TWO32: nat := 0x1_0000_0000

  /** A 32-bit machine word. */
  type Word = w: nat | w < 0x1_0000_0000

  /** The largest request whose rounding does not wrap around in 32 bits. */
  const MAX_REQUEST: nat := TWO32 - 16

  function Pack(size: nat, used: bool): nat {
    size + if used then 1 else 0
  }

  /** malloc's unsigned arithmetic: round up to 8, then add the header, both modulo 2^32. */
  function BlockSizeFor(n: Word): (need: nat)
    ensures n <= MAX_REQUEST ==> need % 8 == 0 && n + DSIZE <= need < n + 2 * DSIZE && need < TWO32
    ensures 0 < n <= MAX_REQUEST ==> need >= 2 * DSIZE
    ensures n > MAX_REQUEST ==> need == 0 || need == DSIZE
  {
    ((n + 7) % TWO32 / 8 * 8 + DSIZE) % TWO32
  }

  /** The computed block holds the request exactly below the wrap-around, and never above it. */
  lemma RequestFitsIff(n: Word)
    ensures BlockSizeFor(n) >= n + DSIZE <==> n <= MAX_REQUEST
  {
  }

  // ---------------------------------------------------------------- memory contents

  /** The word at byte address p. */
  function At(m: seq<Word>, p: nat): Word {
    if p / 4 < |m| then m[p / 4] else 0
  }

  /** The headers in m describe the block list bs. */
  ghost predicate Encodes(m: seq<Word>, bs: seq<Block>) {
    && |bs| > 0
    && At(m, 0) == bs[|bs| - 1].addr
    && At(m, bs[0].addr + WSIZE) == 0
    && (forall i :: 0 <= i < |bs| ==> At(m, bs[i].addr) == Pack(bs[i].size, bs[i].used))
    && (forall i, j :: 0 <= i && j == i + 1 && j < |bs| ==> At(m, bs[j].addr + WSIZE) == bs[i].size)
  }

  /** Every word of b's payload is the same in m and m'. */
  ghost predicate SamePayload(m: seq<Word>, m': seq<Word>, b: Block) {
    forall p {:trigger At(m', p)} :: b.Payload() <= p < b.End() && p % 4 == 0 ==> At(m', p) == At(m, p)
  }

  /** m' is m with the words at the addresses of ps overwritten. */
  ghost predicate Patched(m: seq<Word>, m': seq<Word>, ps: map<nat, nat>) {
    |m'| == |m| && forall q: nat {:trigger At(m', q)} :: q % 4 == 0 ==> At(m', q) == if q in ps then ps[q] else At(m, q)
  }

  lemma Overwritten(m: seq<Word>, m': seq<Word>, ps: map<nat, nat>, q: nat)
    requires Patched(m, m', ps) && q % 4 == 0
    ensures At(m', q) == if q in ps then ps[q] else At(m, q)
  {
  }

  /** The address of the block after index k, NULL after the last. */
  function NextAddr(bs: seq<Block>, k: nat): nat {
    if k + 1 < |bs| then bs[k + 1].addr else NULL
  }

  /** Splitting and merging update the back tag of the next block, or the last-block pointer. */
  function Above(ps: map<nat, nat>, next: nat, size: nat, last: nat): map<nat, nat> {
    if next != NULL then ps[next + WSIZE := size] else ps[0 := last]
  }

  /** The stores of a split. */
  function SplitStores(p: nat, need: nat, rest: nat, next: nat): map<nat, nat> {
    Above(map[p := need + 1][p + need := rest][p + need + WSIZE := need], next, rest, p + need)
  }

  /** The stores of malloc into the free block k: the whole block marked, or a split. */
  function PlaceStores(bs: seq<Block>, k: nat, need: nat): map<nat, nat>
    requires k < |bs| && need <= bs[k].size
  {
    if bs[k].size - need <= DSIZE then map[bs[k].addr := bs[k].size + 1]
    else SplitStores(bs[k].addr, need, bs[k].size - need, NextAddr(bs, k))
  }

  /** The stores of a merge. */
  function MergeStores(p: nat, size: nat, next: nat): map<nat, nat> {
    Above(map[p := size], next, size, p)
  }

  lemma Aligned(p: nat, n: nat)
    requires p % 8 == 0 && n % 8 == 0
    ensures p % 4 == 0 && (p + n) % 4 == 0 && (p + n + WSIZE) % 4 == 0
  {
    var i, j := p / 8, n / 8;
    Quarter(2 * i);
    Quarter(2 * i + 2 * j);
    Quarter(2 * i + 2 * j + 1);
  }

  lemma Quarter(k: nat)
    ensures 4 * k % 4 == 0
  {
  }

  lemma AlignedRest(size: nat, need: nat)
    requires size % 8 == 0 && need % 8 == 0 && need <= size
    ensures (size - need) % 8 == 0
  {
  }

  lemma SplitLookup(p: nat, need: nat, rest: nat, next: nat)
    requires p >= DSIZE && need >= 2 * DSIZE && (next == NULL || next >= p + need + DSIZE)
    ensures var ps := SplitStores(p, need, rest, next);
            && p in ps && ps[p] == need + 1
            && p + need in ps && ps[p + need] == rest
            && p + need + WSIZE in ps && ps[p + need + WSIZE] == need
            && (next != NULL ==> 0 !in ps && next + WSIZE in ps && ps[next + WSIZE] == rest)
            && (next == NULL ==> 0 in ps && ps[0] == p + need)
  {
  }

  lemma SizeWord(m: seq<Word>, bs: seq<Block>, k: nat)
    requires Encodes(m, bs) && k < |bs|
    ensures At(m, bs[k].addr) == Pack(bs[k].size, bs[k].used)
  {
    hide At;
  }

  /** Sizes are multiples of 8, so the lowest bit of the header is free for the used flag. */
  lemma Unpack(size: nat, used: bool)
    requires size % 8 == 0
    ensures Pack(size, used) - Pack(size, used) % 8 == size && (Pack(size, used) % 2 == 1 <==> used)
    ensures !used ==> Pack(size, used) == size
  {
  }

  /** The two header words at p after the stores ps. */
  lemma Headers(m: seq<Word>, m': seq<Word>, ps: map<nat, nat>, p: nat)
    requires Patched(m, m', ps) && p % 8 == 0
    ensures At(m', p) == if p in ps then ps[p] else At(m, p)
    ensures At(m', p + WSIZE) == if p + WSIZE in ps then ps[p + WSIZE] else At(m, p + WSIZE)
  {
    hide At, Patched;
    Aligned(p, 0);
    Overwritten(m, m', ps, p);
    Overwritten(m, m', ps, p + WSIZE);
  }

  /** Where the headers of the blocks around index k lie. */
  lemma Spread(bs: seq<Block>, limit: nat, k: nat, i: nat)
    requires Tiles(bs, limit)
    requires k < |bs| && i < |bs|
    ensures bs[i].addr % 8 == 0 && bs[i].addr >= DSIZE && bs[i].End() <= limit
    ensures bs[i].size % 8 == 0 && bs[i].size >= 2 * DSIZE
    ensures i < k ==> bs[i].End() <= bs[k].addr
    ensures i > k ==> bs[k].End() <= bs[i].addr
    ensures k + 1 < |bs| ==> bs[k].End() == bs[k + 1].addr
    ensures i > k + 1 ==> bs[k + 1].End() <= bs[i].addr
  {
    InsideArena(bs, limit, i);
    if i < k { InOrder(bs, limit, i, k); }
    if i > k { InOrder(bs, limit, k, i); }
    if i > k + 1 { InOrder(bs, limit, k + 1, i); }
  }

  lemma NextIsNull(bs: seq<Block>, limit: nat, k: nat)
    requires Tiles(bs, limit) && k < |bs|
    ensures NextAddr(bs, k) == NULL <==> k + 1 == |bs|
  {
    if k + 1 < |bs| { InsideArena(bs, limit, k + 1); }
  }

  /** A split leaves the header words of every other block, except the back tag just above. */
  lemma SplitFrame(m: seq<Word>, m': seq<Word>, bs: seq<Block>, limit: nat, k: nat, need: nat, i: nat)
    requires Tiles(bs, limit)
    requires k < |bs| && i < |bs| && need % 8 == 0 && need >= 2 * DSIZE && need + DSIZE < bs[k].size
    requires Patched(m, m', SplitStores(bs[k].addr, need, bs[k].size - need, NextAddr(bs, k)))
    ensures i != k ==> At(m', bs[i].addr) == At(m, bs[i].addr)
    ensures i != k + 1 ==> At(m', bs[i].addr + WSIZE) == At(m, bs[i].addr + WSIZE)
  {
    hide At, Tiles, Patched;
    Spread(bs, limit, k, i);
    Spread(bs, limit, k, k);
    if k + 1 < |bs| { Spread(bs, limit, k, k + 1); }
    NextIsNull(bs, limit, k);
    Headers(m, m', SplitStores(bs[k].addr, need, bs[k].size - need, NextAddr(bs, k)), bs[i].addr);
  }

  /** The words a split writes. */
  lemma SplitWrites(m: seq<Word>, m': seq<Word>, bs: seq<Block>, limit: nat, k: nat, need: nat)
    requires Tiles(bs, limit)
    requires k < |bs| && need % 8 == 0 && need >= 2 * DSIZE && need + DSIZE < bs[k].size
    requires Patched(m, m', SplitStores(bs[k].addr, need, bs[k].size - need, NextAddr(bs, k)))
    ensures At(m', bs[k].addr) == need + 1
    ensures At(m', bs[k].addr + need) == bs[k].size - need
    ensures At(m', bs[k].addr + need + WSIZE) == need
    ensures k + 1 < |bs| ==> At(m', bs[k + 1].addr + WSIZE) == bs[k].size - need && At(m', 0) == At(m, 0)
    ensures k + 1 == |bs| ==> At(m', 0) == bs[k].addr + need
  {
    hide At, Tiles, Patched, SplitStores;
    Spread(bs, limit, k, k);
    NextIsNull(bs, limit, k);
    SplitWords(m, m', bs[k].addr, need, bs[k].size - need, NextAddr(bs, k));
  }

  lemma SplitWords(m: seq<Word>, m': seq<Word>, p: nat, need: nat, rest: nat, next: nat)
    requires p % 8 == 0 && need % 8 == 0 && next % 8 == 0
    requires p >= DSIZE && need >= 2 * DSIZE && (next == NULL || next >= p + need + DSIZE)
    requires Patched(m, m', SplitStores(p, need, rest, next))
    ensures At(m', p) == need + 1 && At(m', p + need) == rest && At(m', p + need + WSIZE) == need
    ensures next != NULL ==> At(m', next + WSIZE) == rest && At(m', 0) == At(m, 0)
    ensures next == NULL ==> At(m', 0) == p + need
  {
    hide At, Patched, SplitStores;
    var ps := SplitStores(p, need, rest, next);
    SplitLookup(p, need, rest, next);
    Aligned(p, need);
    Aligned(next, 0);
    Overwritten(m, m', ps, p);
    Overwritten(m, m', ps, p + need);
    Overwritten(m, m', ps, p + need + WSIZE);
    Overwritten(m, m', ps, 0);
    if next != NULL { Overwritten(m, m', ps, next + WSIZE); }
  }

  lemma SplitHeaders(m: seq<Word>, m': seq<Word>, bs: seq<Block>, limit: nat, k: nat, need: nat, i: nat)
    requires Tiles(bs, limit) && Encodes(m, bs)
    requires k < |bs| && need % 8 == 0 && need >= 2 * DSIZE && need + DSIZE < bs[k].size
    requires Patched(m, m', SplitStores(bs[k].addr, need, bs[k].size - need, NextAddr(bs, k)))
    requires i < |bs| + 1
    ensures |Placed(bs, k, need)| == |bs| + 1
    ensures var c := Placed(bs, k, need)[i]; At(m', c.addr) == Pack(c.size, c.used)
  {
    hide Patched, Tiles, At, Placed, SplitStores;
    PlacedIndex(bs, k, need, i);
    SplitWrites(m, m', bs, limit, k, need);
    if i < k { SplitFrame(m, m', bs, limit, k, need, i); }
    if i > k + 1 { SplitFrame(m, m', bs, limit, k, need, i - 1); }
  }

  lemma SplitBackTags(m: seq<Word>, m': seq<Word>, bs: seq<Block>, limit: nat, k: nat, need: nat, j: nat)
    requires Tiles(bs, limit) && Encodes(m, bs)
    requires k < |bs| && need % 8 == 0 && need >= 2 * DSIZE && need + DSIZE < bs[k].size
    requires Patched(m, m', SplitStores(bs[k].addr, need, bs[k].size - need, NextAddr(bs, k)))
    requires j < |bs| + 1
    ensures |Placed(bs, k, need)| == |bs| + 1
    ensures var cs := Placed(bs, k, need);
            At(m', cs[j].addr + WSIZE) == if j == 0 then 0 else cs[j - 1].size
  {
    hide Patched, Tiles, At, Placed, SplitStores;
    PlacedIndex(bs, k, need, j);
    if j > 0 { PlacedIndex(bs, k, need, j - 1); }
    SplitWrites(m, m', bs, limit, k, need);
    if j <= k { SplitFrame(m, m', bs, limit, k, need, j); }
    if j > k + 1 { SplitFrame(m, m', bs, limit, k, need, j - 1); }
  }

  lemma SplitEncodes(m: seq<Word>, m': seq<Word>, bs: seq<Block>, limit: nat, k: nat, need: nat)
    requires Tiles(bs, limit) && Encodes(m, bs)
    requires k < |bs| && need % 8 == 0 && need >= 2 * DSIZE && need + DSIZE < bs[k].size
    requires Patched(m, m', SplitStores(bs[k].addr, need, bs[k].size - need, NextAddr(bs, k)))
    ensures Encodes(m', Placed(bs, k, need))
  {
    hide Patched, Tiles, At, Placed, SplitStores;
    var cs := Placed(bs, k, need);
    PlacedIndex(bs, k, need, |bs|);
    forall i | 0 <= i < |cs| ensures At(m', cs[i].addr) == Pack(cs[i].size, cs[i].used) {
      SplitHeaders(m, m', bs, limit, k, need, i);
    }
    forall j | 0 <= j < |cs| ensures At(m', cs[j].addr + WSIZE) == if j == 0 then 0 else cs[j - 1].size {
      SplitBackTags(m, m', bs, limit, k, need, j);
    }
    SplitWrites(m, m', bs, limit, k, need);
    SplitBackTags(m, m', bs, limit, k, need, 0);
  }

  lemma MergeLookup(p: nat, size: nat, next: nat)
    requires p >= DSIZE && (next == NULL || next >= p + DSIZE)
    ensures var ps := MergeStores(p, size, next);
            && p in ps && ps[p] == size
            && (next != NULL ==> 0 !in ps && next + WSIZE in ps && ps[next + WSIZE] == size)
            && (next == NULL ==> 0 in ps && ps[0] == p)
  {
  }

  lemma MergeWrites(m: seq<Word>, m': seq<Word>, bs: seq<Block>, limit: nat, k: nat)
    requires Tiles(bs, limit) && k + 1 < |bs|
    requires Patched(m, m', MergeStores(bs[k].addr, bs[k].size + bs[k + 1].size, NextAddr(bs, k + 1)))
    ensures At(m', bs[k].addr) == bs[k].size + bs[k + 1].size
    ensures k + 2 < |bs| ==> At(m', bs[k + 2].addr + WSIZE) == bs[k].size + bs[k + 1].size && At(m', 0) == At(m, 0)
    ensures k + 2 == |bs| ==> At(m', 0) == bs[k].addr
  {
    hide At, Tiles, Patched, MergeStores;
    Spread(bs, limit, k, k + 1);
    Spread(bs, limit, k, k);
    Spread(bs, limit, k + 1, k + 1);
    NextIsNull(bs, limit, k + 1);
    var p, size, next := bs[k].addr, bs[k].size + bs[k + 1].size, NextAddr(bs, k + 1);
    var ps := MergeStores(p, size, next);
    MergeLookup(p, size, next);
    Aligned(p, 0);
    Aligned(next, 0);
    Overwritten(m, m', ps, p);
    Overwritten(m, m', ps, 0);
    if next != NULL { Overwritten(m, m', ps, next + WSIZE); }
  }

  /** A merge leaves the header words of every other block, except the back tag just above. */
  lemma MergeFrame(m: seq<Word>, m': seq<Word>, bs: seq<Block>, limit: nat, k: nat, i: nat)
    requires Tiles(bs, limit) && k + 1 < |bs| && i < |bs|
    requires Patched(m, m', MergeStores(bs[k].addr, bs[k].size + bs[k + 1].size, NextAddr(bs, k + 1)))
    ensures i != k ==> At(m', bs[i].addr) == At(m, bs[i].addr)
    ensures i != k + 2 ==> At(m', bs[i].addr + WSIZE) == At(m, bs[i].addr + WSIZE)
  {
    hide At, Tiles, Patched;
    Spread(bs, limit, k, i);
    Spread(bs, limit, k, k);
    Spread(bs, limit, k + 1, k + 1);
    Spread(bs, limit, k + 1, i);
    if k + 2 < |bs| { Spread(bs, limit, k + 1, k + 2); }
    NextIsNull(bs, limit, k + 1);
    Headers(m, m', MergeStores(bs[k].addr, bs[k].size + bs[k + 1].size, NextAddr(bs, k + 1)), bs[i].addr);
  }

  lemma MergeEncodes(m: seq<Word>, m': seq<Word>, bs: seq<Block>, limit: nat, k: nat)
    requires Tiles(bs, limit) && Encodes(m, bs) && k + 1 < |bs|
    requires Patched(m, m', MergeStores(bs[k].addr, bs[k].size + bs[k + 1].size, NextAddr(bs, k + 1)))
    ensures Encodes(m', Merged(bs, k))
  {
    hide Patched, Tiles, At, Merged, MergeStores;
    var cs := Merged(bs, k);
    MergedIndex(bs, k, |bs| - 2);
    MergeWrites(m, m', bs, limit, k);
    forall i | 0 <= i < |cs| ensures At(m', cs[i].addr) == Pack(cs[i].size, cs[i].used) {
      MergedIndex(bs, k, i);
      MergeFrame(m, m', bs, limit, k, if i <= k then i else i + 1);
    }
    forall i, j | 0 <= i && j == i + 1 && j < |cs| ensures At(m', cs[j].addr + WSIZE) == cs[i].size {
      MergedIndex(bs, k, i);
      MergedIndex(bs, k, j);
      MergeFrame(m, m', bs, limit, k, if j <= k then j else j + 1);
    }
    MergedIndex(bs, k, 0);
    MergeFrame(m, m', bs, limit, k, 0);
  }

  /** Rewriting the size word of block k leaves every back tag and every other size word. */
  lemma MarkFrame(m: seq<Word>, m': seq<Word>, bs: seq<Block>, limit: nat, k: nat, w: nat, i: nat)
    requires Tiles(bs, limit) && k < |bs| && i < |bs|
    requires Patched(m, m', map[bs[k].addr := w])
    ensures At(m', bs[i].addr) == if i == k then w else At(m, bs[i].addr)
    ensures At(m', bs[i].addr + WSIZE) == At(m, bs[i].addr + WSIZE)
    ensures At(m', 0) == At(m, 0)
  {
    hide At, Tiles, Patched;
    Spread(bs, limit, k, i);
    Spread(bs, limit, k, k);
    Headers(m, m', map[bs[k].addr := w], bs[i].addr);
    Overwritten(m, m', map[bs[k].addr := w], 0);
  }

  lemma MarkEncodes(m: seq<Word>, m': seq<Word>, bs: seq<Block>, limit: nat, k: nat, used: bool)
    requires Tiles(bs, limit) && Encodes(m, bs) && k < |bs|
    requires Patched(m, m', map[bs[k].addr := Pack(bs[k].size, used)])
    ensures Encodes(m', bs[k := bs[k].(used := used)])
  {
    hide Patched, At, Tiles;
    forall i | 0 <= i < |bs|
      ensures At(m', bs[i].addr) == if i == k then Pack(bs[k].size, used) else At(m, bs[i].addr)
      ensures At(m', bs[i].addr + WSIZE) == At(m, bs[i].addr + WSIZE)
    {
      MarkFrame(m, m', bs, limit, k, Pack(bs[k].size, used), i);
    }
    MarkFrame(m, m', bs, limit, k, Pack(bs[k].size, used), 0);
  }

  lemma MarkTiles(bs: seq<Block>, limit: nat, k: nat, used: bool)
    requires Tiles(bs, limit) && k < |bs|
    ensures Tiles(bs[k := bs[k].(used := used)], limit)
  {
  }

  /** No store of a split falls into the payload of another block. */
  lemma SplitPayload(m: seq<Word>, m': seq<Word>, bs: seq<Block>, limit: nat, k: nat, need: nat, i: nat)
    requires Tiles(bs, limit) && k < |bs| && i < |bs| && i != k && need + DSIZE < bs[k].size
    requires Patched(m, m', SplitStores(bs[k].addr, need, bs[k].size - need, NextAddr(bs, k)))
    ensures SamePayload(m, m', bs[i])
  {
    hide At, Tiles;
    Spread(bs, limit, k, i);
    Spread(bs, limit, k, k);
    NextIsNull(bs, limit, k);
  }

  /** No store of a merge or of a change of mark falls into any payload. */
  lemma MergePayload(m: seq<Word>, m': seq<Word>, bs: seq<Block>, limit: nat, k: nat, i: nat)
    requires Tiles(bs, limit) && k + 1 < |bs| && i < |bs|
    requires Patched(m, m', MergeStores(bs[k].addr, bs[k].size + bs[k + 1].size, NextAddr(bs, k + 1)))
    ensures SamePayload(m, m', bs[i])
  {
    hide At, Tiles;
    Spread(bs, limit, k, i);
    Spread(bs, limit, k + 1, i);
    Spread(bs, limit, k, k);
    Spread(bs, limit, k + 1, k + 1);
    NextIsNull(bs, limit, k + 1);
  }

  lemma MarkPayload(m: seq<Word>, m': seq<Word>, bs: seq<Block>, limit: nat, k: nat, w: nat, i: nat)
    requires Tiles(bs, limit) && k < |bs| && i < |bs|
    requires Patched(m, m', map[bs[k].addr := w])
    ensures SamePayload(m, m', bs[i])
  {
    hide At, Tiles;
    Spread(bs, limit, k, i);
    Spread(bs, limit, k, k);
  }

  /** One store. */
  lemma PatchOne(m: seq<Word>, p: nat, v: Word)
    requires p / 4 < |m| && p % 4 == 0
    ensures Patched(m, m[p / 4 := v], map[p := v])
  {
  }

  /** One more store. */
  lemma PatchAlso(m: seq<Word>, m1: seq<Word>, m2: seq<Word>, ps: map<nat, nat>, p: nat, v: Word)
    requires Patched(m, m1, ps) && Patched(m1, m2, map[p := v])
    ensures Patched(m, m2, ps[p := v])
  {
    hide At;
  }

  // ---------------------------------------------------------------- contracts of the operations

  /** What a malloc of a non-wrapping n promises: the lowest free block that is big enough, or NULL if none is. */
  ghost predicate MallocStep(bs: seq<Block>, n: Word, bs': seq<Block>, r: nat, limit: nat)
    requires 0 < n <= MAX_REQUEST
  {
    var need := BlockSizeFor(n);
    var k := FirstFit(bs, need);
    && WellFormed(bs', limit)
    && if k == |bs| then r == NULL && bs' == bs
       else
         && r == bs[k].Payload()
         && Live(bs') == Live(bs) + {Granted(bs[k], need)}
         && Granted(bs[k], need) !in Live(bs)
  }

  /** What free promises: the block is gone from the live ones and the free space is coalesced. */
  ghost predicate FreeStep(bs: seq<Block>, b: Block, bs': seq<Block>, limit: nat) {
    && WellFormed(bs', limit)
    && b in Live(bs)
    && Live(bs') == Live(bs) - {b}
  }

  class Arena {
    const mem: array<Word>
    ghost var blocks: seq<Block>

    ghost function Limit(): nat { 4 * mem.Length }

    /** The headers are in place; free space may still need coalescing. */
    ghost predicate Tiled()
      reads this, mem
    {
      && Limit() < TWO32
      && Tiles(blocks, Limit())
      && Encodes(mem[..], blocks)
    }

    ghost predicate Valid()
      reads this, mem
    {
      Tiled() && Coalesced(blocks)
    }

    /** init_heap, for a buffer of any size the 32-bit tags can describe. */
    constructor (words: nat)
      requires words % 2 == 0 && 6 <= words && 4 * words < TWO32
      ensures Valid() && fresh(mem) && mem.Length == words
      ensures blocks == Fresh(4 * words)
    {
      mem := new Word[words](_ => 0);
      blocks := Fresh(4 * words);
      new;
      PutW(0, DSIZE);
      PutW(DSIZE, 4 * words - DSIZE);
      PutW(DSIZE + WSIZE, 0);
      hide At;
      FreshWellFormed(4 * words);
    }

    function GetW(p: nat): Word
      reads mem
      requires p / 4 < mem.Length
    {
      mem[p / 4]
    }

    method PutW(p: nat, v: Word)
      requires p / 4 < mem.Length && p % 4 == 0
      modifies mem
      ensures Patched(old(mem[..]), mem[..], map[p := v])
    {
      PatchOne(mem[..], p, v);
      mem[p / 4] := v;
      assert mem[..] == old(mem[..])[p / 4 := v];
    }

    function GetSize(p: nat): nat
      reads mem
      requires p / 4 < mem.Length
    {
      GetW(p) - GetW(p) % 8
    }

    predicate GetAlloc(p: nat)
      reads mem
      requires p / 4 < mem.Length
    {
      GetW(p) % 2 == 1
    }

    function LastPtr(): nat
      reads mem
      requires mem.Length > 0
    {
      mem[0]
    }

    function NextBlkp(p: nat): nat
      reads mem
      requires p / 4 < mem.Length
    {
      if p < LastPtr() then p + GetSize(p) else NULL
    }

    function PrevBlkp(p: nat): nat
      reads mem
      requires p / 4 + 1 < mem.Length && p >= GetW(p + WSIZE)
    {
      if p > DSIZE then p - GetW(p + WSIZE) else NULL
    }

    lemma HeaderMacros(k: nat)
      requires Tiled()
      requires k < |blocks|
      ensures blocks[k].addr / 4 + 1 < mem.Length && blocks[k].addr % 8 == 0
      ensures blocks[k].End() <= Limit() && blocks[k].addr >= DSIZE
      ensures GetSize(blocks[k].addr) == blocks[k].size
      ensures GetAlloc(blocks[k].addr) == blocks[k].used
      ensures !blocks[k].used ==> GetW(blocks[k].addr) == blocks[k].size
    {
      hide Tiles, Encodes, Pack;
      Spread(blocks, Limit(), k, k);
      assert blocks[k].addr / 4 + 1 < mem.Length;
      assert GetW(blocks[k].addr) == Pack(blocks[k].size, blocks[k].used) by { SizeWord(mem[..], blocks, k); }
      Unpack(blocks[k].size, blocks[k].used);
    }

    lemma NextMacro(k: nat)
      requires Tiled()
      requires k < |blocks|
      requires blocks[k].addr / 4 < mem.Length && GetSize(blocks[k].addr) == blocks[k].size
      ensures NextBlkp(blocks[k].addr) == if k + 1 < |blocks| then blocks[k + 1].addr else NULL
    {
      assert At(mem[..], 0) == LastPtr();
      if k + 1 < |blocks| {
        InOrder(blocks, Limit(), k, |blocks| - 1);
        assert blocks[k].End() == blocks[k + 1].addr;
      }
    }

    lemma PrevMacro(k: nat)
      requires Tiled()
      requires k < |blocks|
      requires blocks[k].addr / 4 + 1 < mem.Length && blocks[k].addr >= DSIZE
      ensures blocks[k].addr >= GetW(blocks[k].addr + WSIZE)
      ensures PrevBlkp(blocks[k].addr) == if k > 0 then blocks[k - 1].addr else NULL
    {
      var p := blocks[k].addr;
      assert At(mem[..], p + WSIZE) == GetW(p + WSIZE);
      if k > 0 {
        InOrder(blocks, Limit(), 0, k);
        assert blocks[k - 1].End() == p;
      }
    }

    /** The header macros read back the block list, and PREV_BLKP inverts NEXT_BLKP. */
    lemma Macros(k: nat)
      requires Tiled()
      requires k < |blocks|
      ensures blocks[k].addr / 4 + 1 < mem.Length && blocks[k].addr % 8 == 0
      ensures blocks[k].End() <= Limit() && blocks[k].addr >= DSIZE
      ensures GetSize(blocks[k].addr) == blocks[k].size
      ensures GetAlloc(blocks[k].addr) == blocks[k].used
      ensures !blocks[k].used ==> GetW(blocks[k].addr) == blocks[k].size
      ensures NextBlkp(blocks[k].addr) == if k + 1 < |blocks| then blocks[k + 1].addr else NULL
      ensures blocks[k].addr >= GetW(blocks[k].addr + WSIZE)
      ensures PrevBlkp(blocks[k].addr) == if k > 0 then blocks[k - 1].addr else NULL
    {
      HeaderMacros(k);
      NextMacro(k);
      PrevMacro(k);
    }

    /** First fit: walk the list until a free block of at least need bytes, or off its end. */
    method FindFit(need: nat) returns (p: nat, ghost k: nat)
      requires Valid()
      ensures k == FirstFit(blocks, need)
      ensures p == if FirstFit(blocks, need) < |blocks| then blocks[FirstFit(blocks, need)].addr else NULL
      ensures p == NULL <==> FirstFit(blocks, need) == |blocks|
    {
      p, k := DSIZE, 0;
      HeaderMacros(0);
      while p != NULL && (GetAlloc(p) || GetSize(p) < need)
        invariant k <= |blocks|
        invariant p == if k < |blocks| then blocks[k].addr else NULL
        invariant p != NULL ==> k < |blocks| && p / 4 + 1 < mem.Length
        invariant k < |blocks| ==> p != NULL
        invariant k < |blocks| ==> GetAlloc(p) == blocks[k].used && GetSize(p) == blocks[k].size
        invariant forall i :: 0 <= i < k ==> blocks[i].used || blocks[i].size < need
        decreases |blocks| - k
      {
        NextMacro(k);
        p, k := NextBlkp(p), k + 1;
        if k < |blocks| { HeaderMacros(k); }
      }
      FirstFitIs(blocks, need, k);
    }

    /** The stores of malloc once a free block is found: mark it whole, or split it. A block size that wrapped around (0
        or DSIZE) is stored just the same. */
    method Place(p: nat, freesize: nat, need: nat, ghost k: nat)
      requires Valid()
      requires k < |blocks| && p == blocks[k].addr && !blocks[k].used && freesize == blocks[k].size
      requires need <= freesize && need % 8 == 0
      modifies this`blocks, mem
      ensures need >= 2 * DSIZE ==> Tiled() && blocks == Placed(old(blocks), k, need)
      ensures need >= 2 * DSIZE ==> forall i :: 0 <= i < |old(blocks)| && i != k ==>
              SamePayload(old(mem[..]), mem[..], old(blocks)[i])
      ensures Patched(old(mem[..]), mem[..], PlaceStores(old(blocks), k, need))
    {
      hide At, Tiles, Encodes, SamePayload, Placed, Patched, PlaceStores;
      if freesize - need <= DSIZE {
        Spread(blocks, Limit(), k, k);
        PlaceWhole(p, freesize, need, k);
      } else {
        PlaceSplit(p, freesize, need, k);
      }
    }

    /** Not enough would be left for a block of its own. */
    method PlaceWhole(p: nat, freesize: nat, need: nat, ghost k: nat)
      requires Valid()
      requires k < |blocks| && p == blocks[k].addr && !blocks[k].used && freesize == blocks[k].size
      requires need <= freesize <= need + DSIZE
      modifies this`blocks, mem
      ensures Tiled() && blocks == Placed(old(blocks), k, need)
      ensures forall i :: 0 <= i < |old(blocks)| && i != k ==> SamePayload(old(mem[..]), mem[..], old(blocks)[i])
      ensures Patched(old(mem[..]), mem[..], PlaceStores(old(blocks), k, need))
    {
      hide At, Tiles, Encodes, Coalesced, SamePayload, Patched, Placed, GetW, GetSize, GetAlloc;
      ghost var m, bs := mem[..], blocks;
      HeaderMacros(k);
      Spread(bs, Limit(), k, k);
      Aligned(p, 0);
      PutW(p, Pack(freesize, true));
      blocks := Placed(bs, k, need);
      PlacedWhole(bs, k, need);
      MarkPlaced(m, bs, k);
    }

    /** Split the block and fix the back tag above it, or the last-block pointer. */
    method PlaceSplit(p: nat, freesize: nat, need: nat, ghost k: nat)
      requires Valid()
      requires k < |blocks| && p == blocks[k].addr && !blocks[k].used && freesize == blocks[k].size
      requires need + DSIZE < freesize && need % 8 == 0
      modifies this`blocks, mem
      ensures need >= 2 * DSIZE ==> Tiled() && blocks == Placed(old(blocks), k, need)
      ensures need >= 2 * DSIZE ==> forall i :: 0 <= i < |old(blocks)| && i != k ==>
              SamePayload(old(mem[..]), mem[..], old(blocks)[i])
      ensures Patched(old(mem[..]), mem[..], PlaceStores(old(blocks), k, need))
    {
      hide At, Tiles, Encodes, SamePayload, Patched, SplitStores, Placed, Coalesced;
      ghost var m, bs := mem[..], blocks;
      HeaderMacros(k);
      Spread(bs, Limit(), k, k);
      NextMacro(k);
      var next := NextBlkp(p);
      SplitInBounds(k, need);
      NextIsNull(bs, Limit(), k);
      AlignedRest(freesize, need);
      SplitAt(p, need, freesize - need, next);
      if need >= 2 * DSIZE {
        SplitPlaced(m, bs, k, need);
        blocks := Placed(bs, k, need);
      }
    }

    /** Every address a split stores to lies in the buffer. */
    lemma SplitInBounds(k: nat, need: nat)
      requires Tiled() && k < |blocks| && need <= blocks[k].size && need + DSIZE < blocks[k].size && need % 8 == 0
      ensures (blocks[k].addr + need + WSIZE) / 4 < mem.Length
      ensures blocks[k].addr % 8 == 0 && blocks[k].addr + blocks[k].size < TWO32
      ensures (NextAddr(blocks, k) + WSIZE) / 4 < mem.Length && NextAddr(blocks, k) % 8 == 0
    {
      hide Encodes, At;
      InsideArena(blocks, Limit(), k);
      if k + 1 < |blocks| { InsideArena(blocks, Limit(), k + 1); }
    }

    /** The four stores of a split, in the order of the source. */
    method SplitAt(p: nat, need: nat, rest: nat, next: nat)
      requires p % 8 == 0 && need % 8 == 0 && next % 8 == 0 && p >= DSIZE
      requires (p + need + WSIZE) / 4 < mem.Length && (next + WSIZE) / 4 < mem.Length
      requires p + need < TWO32 && need + 1 < TWO32 && rest < TWO32 && rest % 8 == 0
      requires next == NULL || next >= p + need + DSIZE
      modifies mem
      ensures Patched(old(mem[..]), mem[..], SplitStores(p, need, rest, next))
    {
      hide Patched, At;
      ghost var m := mem[..];
      Aligned(p, need);
      Aligned(next, 0);
      PutW(p, Pack(need, true));
      ghost var m1 := mem[..];
      var newfree := p + need;
      PutW(newfree, rest);
      ghost var m2 := mem[..];
      PatchAlso(m, m1, m2, map[p := need + 1], newfree, rest);
      PutW(newfree + WSIZE, need);
      ghost var m3 := mem[..];
      PatchAlso(m, m2, m3, map[p := need + 1][newfree := rest], newfree + WSIZE, need);
      if next != NULL {
        PutW(next + WSIZE, rest);
        PatchAlso(m, m3, mem[..], map[p := need + 1][newfree := rest][newfree + WSIZE := need], next + WSIZE, rest);
      } else {
        PutW(0, newfree);
        PatchAlso(m, m3, mem[..], map[p := need + 1][newfree := rest][newfree + WSIZE := need], 0, newfree);
      }
    }

    lemma PlacedWhole(bs: seq<Block>, k: nat, need: nat)
      requires k < |bs| && need <= bs[k].size && bs[k].size - need <= DSIZE
      ensures Placed(bs, k, need) == bs[k := bs[k].(used := true)]
    {
    }

    lemma MarkPlaced(m: seq<Word>, bs: seq<Block>, k: nat)
      requires Limit() < TWO32 && WellFormed(bs, Limit()) && Encodes(m, bs) && k < |bs|
      requires blocks == bs[k := bs[k].(used := true)]
      requires Patched(m, mem[..], map[bs[k].addr := Pack(bs[k].size, true)])
      ensures Tiled()
      ensures forall i :: 0 <= i < |bs| ==> SamePayload(m, mem[..], bs[i])
    {
      hide At, SamePayload;
      MarkEncodes(m, mem[..], bs, Limit(), k, true);
      MarkTiles(bs, Limit(), k, true);
      forall i | 0 <= i < |bs| ensures SamePayload(m, mem[..], bs[i]) {
        MarkPayload(m, mem[..], bs, Limit(), k, Pack(bs[k].size, true), i);
      }
    }

    lemma SplitPlaced(m: seq<Word>, bs: seq<Block>, k: nat, need: nat)
      requires Limit() < TWO32 && WellFormed(bs, Limit()) && Encodes(m, bs)
      requires k < |bs| && !bs[k].used && need % 8 == 0 && need >= 2 * DSIZE && need + DSIZE < bs[k].size
      requires Patched(m, mem[..], SplitStores(bs[k].addr, need, bs[k].size - need, NextAddr(bs, k)))
      ensures Tiles(Placed(bs, k, need), Limit()) && Encodes(mem[..], Placed(bs, k, need))
      ensures forall i :: 0 <= i < |bs| && i != k ==> SamePayload(m, mem[..], bs[i])
    {
      hide At, SamePayload, Patched, SplitStores;
      SplitEncodes(m, mem[..], bs, Limit(), k, need);
      PlacedTiles(bs, Limit(), k, need);
      forall i | 0 <= i < |bs| && i != k ensures SamePayload(m, mem[..], bs[i]) {
        SplitPayload(m, mem[..], bs, Limit(), k, need, i);
      }
    }

    /** malloc. The stores are the same for every request; beyond MAX_REQUEST, where the size arithmetic wraps around,
        they do not set up a block. */
    method Malloc(n: Word) returns (r: nat)
      requires Valid()
      modifies this`blocks, mem
      ensures n <= MAX_REQUEST ==> Valid()
      ensures n == 0 ==> r == NULL && blocks == old(blocks) && mem[..] == old(mem[..])
      ensures 0 < n <= MAX_REQUEST ==> MallocStep(old(blocks), n, blocks, r, Limit())
      ensures n <= MAX_REQUEST ==> forall b :: b in Live(old(blocks)) ==> SamePayload(old(mem[..]), mem[..], b)
      ensures n > MAX_REQUEST ==> (r == NULL <==> forall b :: b in old(blocks) ==> b.used)
      ensures r == NULL ==> mem[..] == old(mem[..])
      ensures r != NULL ==>
              var k := FirstFit(old(blocks), BlockSizeFor(n));
              && k < |old(blocks)| && r == old(blocks)[k].Payload()
              && Patched(old(mem[..]), mem[..], PlaceStores(old(blocks), k, BlockSizeFor(n)))
    {
      hide Patched, PlaceStores;
      ghost var m, bs := mem[..], blocks;
      if n == 0 {
        return NULL;
      }
      var need := BlockSizeFor(n);
      var p, k := FindFit(need);
      SmallFit(need, k);
      if p == NULL {
        return NULL;
      }
      var freesize := GetSizeAt(p, k);
      Place(p, freesize, need, k);
      if n <= MAX_REQUEST {
        MallocPromise(bs, m, k, n);
      }
      r := p + DSIZE;
    }

    method GetSizeAt(p: nat, ghost k: nat) returns (size: nat)
      requires Valid() && k < |blocks| && p == blocks[k].addr
      ensures size == blocks[k].size
    {
      HeaderMacros(k);
      size := GetSize(p);
    }

    /** A wrapped block size fits any free block. */
    lemma SmallFit(need: nat, k: nat)
      requires Valid() && k == FirstFit(blocks, need)
      ensures need <= DSIZE ==> (k == |blocks| <==> forall b :: b in blocks ==> b.used)
    {
      if need <= DSIZE {
        if k < |blocks| {
          assert blocks[k] in blocks;
        }
      }
    }

    lemma MallocPromise(bs: seq<Block>, m: seq<Word>, k: nat, n: Word)
      requires Tiled() && WellFormed(bs, Limit()) && 0 < n <= MAX_REQUEST
      requires k == FirstFit(bs, BlockSizeFor(n)) && k < |bs|
      requires blocks == Placed(bs, k, BlockSizeFor(n))
      requires forall i :: 0 <= i < |bs| && i != k ==> SamePayload(m, mem[..], bs[i])
      ensures Valid() && MallocStep(bs, n, blocks, bs[k].Payload(), Limit())
      ensures forall b :: b in Live(bs) ==> SamePayload(m, mem[..], b)
    {
      hide Tiles, SamePayload, Placed;
      PlacedTiles(bs, Limit(), k, BlockSizeFor(n));
      PlacedLive(bs, Limit(), k, BlockSizeFor(n));
    }

    /** Combine block p with its free upper neighbour q. */
    method Combine(p: nat, q: nat, ghost k: nat)
      requires Tiled()
      requires k + 1 < |blocks| && p == blocks[k].addr && q == blocks[k + 1].addr && !blocks[k + 1].used
      modifies this`blocks, mem
      ensures Tiled() && blocks == Merged(old(blocks), k)
      ensures forall b :: b in old(blocks) ==> SamePayload(old(mem[..]), mem[..], b)
    {
      hide At, Tiles, Encodes, SamePayload, Patched, Merged;
      ghost var m, bs := mem[..], blocks;
      HeaderMacros(k);
      HeaderMacros(k + 1);
      NextMacro(k + 1);
      Spread(bs, Limit(), k, k + 1);
      MergeInBounds(k);
      var blocksize := GetSize(p) + GetW(q);
      var next := NextBlkp(q);
      PutW(p, blocksize);
      ghost var m1 := mem[..];
      if next != NULL {
        PutW(next + WSIZE, blocksize);
        PatchAlso(m, m1, mem[..], map[p := blocksize], next + WSIZE, blocksize);
      } else {
        PutW(0, p);
        PatchAlso(m, m1, mem[..], map[p := blocksize], 0, p);
      }
      blocks := Merged(bs, k);
      MergePlaced(m, bs, k);
    }

    lemma MergeInBounds(k: nat)
      requires Tiled() && k + 1 < |blocks|
      ensures (NextAddr(blocks, k + 1) + WSIZE) / 4 < mem.Length && NextAddr(blocks, k + 1) % 8 == 0
      ensures (NextAddr(blocks, k + 1) + WSIZE) % 4 == 0 && blocks[k].addr % 4 == 0
    {
      hide Encodes, At, Tiles;
      Spread(blocks, Limit(), k, k);
      Aligned(blocks[k].addr, 0);
      if k + 2 < |blocks| {
        Spread(blocks, Limit(), k + 2, k + 2);
        Aligned(blocks[k + 2].addr, 0);
      }
    }

    lemma MergePlaced(m: seq<Word>, bs: seq<Block>, k: nat)
      requires Limit() < TWO32 && Tiles(bs, Limit()) && Encodes(m, bs) && k + 1 < |bs|
      requires blocks == Merged(bs, k)
      requires Patched(m, mem[..], MergeStores(bs[k].addr, bs[k].size + bs[k + 1].size, NextAddr(bs, k + 1)))
      ensures Tiled()
      ensures forall b :: b in bs ==> SamePayload(m, mem[..], b)
    {
      hide At, Tiles, Encodes, SamePayload, Patched, Merged, MergeStores;
      MergeEncodes(m, mem[..], bs, Limit(), k);
      MergedTiles(bs, Limit(), k);
      forall i | 0 <= i < |bs| ensures SamePayload(m, mem[..], bs[i]) {
        MergePayload(m, mem[..], bs, Limit(), k, i);
      }
    }

    /** free's first step: release the block, absorbing a free upper neighbour. */
    method FreeUp(p: nat, ghost k: nat)
      requires Valid()
      requires k < |blocks| && blocks[k].used && p == blocks[k].addr
      modifies this`blocks, mem
      ensures Tiled() && blocks == FreedUp(old(blocks), k)
      ensures forall b :: b in old(blocks) ==> SamePayload(old(mem[..]), mem[..], b)
    {
      hide Tiles, Encodes, Coalesced, SamePayload, Merged, At, Patched;
      ghost var bs, m := blocks, mem[..];
      HeaderMacros(k);
      Aligned(p, 0);
      NextMacro(k);
      NextIsNull(bs, Limit(), k);
      var next := NextBlkp(p);
      if k + 1 < |blocks| { HeaderMacros(k + 1); }
      if next != NULL && !GetAlloc(next) {
        Combine(p, next, k);
      } else {
        var blocksize := GetSize(p);
        PutW(p, blocksize);
        blocks := bs[k := bs[k].(used := false)];
        Unmarked(m, bs, k);
      }
    }

    lemma Unmarked(m: seq<Word>, bs: seq<Block>, k: nat)
      requires Limit() < TWO32 && Tiles(bs, Limit()) && Encodes(m, bs) && k < |bs|
      requires blocks == bs[k := bs[k].(used := false)]
      requires Patched(m, mem[..], map[bs[k].addr := bs[k].size])
      ensures Tiled()
      ensures forall b :: b in bs ==> SamePayload(m, mem[..], b)
    {
      hide At, SamePayload, Tiles, Encodes, Patched;
      MarkEncodes(m, mem[..], bs, Limit(), k, false);
      MarkTiles(bs, Limit(), k, false);
      forall i | 0 <= i < |bs| ensures SamePayload(m, mem[..], bs[i]) {
        MarkPayload(m, mem[..], bs, Limit(), k, bs[k].size, i);
      }
    }

    /** free's second step: let a free lower neighbour absorb the block. */
    method FreeDown(p: nat, ghost k: nat)
      requires Tiled()
      requires k < |blocks| && !blocks[k].used && p == blocks[k].addr
      modifies this`blocks, mem
      ensures Tiled()
      ensures blocks == if k > 0 && !old(blocks)[k - 1].used then Merged(old(blocks), k - 1) else old(blocks)
      ensures forall b :: b in old(blocks) ==> SamePayload(old(mem[..]), mem[..], b)
    {
      hide Tiles, Encodes, Merged, At, Patched;
      HeaderMacros(k);
      PrevMacro(k);
      var prev := PrevBlkp(p);
      if k > 0 { HeaderMacros(k - 1); }
      if prev != NULL && !GetAlloc(prev) {
        hide SamePayload;
        Combine(prev, p, k - 1);
      }
    }

    /** free, for NULL or the payload of a live block b. */
    method Free(addr: nat, ghost b: Block)
      requires Valid()
      requires addr != NULL ==> b in Live(blocks) && addr == b.Payload()
      modifies this`blocks, mem
      ensures Valid()
      ensures addr == NULL ==> blocks == old(blocks) && mem[..] == old(mem[..])
      ensures addr != NULL ==> FreeStep(old(blocks), b, blocks, Limit())
      ensures forall c :: c in Live(blocks) ==> SamePayload(old(mem[..]), mem[..], c)
    {
      if addr == NULL {
        return;
      }
      hide Tiles, Encodes, Merged, FreedUp, SamePayload;
      ghost var bs, m := blocks, mem[..];
      ghost var k :| 0 <= k < |bs| && bs[k] == b;
      var p := addr - DSIZE;
      FreeUp(p, k);
      ghost var cs, m1 := blocks, mem[..];
      FreedUpNonEmpty(bs, k);
      FreedUpTiles(bs, Limit(), k);
      FreedUpIndex(bs, k, k);
      if k > 0 { FreedUpIndex(bs, k, k - 1); }
      FreeDown(p, k);
      FreedWellFormed(bs, Limit(), k);
      forall c | c in Live(blocks) ensures SamePayload(m, mem[..], c) {
        SamePayloadTwice(m, m1, mem[..], c);
      }
    }

    /** A caller's store into the payload of a block it holds. */
    method Store(p: nat, v: Word, ghost b: Block)
      requires Valid()
      requires b in Live(blocks) && b.Payload() <= p && p + WSIZE <= b.End() && p % 4 == 0
      modifies mem
      ensures Valid()
      ensures At(mem[..], p) == v
      ensures forall q :: q % 4 == 0 && q != p ==> At(mem[..], q) == old(At(mem[..], q))
    {
      hide Tiles, Encodes, At, Coalesced, Live;
      ghost var m, bs := mem[..], blocks;
      assert b in bs by { LiveIsListed(bs, b); }
      ghost var k :| 0 <= k < |bs| && bs[k] == b;
      Spread(bs, Limit(), k, k);
      PutW(p, v);
      PayloadStoreEncodes(m, mem[..], bs, Limit(), k, p, v);
    }
  }

  lemma SamePayloadTwice(m: seq<Word>, m1: seq<Word>, m2: seq<Word>, b: Block)
    requires SamePayload(m, m1, b) && SamePayload(m1, m2, b)
    ensures SamePayload(m, m2, b)
  {
    hide At;
  }

  lemma LiveIsListed(bs: seq<Block>, b: Block)
    requires b in Live(bs)
    ensures b in bs && b.used
  {
  }

  lemma PayloadStoreEncodes(m: seq<Word>, m': seq<Word>, bs: seq<Block>, limit: nat, k: nat, p: nat, v: Word)
    requires Tiles(bs, limit) && Encodes(m, bs) && k < |bs|
    requires bs[k].Payload() <= p < bs[k].End() && p % 4 == 0
    requires Patched(m, m', map[p := v])
    ensures Encodes(m', bs)
  {
    hide At, Patched;
    forall i | 0 <= i < |bs|
      ensures At(m', bs[i].addr) == At(m, bs[i].addr) && At(m', bs[i].addr + WSIZE) == At(m, bs[i].addr + WSIZE)
    {
      HeaderKept(m, m', bs, limit, k, p, v, i);
    }
    HeaderKept(m, m', bs, limit, k, p, v, 0);
  }

  lemma HeaderKept(m: seq<Word>, m': seq<Word>, bs: seq<Block>, limit: nat, k: nat, p: nat, v: Word, i: nat)
    requires Tiles(bs, limit) && k < |bs| && i < |bs|
    requires bs[k].Payload() <= p < bs[k].End() && p % 4 == 0
    requires Patched(m, m', map[p := v])
    ensures At(m', bs[i].addr) == At(m, bs[i].addr) && At(m', bs[i].addr + WSIZE) == At(m, bs[i].addr + WSIZE)
    ensures At(m', 0) == At(m, 0)
  {
    hide At, Tiles, Patched;
    Spread(bs, limit, k, i);
    Spread(bs, limit, k, k);
    Headers(m, m', map[p := v], bs[i].addr);
    Overwritten(m, m', map[p := v], 0);
  }
}
