/** What the allocator's contracts add up to over whole runs. */
module HeapRuns {
  import opened Tiling
  import opened Heap

  /** A returned pointer is 8-aligned, has room for the request, overlaps nothing live, and no lower free block would
      have done. */
  lemma MallocDelivers(bs: seq<Block>, n: Word, bs': seq<Block>, r: nat, limit: nat) returns (g: Block)
    requires WellFormed(bs, limit) && 0 < n <= MAX_REQUEST
    requires MallocStep(bs, n, bs', r, limit) && r != NULL
    ensures g in Live(bs') && g !in Live(bs) && r == g.Payload()
    ensures r % 8 == 0 && r + n <= g.End() <= limit
    ensures forall b :: b in Live(bs) ==> b.End() <= g.addr || g.End() <= b.addr
    ensures forall b :: b in bs && !b.used && b.addr < g.addr ==> b.size < BlockSizeFor(n)
  {
    hide Tiles, BlockSizeFor, Coalesced;
    var k := FirstFit(bs, BlockSizeFor(n));
    g := Granted(bs[k], BlockSizeFor(n));
    assert g in bs';
    var j :| 0 <= j < |bs'| && bs'[j] == g;
    Spread(bs', limit, j, j);
    forall b | b in Live(bs) ensures b.End() <= g.addr || g.End() <= b.addr {
      assert b in Live(bs');
      LiveDisjoint(bs', limit, b, g);
    }
    forall b | b in bs && !b.used && b.addr < g.addr ensures b.size < BlockSizeFor(n) {
      var i :| 0 <= i < |bs| && bs[i] == b;
      Spread(bs, limit, k, i);
      if i > k { Spread(bs, limit, k, k); }
    }
  }

  /** NULL comes back exactly when no free block holds the rounded request and its header. */
  lemma MallocFailsIff(bs: seq<Block>, n: Word, bs': seq<Block>, r: nat, limit: nat)
    requires WellFormed(bs, limit) && 0 < n <= MAX_REQUEST
    requires MallocStep(bs, n, bs', r, limit)
    ensures r == NULL <==> forall b :: b in bs && !b.used ==> b.size < (n + 7) / 8 * 8 + DSIZE
  {
    var k := FirstFit(bs, BlockSizeFor(n));
    if k < |bs| {
      assert bs[k] in bs;
      assert bs[k].Payload() != NULL;
    }
  }

  /** Freeing what malloc just returned restores the block list, split or not. */
  lemma FreeUndoesMalloc(bs: seq<Block>, n: Word, bs1: seq<Block>, r: nat, b: Block, bs2: seq<Block>, limit: nat)
    requires WellFormed(bs, limit) && 0 < n <= MAX_REQUEST
    requires MallocStep(bs, n, bs1, r, limit) && r != NULL
    requires FreeStep(bs1, b, bs2, limit) && r == b.Payload()
    ensures bs2 == bs
  {
    hide Tiles;
    var g := MallocDelivers(bs, n, bs1, r, limit);
    var i :| 0 <= i < |bs1| && bs1[i] == g;
    var j :| 0 <= j < |bs1| && bs1[j] == b;
    SameAddrSameIndex(bs1, limit, i, j);
    Canonical(bs, bs2, limit);
  }

  /** One call: a request of n bytes, or the return of the live block at index k of the list. */
  datatype Call = Malloc(n: Word) | Free(k: nat)

  ghost predicate CanCall(bs: seq<Block>, c: Call) {
    match c
    case Malloc(n) => 0 < n <= MAX_REQUEST
    case Free(k) => k < |bs| && bs[k].used
  }

  /** What the call does to the list: nothing, a placement in the first fit, or a coalescing free. */
  function Called(bs: seq<Block>, c: Call): seq<Block>
    requires CanCall(bs, c)
  {
    match c
    case Malloc(n) =>
      var k := FirstFit(bs, BlockSizeFor(n));
      if k == |bs| then bs else Placed(bs, k, BlockSizeFor(n))
    case Free(k) => Freed(bs, k)
  }

  /** One operation of a caller that respects the interface. */
  ghost predicate Step(bs: seq<Block>, bs': seq<Block>) {
    exists c: Call :: CanCall(bs, c) && bs' == Called(bs, c)
  }

  /** Well-formedness is asked of the first list only. */
  ghost predicate Run(trace: seq<seq<Block>>, limit: nat) {
    && |trace| > 0
    && WellFormed(trace[0], limit)
    && forall i, j :: 0 <= i && j == i + 1 && j < |trace| ==> Step(trace[i], trace[j])
  }

  lemma CalledWellFormed(bs: seq<Block>, c: Call, limit: nat)
    requires WellFormed(bs, limit) && CanCall(bs, c)
    ensures WellFormed(Called(bs, c), limit)
  {
    hide Tiles, Coalesced, Placed, Freed, Live;
    match c
    case Malloc(n) =>
      var k := FirstFit(bs, BlockSizeFor(n));
      if k < |bs| { PlacedTiles(bs, limit, k, BlockSizeFor(n)); }
    case Free(k) =>
      FreedWellFormed(bs, limit, k);
  }

  /** Whatever is called, every list of a run tiles the arena and has no two free neighbours. */
  lemma {:induction false} RunWellFormed(trace: seq<seq<Block>>, limit: nat, i: nat)
    requires Run(trace, limit) && i < |trace|
    ensures WellFormed(trace[i], limit)
  {
    hide WellFormed, CanCall, Called;
    if i > 0 {
      RunWellFormed(trace, limit, i - 1);
      assert Step(trace[i - 1], trace[i]);
      var c: Call :| CanCall(trace[i - 1], c) && trace[i] == Called(trace[i - 1], c);
      CalledWellFormed(trace[i - 1], c, limit);
    }
  }

  /** No history leaves a trace in the free space: whenever the same blocks are live, the whole list is the same. */
  lemma NoFragmentationMemory(trace: seq<seq<Block>>, limit: nat, i: nat, j: nat)
    requires Run(trace, limit) && i < |trace| && j < |trace|
    requires Live(trace[i]) == Live(trace[j])
    ensures trace[i] == trace[j]
  {
    hide Run, WellFormed, Live;
    RunWellFormed(trace, limit, i);
    RunWellFormed(trace, limit, j);
    Canonical(trace[i], trace[j], limit);
  }

  /** What malloc promises determines its result: it is the split of the first fitting block. */
  lemma MallocIsPlaced(bs: seq<Block>, n: Word, bs': seq<Block>, r: nat, limit: nat)
    requires WellFormed(bs, limit) && 0 < n <= MAX_REQUEST
    requires MallocStep(bs, n, bs', r, limit)
    ensures bs' == Called(bs, Malloc(n))
    ensures r == NULL <==> FirstFit(bs, BlockSizeFor(n)) == |bs|
  {
    hide Tiles;
    var k := FirstFit(bs, BlockSizeFor(n));
    if k < |bs| {
      PlacedTiles(bs, limit, k, BlockSizeFor(n));
      PlacedLive(bs, limit, k, BlockSizeFor(n));
      Canonical(bs', Placed(bs, k, BlockSizeFor(n)), limit);
    }
  }

  /** What free promises determines its result: the block with its free neighbours is one free block. */
  lemma FreeIsFreed(bs: seq<Block>, b: Block, bs': seq<Block>, limit: nat) returns (k: nat)
    requires WellFormed(bs, limit) && FreeStep(bs, b, bs', limit)
    ensures k < |bs| && bs[k] == b && b.used
    ensures bs' == Called(bs, Free(k))
  {
    hide Tiles, Coalesced, Freed;
    k :| 0 <= k < |bs| && bs[k] == b;
    FreedWellFormed(bs, limit, k);
    Canonical(bs', Freed(bs, k), limit);
  }

  /** The contracts of Malloc and Free are steps of a run. */
  lemma MallocIsStep(bs: seq<Block>, n: Word, bs': seq<Block>, r: nat, limit: nat)
    requires WellFormed(bs, limit) && 0 < n <= MAX_REQUEST
    requires MallocStep(bs, n, bs', r, limit)
    ensures Step(bs, bs')
  {
    hide WellFormed, MallocStep, Called;
    MallocIsPlaced(bs, n, bs', r, limit);
    assert CanCall(bs, Malloc(n));
  }

  lemma FreeIsStep(bs: seq<Block>, b: Block, bs': seq<Block>, limit: nat)
    requires WellFormed(bs, limit) && FreeStep(bs, b, bs', limit)
    ensures Step(bs, bs')
  {
    hide WellFormed, FreeStep, Called;
    var k := FreeIsFreed(bs, b, bs', limit);
    assert CanCall(bs, Free(k));
  }

  /** The blocks of order are freed one after the other, leading from bs to bs'. */
  ghost predicate FreesInOrder(bs: seq<Block>, order: seq<Block>, bs': seq<Block>)
    decreases |order|
  {
    if order == [] then bs' == bs
    else exists k: nat :: k < |bs| && bs[k] == order[0] && bs[k].used && FreesInOrder(Freed(bs, k), order[1..], bs')
  }

  lemma {:induction false} FreesLeave(bs: seq<Block>, order: seq<Block>, bs': seq<Block>, limit: nat)
    requires WellFormed(bs, limit) && FreesInOrder(bs, order, bs')
    ensures WellFormed(bs', limit)
    ensures Live(bs') == Live(bs) - (set b | b in order)
    decreases |order|
  {
    hide Tiles, Live, Freed, Coalesced;
    if order != [] {
      var k: nat :| k < |bs| && bs[k] == order[0] && bs[k].used && FreesInOrder(Freed(bs, k), order[1..], bs');
      FreedWellFormed(bs, limit, k);
      FreesLeave(Freed(bs, k), order[1..], bs', limit);
      assert (set b | b in order) == {order[0]} + (set b | b in order[1..]) by {
        assert order == [order[0]] + order[1..];
      }
    }
  }

  ghost predicate NoDuplicates(order: seq<Block>) {
    forall i, j :: 0 <= i < j < |order| ==> order[i] != order[j]
  }

  /** Live blocks can be freed in any order. */
  lemma {:induction false} AnyOrderFrees(bs: seq<Block>, order: seq<Block>, limit: nat) returns (bs': seq<Block>)
    requires WellFormed(bs, limit) && NoDuplicates(order) && forall b :: b in order ==> b in Live(bs)
    ensures FreesInOrder(bs, order, bs')
    decreases |order|
  {
    hide Tiles, Freed, Coalesced;
    if order == [] {
      bs' := bs;
    } else {
      assert order[0] in Live(bs);
      var k: nat :| k < |bs| && bs[k] == order[0] && bs[k].used;
      FreedWellFormed(bs, limit, k);
      forall b | b in order[1..] ensures b in Live(Freed(bs, k)) {
        var i :| 0 <= i < |order[1..]| && order[1..][i] == b;
        assert b == order[i + 1] != order[0];
        assert b in Live(bs);
      }
      bs' := AnyOrderFrees(Freed(bs, k), order[1..], limit);
    }
  }

  /** No block can be freed twice. */
  lemma {:induction false} FreesOnce(bs: seq<Block>, order: seq<Block>, bs': seq<Block>, limit: nat)
    requires WellFormed(bs, limit) && FreesInOrder(bs, order, bs')
    ensures NoDuplicates(order) && forall b :: b in order ==> b in Live(bs)
    decreases |order|
  {
    hide Tiles, Freed, Coalesced;
    if order != [] {
      var k: nat :| k < |bs| && bs[k] == order[0] && bs[k].used && FreesInOrder(Freed(bs, k), order[1..], bs');
      FreedWellFormed(bs, limit, k);
      FreesOnce(Freed(bs, k), order[1..], bs', limit);
      forall i | 0 < i < |order| ensures order[i] in Live(bs) && order[i] != order[0] {
        assert order[1..][i - 1] in Live(Freed(bs, k));
      }
      forall i, j | 0 <= i < j < |order| ensures order[i] != order[j] {
        if i > 0 { assert order[1..][i - 1] != order[1..][j - 1]; }
      }
    }
  }

  /** The live blocks can be freed in any order that has each of them once, and in no other, and that leaves the single
      block of init_heap. */
  lemma DrainRestoresInit(bs: seq<Block>, order: seq<Block>, bs': seq<Block>, limit: nat)
    requires limit % 8 == 0 && limit >= 3 * DSIZE
    requires WellFormed(bs, limit) && Live(bs) == set b | b in order
    ensures FreesInOrder(bs, order, bs') <==> NoDuplicates(order) && bs' == Fresh(limit)
  {
    hide WellFormed, FreesInOrder, Live, NoDuplicates;
    FreshWellFormed(limit);
    forall any | FreesInOrder(bs, order, any) ensures NoDuplicates(order) && any == Fresh(limit) {
      FreesOnce(bs, order, any, limit);
      FreesLeave(bs, order, any, limit);
      Canonical(any, Fresh(limit), limit);
    }
    if NoDuplicates(order) { var last := AnyOrderFrees(bs, order, limit); }
  }

  /** Nothing was freed yet: one free block of s bytes above live ones. */
  ghost predicate OneHole(bs: seq<Block>, s: nat) {
    && |bs| > 0
    && bs[|bs| - 1].size == s && !bs[|bs| - 1].used
    && forall i :: 0 <= i < |bs| - 1 ==> bs[i].used
  }

  lemma OneHoleMalloc(bs: seq<Block>, n: Word, bs': seq<Block>, r: nat, limit: nat, s: nat)
    requires WellFormed(bs, limit) && 0 < n <= MAX_REQUEST && OneHole(bs, s)
    requires MallocStep(bs, n, bs', r, limit) && s > BlockSizeFor(n) + DSIZE
    ensures r != NULL && OneHole(bs', s - BlockSizeFor(n))
  {
    hide Tiles;
    FirstFitIs(bs, BlockSizeFor(n), |bs| - 1);
    MallocIsPlaced(bs, n, bs', r, limit);
  }

  lemma LiveAligned(bs: seq<Block>, limit: nat, b: Block)
    requires Tiles(bs, limit) && b in Live(bs)
    ensures b.addr % 8 == 0 && b.End() <= limit
  {
    hide Tiles;
    var i :| 0 <= i < |bs| && bs[i] == b;
    Spread(bs, limit, i, i);
  }

  /** A store into one payload leaves the payloads of the other blocks. */
  lemma StoreKeepsOthers(m: seq<Word>, m': seq<Word>, bs: seq<Block>, limit: nat, g: Block, b: Block, p: nat)
    requires Tiles(bs, limit) && g in Live(bs) && b in Live(bs) && b != g
    requires g.Payload() <= p < g.End()
    requires forall q :: q % 4 == 0 && q != p ==> At(m', q) == At(m, q)
    ensures SamePayload(m, m', b)
  {
    hide At, Tiles;
    LiveDisjoint(bs, limit, b, g);
  }

  /** What malloc leaves behind for a request whose size wraps around. Either the block it found is still marked free
      and has lost its back tag; or it has 16 bytes and is handed out for its 8 bytes of payload; or a block of 8 bytes
      is marked as used, and the pointer returned leads to the header of the free block behind it. */
  lemma WrappedStores(m: seq<Word>, m': seq<Word>, bs: seq<Block>, limit: nat, n: Word, k: nat)
    requires WellFormed(bs, limit) && n > MAX_REQUEST && k == FirstFit(bs, BlockSizeFor(n)) < |bs|
    requires Patched(m, m', PlaceStores(bs, k, BlockSizeFor(n)))
    ensures var p, size := bs[k].addr, bs[k].size;
            if n < TWO32 - 7 then At(m', p) == size && At(m', p + WSIZE) == 0
            else if size == 2 * DSIZE then At(m', p) == size + 1
            else At(m', p) == DSIZE + 1 && At(m', bs[k].Payload()) == size - DSIZE
  {
    hide Tiles, Patched, At, BlockSizeFor, Coalesced, FirstFit, PlaceStores;
    var p, ps := bs[k].addr, PlaceStores(bs, k, BlockSizeFor(n));
    Spread(bs, limit, k, k);
    Aligned(p, DSIZE);
    WrappedSize(n);
    WrappedAt(bs, limit, k, BlockSizeFor(n));
    Overwritten(m, m', ps, p);
    Overwritten(m, m', ps, p + WSIZE);
    Overwritten(m, m', ps, p + DSIZE);
  }

  /** The stores of a placement of no size, or of a header only. */
  lemma WrappedAt(bs: seq<Block>, limit: nat, k: nat, need: nat)
    requires Tiles(bs, limit) && k < |bs| && (need == 0 || need == DSIZE)
    ensures need <= bs[k].size
    ensures var p, size, ps := bs[k].addr, bs[k].size, PlaceStores(bs, k, need);
            && p in ps
            && if need == 0 then ps[p] == size && p + WSIZE in ps && ps[p + WSIZE] == 0
               else if size == 2 * DSIZE then ps[p] == size + 1
               else ps[p] == DSIZE + 1 && p + DSIZE in ps && ps[p + DSIZE] == size - DSIZE
  {
    hide Tiles;
    Spread(bs, limit, k, k);
    if k + 1 < |bs| { Spread(bs, limit, k, k + 1); }
  }

  lemma WrappedSize(n: Word)
    requires n > MAX_REQUEST
    ensures BlockSizeFor(n) == if n < TWO32 - 7 then 0 else DSIZE
  {
  }

  /** A request of 2^32 - 1 bytes on a new heap of 32 bytes: what comes back is the address of the header of the block
      that is still free. m is the memory before the call. */
  method WrappedRequest() returns (heap: Arena, r: nat, ghost m: seq<Word>)
    ensures heap.mem.Length == 8 && Encodes(m, Fresh(32))
    ensures Patched(m, heap.mem[..], PlaceStores(Fresh(32), 0, BlockSizeFor(0xFFFF_FFFF)))
    ensures r == 16 && heap.GetW(8) == 9 && heap.GetW(r) == 16
  {
    hide Tiles, Encodes, Patched, PlaceStores;
    heap := new Arena(8);
    m := heap.mem[..];
    FirstFitIs(Fresh(32), BlockSizeFor(0xFFFF_FFFF), 0);
    r := heap.Malloc(0xFFFF_FFFF);
    FreshWellFormed(32);
    WrappedStores(m, heap.mem[..], Fresh(32), 32, 0xFFFF_FFFF, 0);
  }
}
