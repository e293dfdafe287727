/** The block list of the boundary-tag heap, as values: what a tiling of the arena is, which part of it the callers own,
    and why the rest is then determined. */
module Tiling {

  const WSIZE: nat := 4
  const DSIZE: nat := 8
  const NULL: nat := 0

  /** One block: the byte address of its header, its size with the header, and its allocation bit. */
  datatype Block = Block(addr: nat, size: nat, used: bool) {
    function End(): nat { addr + size }
    function Payload(): nat { addr + DSIZE }
  }

  /** The blocks lie end to end from the base pointer to the end of the arena. */
  ghost predicate Tiles(bs: seq<Block>, limit: nat) {
    && |bs| > 0
    && bs[0].addr == DSIZE
    && bs[|bs| - 1].End() == limit
    && (forall i, j :: 0 <= i && j == i + 1 && j < |bs| ==> bs[i].End() == bs[j].addr)
    && (forall i :: 0 <= i < |bs| ==> bs[i].addr % 8 == 0 && bs[i].size % 8 == 0 && bs[i].size >= 2 * DSIZE)
  }

  /** No two neighbours are both free. */
  ghost predicate Coalesced(bs: seq<Block>) {
    forall i, j :: 0 <= i && j == i + 1 && j < |bs| ==> bs[i].used || bs[j].used
  }

  ghost predicate WellFormed(bs: seq<Block>, limit: nat) {
    Tiles(bs, limit) && Coalesced(bs)
  }

  /** The blocks that callers hold. */
  ghost function Live(bs: seq<Block>): set<Block> {
    set b | b in bs && b.used
  }

  lemma {:induction false} InOrder(bs: seq<Block>, limit: nat, i: nat, j: nat)
    requires Tiles(bs, limit)
    requires i < j < |bs|
    ensures bs[i].End() <= bs[j].addr
    decreases j - i
  {
    if i + 1 < j {
      InOrder(bs, limit, i, j - 1);
      assert bs[j - 1].End() == bs[j].addr;
    }
  }

  lemma {:induction false} InsideArena(bs: seq<Block>, limit: nat, i: nat)
    requires Tiles(bs, limit)
    requires i < |bs|
    ensures DSIZE <= bs[i].addr && bs[i].End() <= limit
  {
    if i > 0 { InOrder(bs, limit, 0, i); }
    if i < |bs| - 1 { InOrder(bs, limit, i, |bs| - 1); }
  }

  /** Distinct blocks never overlap. */
  lemma LiveDisjoint(bs: seq<Block>, limit: nat, b: Block, c: Block)
    requires Tiles(bs, limit)
    requires b in bs && c in bs && b != c
    ensures b.End() <= c.addr || c.End() <= b.addr
  {
    var i :| 0 <= i < |bs| && bs[i] == b;
    var j :| 0 <= j < |bs| && bs[j] == c;
    if i < j { InOrder(bs, limit, i, j); } else { InOrder(bs, limit, j, i); }
  }

  lemma SameAddrSameIndex(bs: seq<Block>, limit: nat, i: nat, j: nat)
    requires Tiles(bs, limit)
    requires i < |bs| && j < |bs| && bs[i].addr == bs[j].addr
    ensures i == j
  {
    if i < j { InOrder(bs, limit, i, j); } else if j < i { InOrder(bs, limit, j, i); }
  }

  /** A free block of one list cannot end later than a free block of the other that starts with it. */
  lemma FreeEndsNoLater(xs: seq<Block>, ys: seq<Block>, limit: nat, i: nat)
    requires WellFormed(xs, limit) && WellFormed(ys, limit)
    requires Live(xs) == Live(ys)
    requires i < |xs| && i < |ys| && xs[i].addr == ys[i].addr
    requires !xs[i].used && !ys[i].used
    ensures ys[i].End() <= xs[i].End()
  {
    InsideArena(ys, limit, i);
    if i + 1 < |xs| {
      var next := xs[i + 1];
      assert next.used;
      assert next in Live(xs);
      var j :| 0 <= j < |ys| && ys[j] == next;
      if j < i { InOrder(ys, limit, j, i); }
      if i < j { InOrder(ys, limit, i, j); }
    }
  }

  /** Two lists that agree below index i agree at index i. */
  lemma SameAt(xs: seq<Block>, ys: seq<Block>, limit: nat, i: nat)
    requires WellFormed(xs, limit) && WellFormed(ys, limit)
    requires Live(xs) == Live(ys)
    requires i < |xs| && i < |ys| && xs[i].addr == ys[i].addr
    ensures xs[i] == ys[i]
  {
    if xs[i].used {
      assert xs[i] in Live(ys);
      var j :| 0 <= j < |ys| && ys[j] == xs[i];
      SameAddrSameIndex(ys, limit, i, j);
    } else if ys[i].used {
      assert ys[i] in Live(xs);
      var j :| 0 <= j < |xs| && xs[j] == ys[i];
      SameAddrSameIndex(xs, limit, i, j);
    } else {
      FreeEndsNoLater(xs, ys, limit, i);
      FreeEndsNoLater(ys, xs, limit, i);
    }
  }

  lemma {:induction false} SamePrefix(xs: seq<Block>, ys: seq<Block>, limit: nat, n: nat)
    requires WellFormed(xs, limit) && WellFormed(ys, limit)
    requires Live(xs) == Live(ys)
    requires n <= |xs| && n <= |ys|
    ensures xs[..n] == ys[..n]
  {
    if n > 0 {
      SamePrefix(xs, ys, limit, n - 1);
      if n > 1 {
        assert xs[n - 2] == xs[..n - 1][n - 2] == ys[..n - 1][n - 2] == ys[n - 2];
      }
      SameAt(xs, ys, limit, n - 1);
      assert xs[..n] == xs[..n - 1] + [xs[n - 1]];
      assert ys[..n] == ys[..n - 1] + [ys[n - 1]];
    }
  }

  lemma NotLonger(xs: seq<Block>, ys: seq<Block>, limit: nat)
    requires WellFormed(xs, limit) && WellFormed(ys, limit)
    requires Live(xs) == Live(ys)
    ensures |xs| <= |ys|
  {
    if |ys| < |xs| {
      var n := |ys|;
      SamePrefix(xs, ys, limit, n);
      assert xs[n - 1] == xs[..n][n - 1] == ys[..n][n - 1] == ys[n - 1];
      InOrder(xs, limit, n - 1, n);
      InsideArena(xs, limit, n);
      assert false;
    }
  }

  /** The block list is a function of what the callers hold: free space has one shape. */
  lemma Canonical(xs: seq<Block>, ys: seq<Block>, limit: nat)
    requires WellFormed(xs, limit) && WellFormed(ys, limit)
    requires Live(xs) == Live(ys)
    ensures xs == ys
  {
    NotLonger(xs, ys, limit);
    NotLonger(ys, xs, limit);
    SamePrefix(xs, ys, limit, |xs|);
    assert xs == xs[..|xs|] == ys[..|ys|] == ys;
  }

  /** The list that init_heap sets up. */
  function Fresh(limit: nat): seq<Block>
    requires limit >= DSIZE
  {
    [Block(DSIZE, limit - DSIZE, false)]
  }

  lemma FreshWellFormed(limit: nat)
    requires limit % 8 == 0 && limit >= 3 * DSIZE
    ensures WellFormed(Fresh(limit), limit) && Live(Fresh(limit)) == {}
  {
  }

  // ---------------------------------------------------------------- first fit

  /** Index of the lowest-addressed free block of at least need bytes, or |bs|. */
  function FirstFit(bs: seq<Block>, need: nat): (k: nat)
    ensures k <= |bs|
    ensures k < |bs| ==> !bs[k].used && bs[k].size >= need
    ensures forall i :: 0 <= i < k ==> bs[i].used || bs[i].size < need
  {
    if bs == [] then 0
    else if !bs[0].used && bs[0].size >= need then 0
    else
      var k := FirstFit(bs[1..], need);
      assert forall i :: 0 < i < k + 1 ==> bs[i] == bs[1..][i - 1];
      k + 1
  }

  lemma FirstFitIs(bs: seq<Block>, need: nat, k: nat)
    requires k <= |bs|
    requires k < |bs| ==> !bs[k].used && bs[k].size >= need
    requires forall i :: 0 <= i < k ==> bs[i].used || bs[i].size < need
    ensures FirstFit(bs, need) == k
  {
  }

  // ---------------------------------------------------------------- list surgery

  /** Allocate need bytes of the free block k: whole if too little would be left, else split. */
  function Placed(bs: seq<Block>, k: nat, need: nat): seq<Block>
    requires k < |bs| && need <= bs[k].size
  {
    if bs[k].size - need <= DSIZE then bs[k := bs[k].(used := true)]
    else bs[..k] + [Block(bs[k].addr, need, true), Block(bs[k].addr + need, bs[k].size - need, false)] + bs[k + 1..]
  }

  /** The block that Placed hands out. */
  function Granted(b: Block, need: nat): Block
    requires need <= b.size
  {
    if b.size - need <= DSIZE then b.(used := true) else Block(b.addr, need, true)
  }

  /** Replace blocks k and k+1 by one free block. */
  function Merged(bs: seq<Block>, k: nat): seq<Block>
    requires k + 1 < |bs|
  {
    bs[..k] + [Block(bs[k].addr, bs[k].size + bs[k + 1].size, false)] + bs[k + 2..]
  }

  lemma PlacedIndex(bs: seq<Block>, k: nat, need: nat, i: nat)
    requires k < |bs| && need <= bs[k].size && bs[k].size - need > DSIZE
    requires i < |bs| + 1
    ensures |Placed(bs, k, need)| == |bs| + 1
    ensures Placed(bs, k, need)[i] ==
            if i < k then bs[i]
            else if i == k then Block(bs[k].addr, need, true)
            else if i == k + 1 then Block(bs[k].addr + need, bs[k].size - need, false)
            else bs[i - 1]
  {
  }

  lemma PlacedTiles(bs: seq<Block>, limit: nat, k: nat, need: nat)
    requires WellFormed(bs, limit)
    requires k < |bs| && !bs[k].used && need <= bs[k].size
    requires need % 8 == 0 && need >= 2 * DSIZE
    ensures WellFormed(Placed(bs, k, need), limit)
  {
    var cs := Placed(bs, k, need);
    if bs[k].size - need > DSIZE {
      forall i | 0 <= i < |cs|
        ensures cs[i].addr % 8 == 0 && cs[i].size % 8 == 0 && cs[i].size >= 2 * DSIZE
      {
        PlacedIndex(bs, k, need, i);
      }
      forall i, j | 0 <= i && j == i + 1 && j < |cs|
        ensures cs[i].End() == cs[j].addr && (cs[i].used || cs[j].used)
      {
        PlacedIndex(bs, k, need, i);
        PlacedIndex(bs, k, need, j);
      }
    }
  }

  lemma PlacedLive(bs: seq<Block>, limit: nat, k: nat, need: nat)
    requires WellFormed(bs, limit)
    requires k < |bs| && !bs[k].used && need <= bs[k].size
    ensures Live(Placed(bs, k, need)) == Live(bs) + {Granted(bs[k], need)}
    ensures Granted(bs[k], need) !in Live(bs)
  {
    var cs := Placed(bs, k, need);
    var g := Granted(bs[k], need);
    if g in Live(bs) {
      var j :| 0 <= j < |bs| && bs[j] == g;
      SameAddrSameIndex(bs, limit, j, k);
      assert false;
    }
    assert cs[k] == g;
    forall b | b in Live(bs) + {g} ensures b in Live(cs) {
      if b in Live(bs) {
        var j :| 0 <= j < |bs| && bs[j] == b;
        assert j != k;
        if bs[k].size - need <= DSIZE { assert cs[j] == b; }
        else if j < k { assert cs[j] == b; }
        else { assert cs[j + 1] == b; }
      }
    }
    forall b | b in Live(cs) ensures b in Live(bs) + {g} {
      var i :| 0 <= i < |cs| && cs[i] == b;
      if bs[k].size - need > DSIZE { PlacedIndex(bs, k, need, i); }
    }
  }

  lemma MergedIndex(bs: seq<Block>, k: nat, i: nat)
    requires k + 1 < |bs| && i < |bs| - 1
    ensures |Merged(bs, k)| == |bs| - 1
    ensures Merged(bs, k)[i] ==
            if i < k then bs[i]
            else if i == k then Block(bs[k].addr, bs[k].size + bs[k + 1].size, false)
            else bs[i + 1]
  {
  }

  lemma MergedTiles(bs: seq<Block>, limit: nat, k: nat)
    requires Tiles(bs, limit) && k + 1 < |bs|
    ensures Tiles(Merged(bs, k), limit)
  {
    var cs := Merged(bs, k);
    forall i | 0 <= i < |cs|
      ensures cs[i].addr % 8 == 0 && cs[i].size % 8 == 0 && cs[i].size >= 2 * DSIZE
    {
      MergedIndex(bs, k, i);
    }
    forall i, j | 0 <= i && j == i + 1 && j < |cs|
      ensures cs[i].End() == cs[j].addr
    {
      MergedIndex(bs, k, i);
      MergedIndex(bs, k, j);
      assert bs[k].End() == bs[k + 1].addr;
    }
  }

  lemma MergedLive(bs: seq<Block>, k: nat)
    requires k + 1 < |bs| && !bs[k].used && !bs[k + 1].used
    ensures Live(Merged(bs, k)) == Live(bs)
  {
    var cs := Merged(bs, k);
    forall b | b in Live(bs) ensures b in Live(cs) {
      var j :| 0 <= j < |bs| && bs[j] == b;
      if j < k { assert cs[j] == b; } else { assert cs[j - 1] == b; }
    }
    forall b | b in Live(cs) ensures b in Live(bs) {
      var i :| 0 <= i < |cs| && cs[i] == b;
      MergedIndex(bs, k, i);
    }
  }

  lemma UnmarkedLive(bs: seq<Block>, limit: nat, k: nat)
    requires Tiles(bs, limit)
    requires k < |bs| && bs[k].used
    ensures Live(bs[k := bs[k].(used := false)]) == Live(bs) - {bs[k]}
  {
    var cs := bs[k := bs[k].(used := false)];
    forall b | b in Live(bs) && b != bs[k] ensures b in Live(cs) {
      var j :| 0 <= j < |bs| && bs[j] == b;
      assert cs[j] == b;
    }
    forall b | b in Live(cs) ensures b in Live(bs) && b != bs[k] {
      var i :| 0 <= i < |cs| && cs[i] == b;
      if b == bs[k] { SameAddrSameIndex(bs, limit, i, k); }
    }
  }

  /** Free block k, absorbing a free upper neighbour. */
  function FreedUp(bs: seq<Block>, k: nat): seq<Block>
    requires k < |bs|
  {
    if k + 1 < |bs| && !bs[k + 1].used then Merged(bs, k) else bs[k := bs[k].(used := false)]
  }

  /** Free block k: absorb a free upper neighbour, then be absorbed by a free lower one. */
  function Freed(bs: seq<Block>, k: nat): seq<Block>
    requires k < |bs|
  {
    var cs := FreedUp(bs, k);
    if k > 0 && !bs[k - 1].used && k < |cs| then Merged(cs, k - 1) else cs
  }

  lemma Neighbours(bs: seq<Block>, i: nat)
    requires Coalesced(bs) && i + 1 < |bs|
    ensures bs[i].used || bs[i + 1].used
  {
  }

  lemma FreedUpIndex(bs: seq<Block>, k: nat, i: nat)
    requires k < |bs| && i < |FreedUp(bs, k)|
    ensures |FreedUp(bs, k)| == if k + 1 < |bs| && !bs[k + 1].used then |bs| - 1 else |bs|
    ensures i < k ==> FreedUp(bs, k)[i] == bs[i]
    ensures i == k ==> !FreedUp(bs, k)[k].used && FreedUp(bs, k)[k].addr == bs[k].addr
    ensures i > k ==> FreedUp(bs, k)[i] == if k + 1 < |bs| && !bs[k + 1].used then bs[i + 1] else bs[i]
  {
    if k + 1 < |bs| && !bs[k + 1].used { MergedIndex(bs, k, i); }
  }

  lemma FreedUpTiles(bs: seq<Block>, limit: nat, k: nat)
    requires WellFormed(bs, limit) && k < |bs| && bs[k].used
    ensures Tiles(FreedUp(bs, k), limit)
    ensures Live(FreedUp(bs, k)) == Live(bs) - {bs[k]}
  {
    var us := bs[k := bs[k].(used := false)];
    UnmarkedLive(bs, limit, k);
    if k + 1 < |bs| && !bs[k + 1].used {
      MergedTiles(bs, limit, k);
      assert Merged(bs, k) == Merged(us, k);
      MergedLive(us, k);
    }
  }

  /** Above the freed block everything is as before, so only the lower neighbour can clash. */
  lemma FreedUpCoalesced(bs: seq<Block>, limit: nat, k: nat, i: nat)
    requires WellFormed(bs, limit) && k < |bs| && bs[k].used
    requires i + 1 < |FreedUp(bs, k)| && i + 1 != k
    ensures FreedUp(bs, k)[i].used || FreedUp(bs, k)[i + 1].used
  {
    hide FreedUp, Tiles;
    FreedUpIndex(bs, k, i);
    FreedUpIndex(bs, k, i + 1);
    if i + 2 < |bs| { Neighbours(bs, i + 1); }
    Neighbours(bs, i);
  }

  lemma FreedWellFormed(bs: seq<Block>, limit: nat, k: nat)
    requires WellFormed(bs, limit) && k < |bs| && bs[k].used
    ensures WellFormed(Freed(bs, k), limit)
    ensures Live(Freed(bs, k)) == Live(bs) - {bs[k]}
  {
    hide FreedUp, Merged, Tiles;
    var cs := FreedUp(bs, k);
    FreedUpTiles(bs, limit, k);
    assert |cs| > 0 by { assert Tiles(cs, limit); FreedUpNonEmpty(bs, k); }
    FreedUpIndex(bs, k, 0);
    FreedUpIndex(bs, k, k);
    if k > 0 && !bs[k - 1].used {
      FreedUpIndex(bs, k, k - 1);
      MergedTiles(cs, limit, k - 1);
      MergedLive(cs, k - 1);
      var ds := Merged(cs, k - 1);
      forall i, j | 0 <= i && j == i + 1 && j < |ds|
        ensures ds[i].used || ds[j].used
      {
        FreedDownCoalesced(bs, limit, k, i);
      }
    } else {
      forall i, j | 0 <= i && j == i + 1 && j < |cs| ensures cs[i].used || cs[j].used {
        if j == k { FreedUpIndex(bs, k, i); } else { FreedUpCoalesced(bs, limit, k, i); }
      }
    }
  }

  lemma FreedUpNonEmpty(bs: seq<Block>, k: nat)
    requires k < |bs|
    ensures k < |FreedUp(bs, k)|
  {
  }

  lemma FreedDownCoalesced(bs: seq<Block>, limit: nat, k: nat, i: nat)
    requires WellFormed(bs, limit) && 0 < k < |bs| && bs[k].used && !bs[k - 1].used
    requires k < |FreedUp(bs, k)|
    requires i + 1 < |Merged(FreedUp(bs, k), k - 1)|
    ensures Merged(FreedUp(bs, k), k - 1)[i].used || Merged(FreedUp(bs, k), k - 1)[i + 1].used
  {
    hide FreedUp, Merged, Tiles;
    var cs := FreedUp(bs, k);
    FreedUpIndex(bs, k, k);
    MergedIndex(cs, k - 1, 0);
    MergedIndex(cs, k - 1, i);
    MergedIndex(cs, k - 1, i + 1);
    if i + 1 < k - 1 {
      FreedUpIndex(bs, k, i);
      FreedUpIndex(bs, k, i + 1);
      Neighbours(bs, i);
    } else if i + 1 == k - 1 {
      FreedUpIndex(bs, k, i);
      Neighbours(bs, i);
    } else if i == k - 1 {
      assert cs[k].used || cs[k + 1].used by { FreedUpCoalesced(bs, limit, k, k); }
    } else {
      FreedUpCoalesced(bs, limit, k, i + 1);
    }
  }
}
