/** What an unlink loses count of: the directory blocks it drops, exactly. */
module Losses {
  import opened Options
  import opened Disk
  import opened Moves
  import opened FileData
  import FileSteps
  import opened Directory
  import opened DirTree
  import opened DirShrink
  import Ledgers
  import Create
  import opened Unlinking
  import opened CreateUnlink
  import ClearInode

  /** A leaf that is dropped if it lies in the part that is cleared. */
  predicate Lone(l: Leaf) { l.Some? && Count(l.value) == 1 }

  /** How many of the leaves lo..hi have exactly one entry in use. */
  function Singles(t: DirTable, lo: nat, hi: nat): nat
    requires hi <= LEAVES
    decreases hi
  {
    if hi <= lo then 0 else (if Lone(t[hi - 1]) then 1 else 0) + Singles(t, lo, hi - 1)
  }

  /** The blocks that unlinking name c takes from its directory. */
  function Lost(t: DirTable, c: string): nat {
    Singles(t, LevelLo(t, c), LevelHi(t, c)) + if SingleGoes(t, c) then 1 else 0
  }

  /** The condition that a caller can check beforehand: from the match to the end of its level no block has exactly
      one entry. */
  predicate NothingDropped(t: DirTable, c: string) {
    forall q :: LevelLo(t, c) <= q < LevelHi(t, c) && q < LEAVES && t[q].Some? ==> Count(t[q].value) != 1
  }

  lemma {:induction false} SinglesNone(t: DirTable, lo: nat, hi: nat)
    requires hi <= LEAVES
    ensures Singles(t, lo, hi) == 0 <==> forall q :: lo <= q < hi && t[q].Some? ==> Count(t[q].value) != 1
    decreases hi
  {
    hide Count;
    if lo < hi { SinglesNone(t, lo, hi - 1); }
  }

  lemma LostNone(t: DirTable, c: string)
    ensures Lost(t, c) == 0 <==> NothingDropped(t, c)
  {
    hide Count, LevelLo, LevelHi, Present;
    LevelStart(t, c);
    SinglesNone(t, LevelLo(t, c), LevelHi(t, c));
    if SingleGoes(t, c) { GoesFirst(t, c); }
  }

  lemma GoesFirst(t: DirTable, c: string)
    requires SingleGoes(t, c)
    ensures LevelLo(t, c) < LevelHi(t, c) && t[LevelLo(t, c)].Some? && Count(t[LevelLo(t, c)].value) == 1
  {
    hide Count, Present, FirstWith;
  }

  // ---------------------------------------------------------------- the blocks

  /** The blocks of the leaves lo..hi that have exactly one entry in use. */
  ghost function LeafBlocks(d: Disk, dir: nat, lo: nat, hi: nat): set<nat>
    requires hi <= LEAVES
    decreases hi
  {
    if hi <= lo then {}
    else (if Lone(Table(d, dir)[hi - 1]) && PtrAt(d, dir, LeafSlot(hi - 1)).Some?
          then {PtrAt(d, dir, LeafSlot(hi - 1)).value} else {})
         + LeafBlocks(d, dir, lo, hi - 1)
  }

  lemma {:induction false} InLeafBlocks(d: Disk, dir: nat, lo: nat, hi: nat, b: nat)
    requires hi <= LEAVES
    ensures b in LeafBlocks(d, dir, lo, hi) <==>
            exists q :: lo <= q < hi && Lone(Table(d, dir)[q]) && PtrAt(d, dir, LeafSlot(q)) == Some(b)
    decreases hi
  {
    hide PtrAt, Table, LeafSlot, Lone;
    if lo < hi { InLeafBlocks(d, dir, lo, hi - 1, b); }
  }

  lemma {:induction false} LeafBlocksSize(d: Disk, dir: nat, lo: nat, hi: nat)
    requires Owned(d) && hi <= LEAVES
    ensures |LeafBlocks(d, dir, lo, hi)| == Singles(Table(d, dir), lo, hi)
    decreases hi
  {
    hide PtrAt, Table, LeafSlot, Owned, Lone;
    if lo < hi {
      LeafBlocksSize(d, dir, lo, hi - 1);
      LeafIsPtr(d, dir, hi - 1);
      assert Lone(Table(d, dir)[hi - 1]) ==> Table(d, dir)[hi - 1].Some? by { LoneSome(Table(d, dir)[hi - 1]); }
      if Lone(Table(d, dir)[hi - 1]) {
        var b := PtrAt(d, dir, LeafSlot(hi - 1)).value;
        InLeafBlocks(d, dir, lo, hi - 1, b);
        forall q | lo <= q < hi - 1 ensures PtrAt(d, dir, LeafSlot(q)) != Some(b) { OtherLeaf(d, dir, hi - 1, q); }
        PlusOne(LeafBlocks(d, dir, lo, hi - 1), b);
      }
    }
  }

  lemma LoneSome(l: Leaf)
    ensures Lone(l) ==> l.Some?
  {
  }

  lemma PlusOne(s: set<nat>, b: nat)
    requires b !in s
    ensures |{b} + s| == 1 + |s|
  {
    assert {b} + s == s + {b};
  }

  lemma OtherLeaf(d: Disk, dir: nat, p: nat, q: nat)
    requires Owned(d) && p < LEAVES && q < LEAVES && p != q && PtrAt(d, dir, LeafSlot(p)).Some?
    ensures PtrAt(d, dir, LeafSlot(q)) != PtrAt(d, dir, LeafSlot(p))
  {
    hide PtrAt, LeafSlot, Owned;
    if PtrAt(d, dir, LeafSlot(q)) == PtrAt(d, dir, LeafSlot(p)) {
      NoSharing(d, Place(dir, LeafSlot(p)), Place(dir, LeafSlot(q)));
      LeafSlotInjective(p, q);
    }
  }

  ghost function IndexBlocks(d: Disk, dir: nat, c: string): set<nat> {
    if SingleGoes(Table(d, dir), c) && PtrAt(d, dir, SingleIx).Some? then {PtrAt(d, dir, SingleIx).value} else {}
  }

  ghost function LostBlocks(d: Disk, dir: nat, c: string): set<nat> {
    var t := Table(d, dir);
    LevelStart(t, c);
    LeafBlocks(d, dir, LevelLo(t, c), LevelHi(t, c)) + IndexBlocks(d, dir, c)
  }

  lemma LostSize(d: Disk, dir: nat, c: string)
    requires Owned(d)
    ensures |LostBlocks(d, dir, c)| == Lost(Table(d, dir), c)
  {
    hide PtrAt, Table, LeafSlot, Count, Owned, LevelLo, LevelHi, SingleGoes, LeafBlocks, Singles;
    var t := Table(d, dir);
    LevelStart(t, c);
    LeafBlocksSize(d, dir, LevelLo(t, c), LevelHi(t, c));
    if SingleGoes(t, c) {
      GoesPtr(d, dir, c);
      var b := PtrAt(d, dir, SingleIx).value;
      InLeafBlocks(d, dir, LevelLo(t, c), LevelHi(t, c), b);
      forall q | 0 <= q < LEAVES ensures PtrAt(d, dir, LeafSlot(q)) != Some(b) { NotAnIndex(d, dir, q); }
    }
  }

  lemma GoesPtr(d: Disk, dir: nat, c: string)
    requires SingleGoes(Table(d, dir), c)
    ensures PtrAt(d, dir, SingleIx).Some?
  {
    hide PtrAt, Table, FirstWith, Count, Present;
    LeafNeedsSingle(d, dir, FirstWith(Table(d, dir), c, DIRECT, FIRST_ROW));
  }

  lemma NotAnIndex(d: Disk, dir: nat, q: nat)
    requires Owned(d) && q < LEAVES && PtrAt(d, dir, SingleIx).Some?
    ensures PtrAt(d, dir, LeafSlot(q)) != PtrAt(d, dir, SingleIx)
  {
    hide PtrAt, Owned;
    if PtrAt(d, dir, LeafSlot(q)) == PtrAt(d, dir, SingleIx) {
      NoSharing(d, Place(dir, LeafSlot(q)), Place(dir, SingleIx));
    }
  }

  lemma InLost(d: Disk, dir: nat, c: string, b: nat)
    requires Owned(d)
    ensures b in LostBlocks(d, dir, c) ==> b in d.owner && d.owner[b].ino == dir
    ensures var t := Table(d, dir);
            b in LostBlocks(d, dir, c) <==>
              || (exists q ::
                    LevelLo(t, c) <= q < LevelHi(t, c) && q < LEAVES && Lone(t[q])
                    && PtrAt(d, dir, LeafSlot(q)) == Some(b))
              || (SingleGoes(t, c) && PtrAt(d, dir, SingleIx) == Some(b))
  {
    hide PtrAt, Table, LeafSlot, Count, Owned, LevelLo, LevelHi, SingleGoes, LeafBlocks, Lone;
    var t := Table(d, dir);
    LevelStart(t, c);
    InLeafBlocks(d, dir, LevelLo(t, c), LevelHi(t, c), b);
    if q :| LevelLo(t, c) <= q < LevelHi(t, c) && Lone(t[q]) && PtrAt(d, dir, LeafSlot(q)) == Some(b) {
      OwnerOf(d, dir, LeafSlot(q));
    }
    if PtrAt(d, dir, SingleIx) == Some(b) { OwnerOf(d, dir, SingleIx); }
  }

  // ---------------------------------------------------------------- what is still owned

  /** A pointer of the directory is gone exactly if its block is lost. */
  lemma GoneIff(d: Disk, d': Disk, dir: nat, c: string, x: nat, s: Slot, b: nat)
    requires Owned(d) && Unlinked(d, d', dir, c, x) && PtrAt(d, dir, s) == Some(b) && ValidSlot(s)
    ensures PtrAt(d', dir, s) == None <==> b in LostBlocks(d, dir, c)
  {
    hide PtrAt, Table, LeafSlot, Count, Owned, LevelLo, LevelHi, SingleGoes, LostBlocks, Cleared, Ledgers.Elsewhere,
         Evolves, Strays;
    var t := Table(d, dir);
    InLost(d, dir, c, b);
    SlotCases(d, dir, s);
    LevelStart(t, c);
    if IsIndex(s) {
      IndexNotLeaf(d, dir, s, b);
      if SingleGoes(t, c) && PtrAt(d, dir, SingleIx) == Some(b) { NoSharing(d, Place(dir, s), Place(dir, SingleIx)); }
    } else {
      var q := LeafNumber(s);
      LeafIsPtr(d, dir, q);
      LeafIsPtr(d', dir, q);
      ClearedLeaf(t, c, q);
      LeafOnly(d, dir, q, b);
    }
  }

  lemma IndexNotLeaf(d: Disk, dir: nat, s: Slot, b: nat)
    requires Owned(d) && IsIndex(s) && PtrAt(d, dir, s) == Some(b)
    ensures forall q :: 0 <= q < LEAVES ==> PtrAt(d, dir, LeafSlot(q)) != Some(b)
  {
    hide PtrAt, Owned;
    forall q | 0 <= q < LEAVES ensures PtrAt(d, dir, LeafSlot(q)) != Some(b) {
      if PtrAt(d, dir, LeafSlot(q)) == Some(b) { NoSharing(d, Place(dir, LeafSlot(q)), Place(dir, s)); }
    }
  }

  lemma LeafOnly(d: Disk, dir: nat, q: nat, b: nat)
    requires Owned(d) && q < LEAVES && PtrAt(d, dir, LeafSlot(q)) == Some(b)
    ensures PtrAt(d, dir, SingleIx) != Some(b)
    ensures forall r :: 0 <= r < LEAVES && PtrAt(d, dir, LeafSlot(r)) == Some(b) ==> r == q
  {
    hide PtrAt, Owned, LeafSlot;
    if PtrAt(d, dir, SingleIx) == Some(b) { NotAnIndex(d, dir, q); }
    forall r | 0 <= r < LEAVES && PtrAt(d, dir, LeafSlot(r)) == Some(b) ensures r == q {
      if r != q { OtherLeaf(d, dir, q, r); }
    }
  }

  /** The blocks that are owned afterwards: all but the file's and the lost ones. */
  lemma StillOwned(d: Disk, d': Disk, dir: nat, c: string, x: nat)
    requires Owned(d) && Owned(d') && Unlinked(d, d', dir, c, x)
    ensures d'.owner.Keys == d.owner.Keys - Owns(d, x) - LostBlocks(d, dir, c)
    ensures LostBlocks(d, dir, c) <= d.owner.Keys - Owns(d, x)
  {
    hide PtrAt, Table, Owned, LostBlocks, Unlinked;
    forall b ensures b in d'.owner <==> b in d.owner && b !in Owns(d, x) && b !in LostBlocks(d, dir, c) {
      if b in d.owner { OwnedBefore(d, d', dir, c, x, b); }
      if b in d'.owner { OwnedAfter(d, d', dir, c, x, b); }
    }
    forall b | b in LostBlocks(d, dir, c) ensures b in d.owner && b !in Owns(d, x) {
      InLost(d, dir, c, b);
      UnlinkedBounds(d, d', dir, c, x);
    }
  }

  lemma OwnedBefore(d: Disk, d': Disk, dir: nat, c: string, x: nat, b: nat)
    requires Owned(d) && Owned(d') && Unlinked(d, d', dir, c, x) && b in d.owner
    ensures b !in Owns(d, x) && b !in LostBlocks(d, dir, c) ==> b in d'.owner
  {
    hide PtrAt, Table, Owned, LostBlocks, Cleared, IndexesLeft, Evolves, Strays;
    ClearInode.OwnedSlotValid(d, b);
    var p := d.owner[b];
    if p.ino != x && b !in LostBlocks(d, dir, c) {
      if p.ino == dir {
        GoneIff(d, d', dir, c, x, p.slot, b);
      } else {
        assert Ledgers.SameTree(d, d', p.ino);
      }
      OwnerOf(d', p.ino, p.slot);
    }
  }

  lemma OwnedAfter(d: Disk, d': Disk, dir: nat, c: string, x: nat, b: nat)
    requires Owned(d) && Owned(d') && Unlinked(d, d', dir, c, x) && b in d'.owner
    ensures b in d.owner && b !in Owns(d, x) && b !in LostBlocks(d, dir, c)
  {
    hide PtrAt, Table, Owned, LostBlocks, Cleared, IndexesLeft, Evolves, Strays;
    ClearInode.OwnedSlotValid(d', b);
    var p := d'.owner[b];
    if p.ino == x { Create.BlankNoPtr(d', x, p.slot); }
    if p.ino == dir {
      OwnerOf(d, dir, p.slot);
      GoneIff(d, d', dir, c, x, p.slot, b);
    } else {
      assert Ledgers.SameTree(d, d', p.ino);
      OwnerOf(d, p.ino, p.slot);
      InLost(d, dir, c, b);
    }
  }

  lemma UsedSize(d: Disk)
    requires Owned(d)
    ensures |d.used| == |Strays(d)| + |d.owner.Keys|
  {
    hide Owned;
    UsedIs(d);
    assert Strays(d) * d.owner.Keys == {};
  }

  lemma MinusTwo(s: set<nat>, t: set<nat>, u: set<nat>)
    requires t <= s && u <= s - t
    ensures |s - t - u| == |s| - |t| - |u|
  {
  }

  /** Of the blocks that were counted as free or marked as used, exactly the lost ones are now neither. */
  lemma UnlinkBalance(d: Disk, d': Disk, dir: nat, c: string, x: nat)
    requires Owned(d) && Owned(d') && Unlinked(d, d', dir, c, x)
    ensures FileSteps.Balance(d') + Lost(Table(d, dir), c) == FileSteps.Balance(d)
  {
    hide Owned, PtrAt, Table, Lost, LostBlocks, Owns, Ledgers.Elsewhere, Cleared, IndexesLeft, Evolves, Strays;
    StillOwned(d, d', dir, c, x);
    LostSize(d, dir, c);
    UsedSize(d);
    UsedSize(d');
    OwnsOwned(d, x);
    MinusTwo(d.owner.Keys, Owns(d, x), LostBlocks(d, dir, c));
  }

  lemma OwnsOwned(d: Disk, x: nat)
    ensures Owns(d, x) <= d.owner.Keys
  {
  }

  /** An unlink keeps the count exact if and only if no block from the match to the end of its level has exactly one
      entry. */
  lemma UnlinkExactIff(d: Disk, d': Disk, dir: nat, c: string, x: nat)
    requires Owned(d) && Owned(d') && Unlinked(d, d', dir, c, x)
    ensures FileSteps.Balance(d') == FileSteps.Balance(d) <==> NothingDropped(Table(d, dir), c)
  {
    hide Owned, Table, Lost, NothingDropped, Unlinked, FileSteps.Balance;
    UnlinkBalance(d, d', dir, c, x);
    LostNone(Table(d, dir), c);
  }
}
