/** Creating a file and unlinking it again: exactly when everything is as before. */
module CreateUnlink {
  import opened Options
  import Bitmap
  import opened Disk
  import Moves
  import opened FileData
  import opened Directory
  import opened DirTree
  import opened RamDisks
  import opened Tree
  import PathWalks
  import opened DirGrow
  import opened DirShrink
  import opened Ledgers
  import opened Creating
  import opened Create
  import Unlinking
  import Paths
  import Unlink
  import ClearInode

  /** A file was created, its name being new, in disk d, which gave d1, and then unlinked, which gave d2. */
  ghost predicate ThereAndBack(d: Disk, up: map<nat, Spot>, d1: Disk, d2: Disk, dir: nat, c: string, x: nat,
          kind: Kind, mode: nat, w: Where) {
    && FsOk(d, up) && Neat(d) && Sound(d1) && Sound(d2)
    && Created(d, d1, dir, c, x, kind, mode, w) && w.At? && w.q < FIRST_ROW && Lookup(Table(d, dir), c) == None
    && Unlinking.Unlinked(d1, d2, dir, c, x)
  }

  /** The single-indirect block, if there is one, has a leaf. */
  ghost predicate SingleUsed(d: Disk, dir: nat) {
    PtrAt(d, dir, SingleIx).Some? ==> exists r :: DIRECT <= r < FIRST_ROW && Table(d, dir)[r].Some?
  }

  /** No leaf behind q, in its level, has exactly one entry. */
  predicate NoSingletonBehind(t: DirTable, q: nat) {
    forall r :: q < r < (if q < DIRECT then DIRECT else FIRST_ROW) && t[r].Some? ==> Count(t[r].value) != 1
  }

  /** The condition, on the directory as it is before: no block behind the leaf that the search for room settles on has
      exactly one entry, and that leaf will not be the first one of a single-indirect block that is there without any.
      */
  ghost predicate Reversible(d: Disk, dir: nat)
    requires dir < INODES
  {
    NoSingletonBehind(Table(d, dir), Goal(d, dir)) && (Goal(d, dir) < DIRECT || SingleUsed(d, dir))
  }

  lemma NameNew(t: DirTable, c: string)
    requires Lookup(t, c) == None
    ensures forall r :: 0 <= r < LEAVES ==> LeafLookup(t[r], c) == None
  {
    hide Lookup, FindFrom;
    forall r | 0 <= r < LEAVES ensures LeafLookup(t[r], c) == None {
      if t[r].Some? { AbsentEverywhere(t, c, r, 0); }
    }
  }

  /** The facts about the directory before that the theory of tables needs. */
  lemma Before(d: Disk, up: map<nat, Spot>, d1: Disk, d2: Disk, dir: nat, c: string, x: nat, kind: Kind, mode: nat,
          w: Where)
    requires ThereAndBack(d, up, d1, d2, dir, c, x, kind, mode, w)
    ensures w.At? && dir < INODES && w.q == Goal(d, dir) < FIRST_ROW
    ensures var t := Table(d, dir);
            && d.inodes[dir].kind == Dir && 0 < x < INODES && x != dir && c != "" && w.j < ENTRIES
            && TidyTable(t) && NoEmptyLeaf(t) && UniqueNames(t) && NoDouble(t) && FreeAt(t, w.q, w.j)
            && Table(d1, dir) == Put(t, w.q, w.j, Entry(c, x)) && Table(d2, dir) == Cleared(Table(d1, dir), c)
            && (forall r :: 0 <= r < LEAVES ==> LeafLookup(t[r], c) == None)
  {
    hide Table, Put, Cleared, Elsewhere, UniqueNames, NoEmptyLeaf, Hung, NoRows, IndexesLeft, Lookup, LeafLookup,
         TidyTable, NoDouble, Sound, Ledger;
    assert DirOk(d, up, dir);
    NoRowsNoDouble(d, dir);
    FreeIsZeroed(Table(d, dir), w.q, w.j);
    NameNew(Table(d, dir), c);
  }

  /** What unlinking will drop can be seen before the file is created. */
  lemma BehindIff(d: Disk, up: map<nat, Spot>, d1: Disk, d2: Disk, dir: nat, c: string, x: nat, kind: Kind, mode: nat,
          w: Where)
    requires ThereAndBack(d, up, d1, d2, dir, c, x, kind, mode, w)
    ensures dir < INODES && (NoLaterSingleton(Table(d1, dir), c) <==> NoSingletonBehind(Table(d, dir), Goal(d, dir)))
  {
    hide Table, Put, Cleared, UniqueNames, NoEmptyLeaf, LeafLookup, TidyTable, NoDouble, ThereAndBack, FreeAt, Goal,
         LevelLo, LevelHi, Count;
    Before(d, up, d1, d2, dir, c, x, kind, mode, w);
    var t, e := Table(d, dir), Entry(c, x);
    PutHas(t, w.q, w.j, e);
    PutLevel(t, w.q, w.j, e);
    forall r | 0 <= r < LEAVES && r != w.q ensures Put(t, w.q, w.j, e)[r] == t[r] { PutElsewhere(t, w.q, w.j, e, r); }
  }

  lemma PutElsewhere(t: DirTable, q: nat, j: nat, e: Entry, r: nat)
    requires q < LEAVES && j < ENTRIES && r < LEAVES && r != q
    ensures Put(t, q, j, e)[r] == t[r]
  {
  }

  /** If no later single-entry block goes, the directory shows what it showed before. */
  lemma TableBack(d: Disk, up: map<nat, Spot>, d1: Disk, d2: Disk, dir: nat, c: string, x: nat, kind: Kind, mode: nat,
          w: Where)
    requires ThereAndBack(d, up, d1, d2, dir, c, x, kind, mode, w) && NoLaterSingleton(Table(d1, dir), c)
    ensures Table(d2, dir) == Table(d, dir)
  {
    hide Table, Put, Cleared, UniqueNames, NoEmptyLeaf, LeafLookup, TidyTable, NoDouble, ThereAndBack, NoLaterSingleton,
         FreeAt;
    Before(d, up, d1, d2, dir, c, x, kind, mode, w);
    ClearedUndoesPut(Table(d, dir), w.q, w.j, Entry(c, x));
  }

  // ---------------------------------------------------------------- the index block

  lemma {:induction false} PresentOnly(t: DirTable, lo: nat, hi: nat, q: nat)
    requires lo <= hi <= LEAVES && forall r :: lo <= r < hi && r != q ==> t[r] == None
    ensures Present(t, lo, hi) == if lo <= q < hi && t[q].Some? then 1 else 0
    decreases hi - lo
  {
    if lo < hi { PresentOnly(t, lo, hi - 1, q); }
  }

  lemma LeafNeedsSingle(d: Disk, dir: nat, r: nat)
    requires DIRECT <= r < FIRST_ROW && Table(d, dir)[r].Some?
    ensures PtrAt(d, dir, SingleIx).Some?
  {
    hide PtrAt, Table;
    if PtrAt(d, dir, SingleIx) == None { DirSearch.LeafNotThere(d, dir, SingleIx, r); }
  }

  /** When the index block of the single-indirect level goes with the entry. */
  lemma SingleGoesIff(t: DirTable, q: nat, j: nat, e: Entry)
    requires FreeAt(t, q, j) && q < FIRST_ROW && NoEmptyLeaf(t) && e.name != "" && e.ino != 0
    requires forall r :: 0 <= r < LEAVES ==> LeafLookup(t[r], e.name) == None
    ensures SingleGoes(Put(t, q, j, e), e.name) <==> q >= DIRECT && forall r :: DIRECT <= r < FIRST_ROW ==> t[r] == None
  {
    hide LeafLookup, NoEmptyLeaf, Present, CountFrom;
    var u := Put(t, q, j, e);
    PutHas(t, q, j, e);
    PutLevel(t, q, j, e);
    if q >= DIRECT {
      PutCount(t, q, j, e);
      PresentOne(u, DIRECT, FIRST_ROW, q);
      if forall r :: DIRECT <= r < FIRST_ROW ==> t[r] == None {
        PresentOnly(u, DIRECT, FIRST_ROW, q);
      } else {
        var r :| DIRECT <= r < FIRST_ROW && t[r].Some?;
        assert u[r].Some?;
      }
    }
  }

  lemma PutCount(t: DirTable, q: nat, j: nat, e: Entry)
    requires FreeAt(t, q, j) && NoEmptyLeaf(t) && e.ino != 0
    ensures Put(t, q, j, e)[q].Some? && (Count(Put(t, q, j, e)[q].value) == 1 <==> t[q] == None)
  {
    hide CountFrom;
    CountPut(BlockOf(t[q]), j, e, 0);
    CountZero(NO_ENTRIES, 0);
  }

  // ---------------------------------------------------------------- pointers

  lemma LeafIsPtr(d: Disk, dir: nat, q: nat)
    requires q < LEAVES
    ensures Table(d, dir)[q].Some? <==> PtrAt(d, dir, LeafSlot(q)).Some?
  {
    hide PtrAt;
    TableAt(d, dir, q);
  }

  /** Every leaf pointer is back. */
  lemma LeafBack(d: Disk, d1: Disk, d2: Disk, dir: nat, w: Where, q: nat)
    requires Hung(d, d1, dir, w) && w.At? && q < LEAVES && Table(d2, dir) == Table(d, dir)
    requires forall t :: PtrAt(d2, dir, t) == PtrAt(d1, dir, t) || PtrAt(d2, dir, t) == None
    ensures PtrAt(d2, dir, LeafSlot(q)) == PtrAt(d, dir, LeafSlot(q))
  {
    hide PtrAt, Table, LeafSlot, Strays;
    LeafIsPtr(d, dir, q);
    LeafIsPtr(d2, dir, q);
  }

  /** Index pointers other than the one to the single-indirect block never changed. */
  lemma IndexBack(d: Disk, d1: Disk, d2: Disk, dir: nat, c: string, w: Where, s: Slot)
    requires Hung(d, d1, dir, w) && w.At? && IndexesLeft(d1, d2, dir, c) && IsIndex(s) && s != SingleIx
    ensures PtrAt(d2, dir, s) == PtrAt(d, dir, s)
  {
    hide PtrAt, Table, SingleGoes, Strays;
    assert s != LeafSlot(w.q);
    assert !Gained(d, d1, dir, s);
  }

  /** The pointer to the single-indirect block is back exactly if that block had a leaf, or was not involved. */
  lemma SingleBack(d: Disk, up: map<nat, Spot>, d1: Disk, d2: Disk, dir: nat, c: string, x: nat, kind: Kind,
          mode: nat, w: Where)
    requires ThereAndBack(d, up, d1, d2, dir, c, x, kind, mode, w)
    ensures PtrAt(d2, dir, SingleIx) == PtrAt(d, dir, SingleIx) <==> w.q < DIRECT || SingleUsed(d, dir)
  {
    hide PtrAt, Table, Put, Cleared, UniqueNames, NoEmptyLeaf, LeafLookup, TidyTable, NoDouble, SingleGoes, FreeAt,
         Elsewhere, Sound, TreeOk, Ledger, Neat, Lookup, NoRows;
    Before(d, up, d1, d2, dir, c, x, kind, mode, w);
    var t := Table(d, dir);
    SingleGoesIff(t, w.q, w.j, Entry(c, x));
    assert IsIndex(SingleIx);
    SingleAfter(d, d1, dir, w);
    if r :| DIRECT <= r < FIRST_ROW && t[r].Some? { LeafNeedsSingle(d, dir, r); }
    if w.q >= DIRECT {
      PutThere(t, w.q, w.j, Entry(c, x));
      LeafNeedsSingle(d1, dir, w.q);
    }
  }

  lemma SingleAfter(d: Disk, d1: Disk, dir: nat, w: Where)
    requires Hung(d, d1, dir, w) && w.At?
    ensures PtrAt(d, dir, SingleIx).Some? || w.q < DIRECT ==> PtrAt(d1, dir, SingleIx) == PtrAt(d, dir, SingleIx)
  {
    hide PtrAt, Strays;
    if w.q < DIRECT {
      assert SingleIx != LeafSlot(w.q);
      assert !Gained(d, d1, dir, SingleIx);
    }
  }

  /** The leaf a slot stands for. */
  function LeafNumber(s: Slot): nat {
    match s
    case Direct(i) => i
    case Single(i) => DIRECT + i
    case Row(k, j) => FIRST_ROW + PTRS * k + j
    case _ => 0
  }

  lemma SlotCases(d: Disk, i: nat, s: Slot)
    ensures !ValidSlot(s) ==> PtrAt(d, i, s) == None
    ensures ValidSlot(s) && !IsIndex(s) ==> LeafNumber(s) < LEAVES && LeafSlot(LeafNumber(s)) == s
  {
    if s.Row? && ValidSlot(s) { RowLeaf(s.k, s.j); }
  }

  /** Under the condition, every pointer of the directory is back. */
  lemma PointersBack(d: Disk, up: map<nat, Spot>, d1: Disk, d2: Disk, dir: nat, c: string, x: nat, kind: Kind,
          mode: nat, w: Where)
    requires ThereAndBack(d, up, d1, d2, dir, c, x, kind, mode, w) && Reversible(d, dir)
    ensures SamePtrs(d, d2, dir) && Table(d2, dir) == Table(d, dir)
  {
    hide PtrAt, Table, NoLaterSingleton, NoSingletonBehind, Goal, SingleUsed, LeafSlot, IndexesLeft, FsOk, Neat, Sound,
         Lookup, Cleared, Put, Elsewhere, Hung, NoRows, Moves.Evolves;
    Before(d, up, d1, d2, dir, c, x, kind, mode, w);
    BehindIff(d, up, d1, d2, dir, c, x, kind, mode, w);
    TableBack(d, up, d1, d2, dir, c, x, kind, mode, w);
    SingleBack(d, up, d1, d2, dir, c, x, kind, mode, w);
    forall s ensures PtrAt(d2, dir, s) == PtrAt(d, dir, s) {
      SlotCases(d, dir, s);
      SlotCases(d2, dir, s);
      if ValidSlot(s) {
        if !IsIndex(s) {
          LeafBack(d, d1, d2, dir, w, LeafNumber(s));
        } else if s != SingleIx {
          IndexBack(d, d1, d2, dir, c, w, s);
        }
      }
    }
  }

  lemma SizeBack(size: U32)
    ensures Unlinking.Less16(Plus32(size, 16)) == size
  {
  }

  lemma InodeFromPtrs(d: Disk, d': Disk, i: nat)
    requires i < INODES && SamePtrs(d, d', i)
    requires d'.inodes[i].kind == d.inodes[i].kind && d'.inodes[i].size == d.inodes[i].size
             && d'.inodes[i].access == d.inodes[i].access
    ensures d'.inodes[i] == d.inodes[i]
  {
    var n, n' := d.inodes[i], d'.inodes[i];
    assert PtrAt(d', i, SingleIx) == PtrAt(d, i, SingleIx) && PtrAt(d', i, DoubleIx) == PtrAt(d, i, DoubleIx);
    forall k | 0 <= k < DIRECT ensures n'.direct[k] == n.direct[k] {
      assert PtrAt(d', i, Direct(k)) == PtrAt(d, i, Direct(k));
    }
    assert n'.direct == n.direct;
  }

  /** All pointers of the disk are back. */
  lemma AllPointersBack(d: Disk, up: map<nat, Spot>, d1: Disk, d2: Disk, dir: nat, c: string, x: nat, kind: Kind,
          mode: nat, w: Where)
    requires ThereAndBack(d, up, d1, d2, dir, c, x, kind, mode, w) && Reversible(d, dir)
    ensures forall i :: SamePtrs(d, d2, i)
    ensures d2.inodes == d.inodes
    ensures SameTables(d, d2)
  {
    hide PtrAt, Table, Reversible, SameTree, LeafSlot, IndexesLeft, TreeOk, Neat, Sound, Lookup, Cleared, Put, Hung,
         NoRows;
    PointersBack(d, up, d1, d2, dir, c, x, kind, mode, w);
    assert d.inodes[x] == NO_INODE by { assert Zeroes(d); }
    SizeBack(d.inodes[dir].size);
    forall i: nat
           ensures SamePtrs(d, d2, i) && Table(d2, i) == Table(d, i) && (i < INODES ==> d2.inodes[i] == d.inodes[i]) {
      if i >= INODES {
        BeyondSame(d, d2, i);
      } else if i == x {
        BlankSame(d, d2, x);
      } else if i == dir {
        InodeFromPtrs(d, d2, dir);
      } else {
        assert d1.inodes[i] == d.inodes[i] && SameTree(d, d1, i);
        assert d2.inodes[i] == d1.inodes[i] && SameTree(d1, d2, i);
        SameTreeTwice(d, d1, d2, i);
        SameTreePtrs(d, d2, i);
        SameTreeTable(d, d2, i);
      }
    }
  }

  lemma BeyondSame(d: Disk, d': Disk, i: nat)
    requires i >= INODES
    ensures SamePtrs(d, d', i) && Table(d', i) == Table(d, i)
  {
    forall q | 0 <= q < LEAVES ensures LeafOf(d', i, q) == Table(d, i)[q] {}
    SameTable(d', i, Table(d, i));
  }

  lemma BlankSame(d: Disk, d': Disk, x: nat)
    requires x < INODES && d.inodes[x] == NO_INODE && d'.inodes[x] == NO_INODE
    ensures SamePtrs(d, d', x) && Table(d', x) == Table(d, x)
  {
    forall t ensures PtrAt(d', x, t) == PtrAt(d, x, t) { BlankNoPtr(d, x, t); BlankNoPtr(d', x, t); }
    EmptyInode(d, x);
    EmptyInode(d', x);
  }

  // ---------------------------------------------------------------- blocks

  lemma OwnersSame(d: Disk, d': Disk)
    requires Owned(d) && Owned(d') && forall i :: SamePtrs(d, d', i)
    ensures d'.owner.Keys <= d.owner.Keys
  {
    hide PtrAt;
    forall b | b in d'.owner ensures b in d.owner {
      var p := d'.owner[b];
      assert PtrAt(d', p.ino, p.slot) == Some(b);
      assert SamePtrs(d, d', p.ino);
      assert PtrAt(d, p.ino, p.slot) == Some(b);
    }
  }

  lemma UsedIs(d: Disk)
    requires Owned(d)
    ensures d.used == Strays(d) + d.owner.Keys
  {
    hide PtrAt;
    assert forall b :: b in d.owner ==> b in d.used;
  }

  lemma UsedBack(d: Disk, d': Disk)
    requires Owned(d) && Owned(d') && Strays(d') == Strays(d) && forall i :: SamePtrs(d, d', i)
    ensures d'.used == d.used
  {
    hide Owned, Strays, PtrAt;
    OwnersSame(d, d');
    assert forall i :: SamePtrs(d', d, i) by {
      forall i: nat ensures SamePtrs(d', d, i) { assert SamePtrs(d, d', i); }
    }
    OwnersSame(d', d);
    UsedIs(d);
    UsedIs(d');
  }

  /** The new file never got a block of its own. */
  lemma NothingOwned(d: Disk, x: nat)
    requires Owned(d) && x < INODES && Moves.Blank(d.inodes[x])
    ensures Moves.Owns(d, x) == {}
  {
    hide Owned, PtrAt;
    forall b | b in Moves.Owns(d, x) ensures false {
      ClearInode.OwnedSlotValid(d, b);
      BlankNoPtr(d, x, d.owner[b].slot);
    }
  }

  /** A block in a later leaf of the level is lost for good if it had exactly one entry. */
  lemma LaterBlockGone(d: Disk, up: map<nat, Spot>, d1: Disk, d2: Disk, dir: nat, c: string, x: nat, kind: Kind,
          mode: nat, w: Where)
    requires ThereAndBack(d, up, d1, d2, dir, c, x, kind, mode, w) && !NoLaterSingleton(Table(d1, dir), c)
    ensures d2.used != d.used
  {
    hide PtrAt, Table, FsOk, Neat, Sound, Lookup, Cleared, Put, Elsewhere, NoRows, LevelLo, LevelHi, Count, IndexesLeft,
         LeafSlot, Hung;
    Before(d, up, d1, d2, dir, c, x, kind, mode, w);
    var t, u := Table(d, dir), Table(d1, dir);
    LevelStart(u, c);
    var r :| LevelLo(u, c) < r < LevelHi(u, c) && u[r].Some? && Count(u[r].value) == 1;
    assert r != w.q && t[r] == u[r] by { LaterLeaf(t, w.q, w.j, Entry(c, x), r); }
    ClearedLeaf(u, c, r);
    LeafIsPtr(d, dir, r);
    LeafIsPtr(d2, dir, r);
    BlockGone(d, up, d1, d2, dir, c, x, kind, mode, w, LeafSlot(r));
  }

  lemma LaterLeaf(t: DirTable, q: nat, j: nat, e: Entry, r: nat)
    requires FreeAt(t, q, j) && q < FIRST_ROW && r < LEAVES && forall i :: 0 <= i < LEAVES ==>
             LeafLookup(t[i], e.name) == None
    requires LevelLo(Put(t, q, j, e), e.name) < r
    ensures r != q && t[r] == Put(t, q, j, e)[r]
  {
    hide LeafLookup, LevelLo, LevelHi;
    PutHas(t, q, j, e);
    PutLevel(t, q, j, e);
  }

  /** A block whose pointer is gone is not marked any more. */
  lemma BlockGone(d: Disk, up: map<nat, Spot>, d1: Disk, d2: Disk, dir: nat, c: string, x: nat, kind: Kind, mode: nat,
          w: Where, s: Slot)
    requires ThereAndBack(d, up, d1, d2, dir, c, x, kind, mode, w) && PtrAt(d, dir, s).Some?
             && PtrAt(d2, dir, s) == None
    ensures PtrAt(d, dir, s).value in d.used && PtrAt(d, dir, s).value !in d2.used
  {
    hide PtrAt, Table, TreeOk, Ledger, Neat, Sound, Lookup, Cleared, Put, NoRows, IndexesLeft, LeafSlot;
    SoundOwned(d);
    SoundOwned(d2);
    var b := PtrAt(d, dir, s).value;
    OwnerOf(d, dir, s);
    assert b !in Strays(d2);
    if b in d2.used {
      ClearInode.OwnedSlotValid(d2, b);
      var p := d2.owner[b];
      if p.ino == dir {
        assert PtrAt(d1, dir, p.slot) == Some(b);
        assert PtrAt(d1, dir, s) == Some(b);
        SoundOwned(d1);
        NoSharing(d1, Place(dir, s), Place(dir, p.slot));
      } else if p.ino == x {
        BlankNoPtr(d2, x, p.slot);
      } else {
        assert SameTree(d, d1, p.ino) && SameTree(d1, d2, p.ino);
        assert PtrAt(d2, p.ino, p.slot) == PtrAt(d1, p.ino, p.slot) == PtrAt(d, p.ino, p.slot);
        NoSharing(d, Place(dir, s), p);
      }
    }
  }

  /** Otherwise some block is lost, or the index block goes that was there before. */
  lemma NotBack(d: Disk, up: map<nat, Spot>, d1: Disk, d2: Disk, dir: nat, c: string, x: nat, kind: Kind, mode: nat,
          w: Where)
    requires ThereAndBack(d, up, d1, d2, dir, c, x, kind, mode, w) && !Reversible(d, dir)
    ensures !(d2.used == d.used && d2.inodes == d.inodes)
  {
    hide PtrAt, Table, NoSingletonBehind, NoLaterSingleton, SingleUsed, Goal, ThereAndBack, Put, Cleared, LeafLookup,
         TidyTable, NoDouble, NoEmptyLeaf, UniqueNames, FreeAt;
    Before(d, up, d1, d2, dir, c, x, kind, mode, w);
    BehindIff(d, up, d1, d2, dir, c, x, kind, mode, w);
    if !NoLaterSingleton(Table(d1, dir), c) {
      LaterBlockGone(d, up, d1, d2, dir, c, x, kind, mode, w);
    } else {
      SingleBack(d, up, d1, d2, dir, c, x, kind, mode, w);
      Path(d, dir, SingleIx);
      Path(d2, dir, SingleIx);
    }
  }

  /** Creating a file and unlinking it restores the bitmap and every inode if and only if the directory was Reversible
      before. Then every path means what it meant, and of the blocks counted as free only those that the new entry took
      are missing. */
  lemma CreateUnlinkIff(d: Disk, up: map<nat, Spot>, d1: Disk, d2: Disk, dir: nat, c: string, x: nat, kind: Kind,
          mode: nat, w: Where)
    requires ThereAndBack(d, up, d1, d2, dir, c, x, kind, mode, w)
    ensures d2.used == d.used && d2.inodes == d.inodes <==> Reversible(d, dir)
    ensures Reversible(d, dir) ==> SameTables(d, d2) && forall cs :: Resolve(d2, 0, cs) == Resolve(d, 0, cs)
    ensures d2.freeInodes == d.freeInodes && d2.freeBlocks == d1.freeBlocks
  {
    hide PtrAt, Table, TreeOk, Ledger, Neat, Sound, Lookup, Cleared, Put, NoRows, IndexesLeft, LeafSlot, Elsewhere,
         Reversible, SameTables, Resolve, Moves.Evolves;
    SoundOwned(d);
    SoundOwned(d1);
    SoundOwned(d2);
    NothingOwned(d1, x);
    if Reversible(d, dir) {
      AllPointersBack(d, up, d1, d2, dir, c, x, kind, mode, w);
      UsedBack(d, d2);
      forall cs ensures Resolve(d2, 0, cs) == Resolve(d, 0, cs) { SameResolve(d, d2, 0, cs); }
    } else {
      NotBack(d, up, d1, d2, dir, c, x, kind, mode, w);
    }
  }

  /** The path to the new entry still leads through directories. */
  lemma StillThroughDirs(d: Disk, up: map<nat, Spot>, d': Disk, up': map<nat, Spot>, dir: nat, c: string, x: nat,
          kind: Kind, mode: nat, w: Where,
                         cs: seq<string>)
    requires Owned(d) && TreeOk(d, up) && TreeOk(d', up') && Created(d, d', dir, c, x, kind, mode, w)
    requires Named(cs) && c != "" && Resolve(d, 0, cs) == Some(dir) && ThroughDirs(d, 0, cs + [c])
    ensures ThroughDirs(d', 0, cs + [c])
  {
    hide Owned, TreeOk, Created, Resolve, ThroughDirs;
    var p := cs + [c];
    ThroughDirsIff(d, up, 0, p);
    ThroughDirsIff(d', up', 0, p);
    CreatedKinds(d, d', dir, c, x, kind, mode, w);
    NewInodeFree(d, d', dir, c, x, kind, mode, w);
    forall k | 0 <= k < |p| ensures DirIfAny(d', Resolve(d', 0, p[..k])) {
      assert DirIfAny(d, Resolve(d, 0, p[..k])) && !(p <= p[..k]);
      CreatedFrame(d, up, d', dir, c, x, kind, mode, w, cs, p[..k]);
    }
  }

  /** The new file can be unlinked: it is found, and if it is a directory it is empty. */
  lemma CanUnlinkNew(d: Disk, d': Disk, dir: nat, c: string, x: nat, kind: Kind, mode: nat, w: Where, p: seq<string>)
    requires Created(d, d', dir, c, x, kind, mode, w) && p != [] && Resolve(d', 0, p) == Some(x)
    ensures Unlink.CanUnlink(d', p)
  {
    hide Resolve, Table, Elsewhere, Hung;
  }

  lemma NewIsThere(d: Disk, up: map<nat, Spot>, d1: Disk, up': map<nat, Spot>, cs: seq<string>, c: string, kind: Kind,
          mode: nat, x: nat, w: Where)
    requires CreateResult(d, up, d1, up', cs, c, kind, mode, true, x, w) && OnlyNewPath(d, d1, cs + [c], x)
    ensures Resolve(d1, 0, cs + [c]) == Some(x) && Unlink.CanUnlink(d1, cs + [c])
  {
    hide FsOk, Created, Resolve;
    CanUnlinkNew(d, d1, Resolve(d, 0, cs).value, c, x, kind, mode, w, cs + [c]);
  }

  lemma StillGood(d: Disk, up: map<nat, Spot>, d1: Disk, up': map<nat, Spot>, cs: seq<string>, c: string, kind: Kind,
          mode: nat, x: nat, w: Where)
    requires FsOk(d, up) && CreateResult(d, up, d1, up', cs, c, kind, mode, true, x, w) && Named(cs) && c != ""
             && ThroughDirs(d, 0, cs + [c])
    ensures ThroughDirs(d1, 0, cs + [c]) && FsOk(d1, up')
  {
    hide Sound, TreeOk, Ledger, Created, Resolve, ThroughDirs;
    SoundOwned(d);
    StillThroughDirs(d, up, d1, up', Resolve(d, 0, cs).value, c, x, kind, mode, w, cs);
  }

  lemma LeakedStays(d: Disk, d1: Disk, cs: seq<string>, c: string)
    requires NoNewPath(d, d1) && Resolve(d, 0, cs + [c]) == None && Named(cs) && c != ""
    ensures !Unlink.CanUnlink(d1, cs + [c])
  {
    hide Resolve;
  }

  lemma Restored(d: Disk, up: map<nat, Spot>, d1: Disk, up': map<nat, Spot>, d2: Disk, cs: seq<string>, c: string,
          kind: Kind, mode: nat,
                 x: nat, w: Where, dir: nat)
    requires FsOk(d, up) && Neat(d) && CreateResult(d, up, d1, up', cs, c, kind, mode, true, x, w) && Named(cs)
             && c != ""
    requires Resolve(d, 0, cs + [c]) == None && OnlyNewPath(d, d1, cs + [c], x) && w.At? && w.q < FIRST_ROW
    requires Resolve(d1, 0, cs) == Some(dir) && Unlinking.Unlinked(d1, d2, dir, c, x) && FsOk(d2, up' - {x})
    ensures dir == Resolve(d, 0, cs).value && FsOk(d2, up) && d2.freeBlocks == d1.freeBlocks
    ensures d2.used == d.used && d2.inodes == d.inodes <==> Reversible(d, dir)
    ensures Reversible(d, dir) ==> SameTables(d, d2)
  {
    hide TreeOk, Created, Unlinking.Unlinked, Resolve, Sound, Neat, Reversible, SameTables, Lookup, Table, Entered,
         Zeroes, InDirs, Sizes;
    assert cs != cs + [c];
    ResolveSnoc(d, 0, cs, c);
    NewInodeFree(d, d1, dir, c, x, kind, mode, w);
    NotEntered(d, up, x);
    assert up' - {x} == up;
    CreateUnlinkIff(d, up, d1, d2, dir, c, x, kind, mode, w);
  }

  /** rd_create and then rd_unlink of the same new path. */
  method CreateThenUnlink(disk: RamDisk, path: string, kind: Kind, mode: nat, ghost up: map<nat, Spot>,
          ghost cs: seq<string>, ghost c: string)
    returns (r: int)
    requires disk.Valid() && FsOk(disk.View(), up) && Neat(disk.View()) && kind != NoFile
    requires Paths.GoodNames(cs) && Paths.GoodName(c) && path == Paths.PathOf(cs + [c])
             && ThroughDirs(disk.View(), 0, cs + [c])
    requires Resolve(disk.View(), 0, cs + [c]) == None
    modifies disk`freeBlocks, disk`freeInodes, disk`owner, disk.bitmap, disk.inodes, disk.blocks
    ensures disk.Valid()
    ensures Resolve(old(disk.View()), 0, cs).Some? ==> Resolve(old(disk.View()), 0, cs).value < INODES
    ensures r == 0 <==>
            CanCreate(old(disk.View()), cs)
            && Goal(old(disk.View()), Resolve(old(disk.View()), 0, cs).value) < FIRST_ROW
    ensures r == 0 ==> var d, dir := old(disk.View()), Resolve(old(disk.View()), 0, cs).value;
                       && Goal(d, dir) < FIRST_ROW && FsOk(disk.View(), up)
                          && disk.freeBlocks == d.freeBlocks - Needs(d, dir, Goal(d, dir))
                       && (disk.View().used == d.used && disk.View().inodes == d.inodes <==> Reversible(d, dir))
                       && (Reversible(d, dir) ==> SameTables(d, disk.View()))
  {
    hide Sound, TreeOk, Ledger, Table, Lookup, Bitmap.Used, Created, Unlinking.Unlinked, Resolve, Neat, Paths.PathOf,
         ThroughDirs, Quiet, OnlyNewPath, NoNewPath, Unlinking.OnlyLostPath, Reversible, SameTables, NoLaterSingleton,
         CanCreate, Goal, Needs, RamDisk.View, ThereAndBack, PathWalks.IntoDir, PathWalks.Means, OnDirs, Find,
         Paths.DirPart, Paths.NamePart, PathWalks.Front, PathWalks.Last;
    ghost var d := disk.View();
    CallNamed(d, up, cs, c);
    PathWalks.FrontLast(cs, c);
    ghost var x, w, up';
    r, x, w, up' := RdCreate(disk, path, kind, mode, up, cs, c);
    ghost var d1 := disk.View();
    ViewCounters(disk);
    if r != 0 {
      return;
    }
    ghost var dir := Resolve(d, 0, cs).value;
    WhereGot(d, up, d1, up', cs, c, kind, mode, x, w);
    ghost var back := w.At?;
    if back { NewIsThere(d, up, d1, up', cs, c, kind, mode, x, w); }
    StillGood(d, up, d1, up', cs, c, kind, mode, x, w);
    CallNamed(d1, up', cs, c);
    ghost var gone, from;
    r, from, gone := Unlink.RdUnlink(disk, path, up', cs + [c]);
    ViewCounters(disk);
    if back {
      Restored(d, up, d1, up', disk.View(), cs, c, kind, mode, x, w, from);
    } else {
      LeakedStays(d, d1, cs, c);
    }
  }
}
