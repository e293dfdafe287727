/** my_clear_inode: gives back every block of a file, and nothing else. */
module ClearInode {
  import opened Options
  import opened Bitmap
  import opened Disk
  import opened Moves
  import opened FileData
  import FileSteps
  import opened RamDisks

  const RANKS: nat := 4234

  /** The order in which my_clear_inode comes by the slots: an index block after everything it points to. */
  function Rank(s: Slot): nat {
    match s
    case Direct(i) => i
    case Single(i) => 8 + i
    case SingleIx => 72
    case Row(k, j) => 73 + 65 * k + j
    case RowIx(k) => 73 + 65 * k + 64
    case DoubleIx => 4233
  }

  lemma RankInjective(s: Slot, t: Slot)
    requires ValidSlot(s) && ValidSlot(t) && Rank(s) == Rank(t)
    ensures s == t
  {
  }

  lemma RankBound(s: Slot)
    requires ValidSlot(s)
    ensures Rank(s) < RANKS
  {
  }

  /** The blocks of ino's tree in slots of rank below r. */
  ghost function FreedTo(d: Disk, ino: nat, r: nat): set<nat> {
    set b | b in d.owner && d.owner[b].ino == ino && Rank(d.owner[b].slot) < r
  }

  lemma OwnedSlotValid(d: Disk, b: nat)
    requires Owned(d) && b in d.owner
    ensures ValidSlot(d.owner[b].slot) && d.owner[b].ino < INODES && b < DATA_BLOCKS_NUM && b in d.used
    ensures PtrAt(d, d.owner[b].ino, d.owner[b].slot) == Some(b)
  {
  }

  /** The blocks of a tree are exactly those its pointers lead to. */
  lemma OwnsIs(d: Disk, ino: nat, b: nat)
    requires Owned(d)
    ensures b in Owns(d, ino) <==> exists s :: PtrAt(d, ino, s) == Some(b)
  {
    hide PtrAt;
    if b in Owns(d, ino) {
      assert PtrAt(d, ino, d.owner[b].slot) == Some(b);
    }
    if s :| PtrAt(d, ino, s) == Some(b) { OwnerOf(d, ino, s); }
  }

  /** Passing slot s adds its block, if it has one. */
  lemma FreedStep(d: Disk, ino: nat, s: Slot)
    requires Owned(d) && ino < INODES && ValidSlot(s)
    ensures var p := PtrAt(d, ino, s);
            && FreedTo(d, ino, Rank(s) + 1) == FreedTo(d, ino, Rank(s)) + (if p.Some? then {p.value} else {})
            && (p.Some? ==> p.value !in FreedTo(d, ino, Rank(s)) && p.value < DATA_BLOCKS_NUM && p.value in d.used)
  {
    hide PtrAt, Rank, Owned;
    if PtrAt(d, ino, s).Some? { OwnerOf(d, ino, s); }
    forall b | b in d.owner && d.owner[b].ino == ino && Rank(d.owner[b].slot) == Rank(s)
      ensures PtrAt(d, ino, s) == Some(b)
    {
      OwnedSlotValid(d, b);
      RankInjective(d.owner[b].slot, s);
    }
  }

  lemma FreedAll(d: Disk, ino: nat)
    requires Owned(d)
    ensures FreedTo(d, ino, RANKS) == Owns(d, ino)
  {
    hide PtrAt, Owned, Rank;
    forall b | b in Owns(d, ino) ensures b in FreedTo(d, ino, RANKS) {
      OwnedSlotValid(d, b);
      RankBound(d.owner[b].slot);
    }
  }

  /** An index block and what it points to: row None is the single-indirect block. */
  function IxSlot(row: Option<nat>): Slot { if row == None then SingleIx else RowIx(row.value) }

  function EntrySlot(row: Option<nat>, i: nat): Slot { if row == None then Single(i) else Row(row.value, i) }

  function Base(row: Option<nat>): nat { if row == None then 8 else 73 + 65 * row.value }

  lemma RanksOf(row: Option<nat>, i: nat)
    ensures Rank(EntrySlot(row, i)) == Base(row) + i && Rank(IxSlot(row)) == Base(row) + PTRS
  {
  }

  /** Without the index block there is nothing to pass. */
  lemma FreedSkip(d: Disk, ino: nat, row: Option<nat>)
    requires Owned(d) && ino < INODES && (row.Some? ==> row.value < PTRS) && PtrAt(d, ino, IxSlot(row)) == None
    ensures FreedTo(d, ino, Base(row) + 65) == FreedTo(d, ino, Base(row))
  {
    hide PtrAt, Owned, Rank;
    forall b | b in d.owner && d.owner[b].ino == ino ensures !(Base(row) <= Rank(d.owner[b].slot) < Base(row) + 65) {
      OwnedSlotValid(d, b);
      NotInRow(d, ino, row, b, d.owner[b].slot);
    }
  }

  lemma NotInRow(d: Disk, ino: nat, row: Option<nat>, b: nat, s: Slot)
    requires (row.Some? ==> row.value < PTRS) && PtrAt(d, ino, IxSlot(row)) == None && ValidSlot(s)
             && PtrAt(d, ino, s) == Some(b)
    ensures !(Base(row) <= Rank(s) < Base(row) + 65)
  {
    hide PtrAt, Rank, Base;
    if Base(row) <= Rank(s) < Base(row) + 65 {
      var i := InRow(row, s);
      if s == EntrySlot(row, i) && i < PTRS {
        EntryParent(d, ino, row, i);
        PtrViaParent(d, ino, s);
        NoneNoChildren(d);
      }
    }
  }

  /** The slots between two bases: the entries of the index block and the block itself. */
  lemma InRow(row: Option<nat>, s: Slot) returns (i: nat)
    requires (row.Some? ==> row.value < PTRS) && ValidSlot(s) && Base(row) <= Rank(s) < Base(row) + 65
    ensures s == IxSlot(row) || (i < PTRS && s == EntrySlot(row, i))
  {
    i := Rank(s) - Base(row);
    RanksOf(row, i);
    if i < PTRS { RankInjective(s, EntrySlot(row, i)); } else { RankInjective(s, IxSlot(row)); }
  }

  lemma FreedSkipDouble(d: Disk, ino: nat)
    requires Owned(d) && ino < INODES && PtrAt(d, ino, DoubleIx) == None
    ensures FreedTo(d, ino, RANKS) == FreedTo(d, ino, 73)
  {
    forall b | b in d.owner && d.owner[b].ino == ino && 73 <= Rank(d.owner[b].slot) < RANKS
      ensures false
    {
      OwnedSlotValid(d, b);
      var s := d.owner[b].slot;
      if s.RowIx? || s.Row? { PtrViaParent(d, ino, s); if s.Row? { PtrViaParent(d, ino, RowIx(s.k)); } }
    }
  }

  // ---------------------------------------------------------------- the state in between

  /** The blocks of s given back: bits cleared, counted, zeroed. */
  ghost function GivenBack(d: Disk, s: set<nat>): Disk {
    Disk(d.freeBlocks + |s|, d.freeInodes, d.used - s, d.inodes, ZeroedIn(d.blocks, s), d.owner)
  }

  function GivenBackOne(d: Disk, b: nat): Disk
    requires b < DATA_BLOCKS_NUM
  {
    d.(used := d.used - {b}, freeBlocks := d.freeBlocks + 1, blocks := d.blocks[b := Zeroed])
  }

  lemma GivenBackNone(d: Disk)
    ensures GivenBack(d, {}) == d
  {
    assert GivenBack(d, {}).blocks == d.blocks;
    assert d.used - {} == d.used;
  }

  lemma GivenBackMore(d: Disk, s: set<nat>, b: nat)
    requires b < DATA_BLOCKS_NUM && b !in s
    ensures GivenBackOne(GivenBack(d, s), b) == GivenBack(d, s + {b})
  {
    assert GivenBackOne(GivenBack(d, s), b).blocks == GivenBack(d, s + {b}).blocks;
    assert d.used - s - {b} == d.used - (s + {b});
  }

  lemma GivenBackKeeps(d: Disk, s: set<nat>, b: nat)
    requires b !in s
    ensures BlockAt(GivenBack(d, s), b) == BlockAt(d, b) && GivenBack(d, s).inodes == d.inodes
  {
  }

  /** The three lines the source repeats: clear the bit, zero the block, count it. */
  method ClearBlock(disk: RamDisk, b: nat)
    requires disk.Shape() && b < DATA_BLOCKS_NUM
    modifies disk`freeBlocks, disk.bitmap, disk.blocks
    ensures disk.Shape() && disk.View() == GivenBackOne(old(disk.View()), b)
  {
    ghost var bs := disk.blocks[..];
    var r := ClearBitmap(disk.bitmap, b);
    disk.blocks[b] := Zeroed;
    disk.freeBlocks := disk.freeBlocks + 1;
    assert disk.blocks[..] == bs[b := Zeroed];
  }

  /** All slots of rank below r are done. */
  ghost predicate Swept(d: Disk, d': Disk, ino: nat, r: nat) {
    d' == GivenBack(d, FreedTo(d, ino, r))
  }

  /** Clear the block of the slot that is next, if it has one. */
  method SweepSlot(disk: RamDisk, p: Ptr, ghost d: Disk, ghost ino: nat, ghost s: Slot)
    requires disk.Shape() && Owned(d) && ino < INODES && ValidSlot(s) && p == PtrAt(d, ino, s)
    requires Swept(d, disk.View(), ino, Rank(s))
    modifies disk`freeBlocks, disk.bitmap, disk.blocks
    ensures disk.Shape() && Swept(d, disk.View(), ino, Rank(s) + 1)
  {
    hide PtrAt, Rank, FreedTo, Owned, GivenBack, GivenBackOne, Used;
    FreedStep(d, ino, s);
    if p != None {
      GivenBackMore(d, FreedTo(d, ino, Rank(s)), p.value);
      ClearBlock(disk, p.value);
    } else {
      assert FreedTo(d, ino, Rank(s)) + {} == FreedTo(d, ino, Rank(s));
    }
  }

  lemma SweptStart(d: Disk, ino: nat)
    ensures Swept(d, d, ino, 0)
  {
    GivenBackNone(d);
    assert FreedTo(d, ino, 0) == {};
  }

  /** An index block is untouched until its own turn. */
  lemma IndexIntact(d: Disk, d': Disk, ino: nat, row: Option<nat>, x: nat, i: nat)
    requires Owned(d) && ino < INODES && (row.Some? ==> row.value < PTRS) && i <= PTRS
    requires PtrAt(d, ino, IxSlot(row)) == Some(x) && Swept(d, d', ino, Base(row) + i)
    ensures x < DATA_BLOCKS_NUM && BlockAt(d', x) == BlockAt(d, x) && !BlockAt(d, x).Bytes? && !BlockAt(d, x).Entries?
    ensures d'.inodes == d.inodes
    ensures i < PTRS ==> PtrsOf(BlockAt(d, x))[i] == PtrAt(d, ino, EntrySlot(row, i))
  {
    OwnerOf(d, ino, IxSlot(row));
    RanksOf(row, 0);
    if i < PTRS { PtrViaParent(d, ino, EntrySlot(row, i)); EntryParent(d, ino, row, i); }
    hide PtrAt, GivenBack;
    GivenBackKeeps(d, FreedTo(d, ino, Base(row) + i), x);
    assert RoleOk(d, x, d.owner[x]);
  }

  lemma EntryParent(d: Disk, ino: nat, row: Option<nat>, i: nat)
    requires i < PTRS
    ensures Parent(d, ino, EntrySlot(row, i)) == PtrAt(d, ino, IxSlot(row)) && IndexIn(EntrySlot(row, i)) == i
  {
  }

  /** clear_inode_single_indirect on index block x: its entries, then itself. */
  method ClearIndexBlock(disk: RamDisk, x: nat, ghost d: Disk, ghost ino: nat, ghost row: Option<nat>)
    requires disk.Shape() && Owned(d) && ino < INODES && (row.Some? ==> row.value < PTRS)
    requires PtrAt(d, ino, IxSlot(row)) == Some(x) && Swept(d, disk.View(), ino, Base(row))
    modifies disk`freeBlocks, disk.bitmap, disk.blocks
    ensures disk.Shape() && Swept(d, disk.View(), ino, Base(row) + 65)
  {
    hide PtrAt, Rank, FreedTo, Owned, GivenBack, Used, Swept;
    var i: nat := 0;
    IndexIntact(d, disk.View(), ino, row, x, 0);
    while i < PTRS
      invariant i <= PTRS && x < DATA_BLOCKS_NUM
      invariant disk.Shape() && Swept(d, disk.View(), ino, Base(row) + i)
    {
      IndexIntact(d, disk.View(), ino, row, x, i);
      RanksOf(row, i);
      SweepSlot(disk, disk.PtrsIn(x)[i], d, ino, EntrySlot(row, i));
      i := i + 1;
    }
    RanksOf(row, 0);
    SweepSlot(disk, Some(x), d, ino, IxSlot(row));
  }

  /** clear_inode_double_indirect: the rows, then the block itself. */
  method ClearDoubleBlock(disk: RamDisk, x: nat, ghost d: Disk, ghost ino: nat)
    requires disk.Shape() && Owned(d) && ino < INODES
    requires PtrAt(d, ino, DoubleIx) == Some(x) && Swept(d, disk.View(), ino, 73)
    modifies disk`freeBlocks, disk.bitmap, disk.blocks
    ensures disk.Shape() && Swept(d, disk.View(), ino, RANKS)
  {
    hide PtrAt, FreedTo, Owned, GivenBack, Used, Swept;
    var k: nat := 0;
    DoubleIntact(d, disk.View(), ino, x, 0);
    while k < PTRS
      invariant k <= PTRS && x < DATA_BLOCKS_NUM
      invariant disk.Shape() && Swept(d, disk.View(), ino, 73 + 65 * k)
    {
      DoubleIntact(d, disk.View(), ino, x, k);
      var p := disk.PtrsIn(x)[k];
      if p != None {
        ClearIndexBlock(disk, p.value, d, ino, Some(k));
      } else {
        SweptSkip(d, disk.View(), ino, Some(k));
      }
      k := k + 1;
    }
    SweepSlot(disk, Some(x), d, ino, DoubleIx);
  }

  lemma SweptSkip(d: Disk, d': Disk, ino: nat, row: Option<nat>)
    requires Owned(d) && ino < INODES && (row.Some? ==> row.value < PTRS) && PtrAt(d, ino, IxSlot(row)) == None
    requires Swept(d, d', ino, Base(row))
    ensures Swept(d, d', ino, Base(row) + 65)
  {
    FreedSkip(d, ino, row);
  }

  lemma DoubleIntact(d: Disk, d': Disk, ino: nat, x: nat, k: nat)
    requires Owned(d) && ino < INODES && k <= PTRS
    requires PtrAt(d, ino, DoubleIx) == Some(x) && Swept(d, d', ino, 73 + 65 * k)
    ensures x < DATA_BLOCKS_NUM && BlockAt(d', x) == BlockAt(d, x) && !BlockAt(d, x).Bytes? && !BlockAt(d, x).Entries?
    ensures k < PTRS ==> PtrsOf(BlockAt(d, x))[k] == PtrAt(d, ino, RowIx(k))
  {
    OwnerOf(d, ino, DoubleIx);
    if k < PTRS { PtrViaParent(d, ino, RowIx(k)); }
    hide PtrAt, GivenBack;
    GivenBackKeeps(d, FreedTo(d, ino, 73 + 65 * k), x);
    assert RoleOk(d, x, d.owner[x]);
  }

  /** my_clear_inode. Afterwards exactly the blocks of the tree are given back, each counted once. */
  method MyClearInode(disk: RamDisk, ino: nat)
    requires disk.Valid() && ino < INODES
    modifies disk`freeBlocks, disk.bitmap, disk.blocks
    ensures disk.Shape() && disk.View() == GivenBack(old(disk.View()), Owns(old(disk.View()), ino))
  {
    hide PtrAt, FreedTo, Owned, GivenBack, Used, Swept;
    ghost var d := disk.View();
    SweptStart(d, ino);
    var i: nat := 0;
    while i < DIRECT
      invariant i <= DIRECT && disk.Shape() && Swept(d, disk.View(), ino, i)
    {
      SweptInodes(d, disk.View(), ino, i);
      DirectPtr(d, ino, i);
      SweepSlot(disk, disk.inodes[ino].direct[i], d, ino, Direct(i));
      i := i + 1;
    }
    SweptInodes(d, disk.View(), ino, 8);
    Path(d, ino, SingleIx);
    if disk.inodes[ino].single != None {
      ClearIndexBlock(disk, disk.inodes[ino].single.value, d, ino, None);
    } else {
      SweptSkip(d, disk.View(), ino, None);
    }
    SweptInodes(d, disk.View(), ino, 73);
    if disk.inodes[ino].double != None {
      ClearDoubleBlock(disk, disk.inodes[ino].double.value, d, ino);
    } else {
      SweptNoDouble(d, disk.View(), ino);
    }
    SweptAll(d, disk.View(), ino);
  }

  lemma DirectPtr(d: Disk, ino: nat, i: nat)
    requires ino < INODES && i < DIRECT
    ensures PtrAt(d, ino, Direct(i)) == d.inodes[ino].direct[i]
  {
  }

  lemma SweptInodes(d: Disk, d': Disk, ino: nat, r: nat)
    requires Swept(d, d', ino, r)
    ensures d'.inodes == d.inodes
  {
  }

  lemma SweptNoDouble(d: Disk, d': Disk, ino: nat)
    requires Owned(d) && ino < INODES && PtrAt(d, ino, DoubleIx) == None && Swept(d, d', ino, 73)
    ensures Swept(d, d', ino, RANKS)
  {
    FreedSkipDouble(d, ino);
  }

  lemma SweptAll(d: Disk, d': Disk, ino: nat)
    requires Owned(d) && Swept(d, d', ino, RANKS)
    ensures d' == GivenBack(d, Owns(d, ino))
  {
    FreedAll(d, ino);
  }

  // ---------------------------------------------------------------- the inode is gone

  /** Nobody else notices. */
  lemma RemovedOthers(d: Disk, ino: nat)
    requires ino < INODES
    ensures FileSteps.Others(d, Removed(d, ino), ino)
  {
  }

  lemma RemovedNoPtr(d: Disk, ino: nat, t: Slot)
    requires ino < INODES
    ensures PtrAt(Removed(d, ino), ino, t) == None
  {
  }

  lemma RemovedPtr(d: Disk, ino: nat, i: nat, t: Slot)
    requires Owned(d) && ino < INODES
    ensures PtrAt(Removed(d, ino), i, t) == if i == ino then None else PtrAt(d, i, t)
    ensures i != ino && PtrAt(d, i, t).Some? ==>
            BlockAt(Removed(d, ino), PtrAt(d, i, t).value) == BlockAt(d, PtrAt(d, i, t).value)
  {
    hide Owned, Removed, PtrAt;
    if i == ino {
      RemovedNoPtr(d, ino, t);
    } else if i < INODES {
      RemovedOthers(d, ino);
      FileSteps.OthersMean(d, Removed(d, ino), ino, i, t);
    } else {
      NoSuchInode(d, i, t);
      NoSuchInode(Removed(d, ino), i, t);
    }
  }

  lemma NoSuchInode(d: Disk, i: nat, t: Slot)
    requires i >= INODES
    ensures PtrAt(d, i, t) == None
  {
  }

  lemma RemovedFields(d: Disk, ino: nat)
    requires ino < INODES
    ensures var d' := Removed(d, ino);
            && d'.owner == d.owner - Owns(d, ino)
            && d'.used == d.used - Owns(d, ino) && d'.freeBlocks == d.freeBlocks + |Owns(d, ino)|
            && d'.inodes == d.inodes[ino := NO_INODE] && d'.freeInodes == d.freeInodes + 1
  {
  }

  lemma RemovedOwned(d: Disk, ino: nat)
    requires Owned(d) && ino < INODES
    ensures Owned(Removed(d, ino))
  {
    hide PtrAt, Removed;
    var d' := Removed(d, ino);
    RemovedFields(d, ino);
    forall i, t ensures PtrAt(d', i, t) == if i == ino then None else PtrAt(d, i, t) { RemovedPtr(d, ino, i, t); }
    forall b | b in d'.owner ensures d'.owner[b].ino < INODES && RoleOk(d', b, d'.owner[b]) {
      RemovedPtr(d, ino, d.owner[b].ino, d.owner[b].slot);
      assert RoleOk(d, b, d.owner[b]);
    }
  }

  /** Blocks are conserved: the counter grows by exactly as many blocks as bits are cleared. */
  lemma RemovedConserves(d: Disk, ino: nat)
    requires Owned(d) && ino < INODES
    ensures Removed(d, ino).freeBlocks + |Removed(d, ino).used| == d.freeBlocks + |d.used|
    ensures Removed(d, ino).used == d.used - Owns(d, ino) && Owns(d, ino) <= d.used
  {
    hide PtrAt, Removed;
    RemovedFields(d, ino);
    assert |d.used - Owns(d, ino)| == |d.used| - |Owns(d, ino)|;
  }

  lemma RemovedSound(d: Disk, ino: nat)
    requires Sound(d) && ino < INODES
    ensures Sound(Removed(d, ino))
  {
    hide Owned, Removed;
    RemovedOwned(d, ino);
    RemovedConserves(d, ino);
  }

  /** my_clear_inode followed by the memset of the inode and the count of free inodes. */
  method RemoveInode(disk: RamDisk, ino: nat)
    requires disk.Valid() && ino < INODES
    modifies disk`freeBlocks, disk`freeInodes, disk`owner, disk.bitmap, disk.blocks, disk.inodes
    ensures disk.Valid() && disk.View() == Removed(old(disk.View()), ino)
  {
    hide Owned, Owns, Used;
    ghost var d, ns := disk.View(), disk.inodes[..];
    MyClearInode(disk, ino);
    disk.inodes[ino] := NO_INODE;
    disk.freeInodes := disk.freeInodes + 1;
    disk.owner := disk.owner - Owns(d, ino);
    assert disk.inodes[..] == ns[ino := NO_INODE];
    RemovedSound(d, ino);
  }

  // ---------------------------------------------------------------- counting a tree

  function Min(x: nat, y: nat): nat { if x <= y then x else y }

  /** The number of blocks of a tree with frontier f in slots of rank below r. */
  lemma {:induction false} CountDirect(d: Disk, ino: nat, f: Frontier, i: nat)
    requires Owned(d) && ino < INODES && Shaped(d, ino, f) && i <= DIRECT
    ensures |FreedTo(d, ino, i)| == Min(i, f.leaves)
  {
    hide PtrAt, FreedTo, Owned;
    if i == 0 {
      SweptStart(d, ino);
      assert FreedTo(d, ino, 0) == {} by { FreedNone(d, ino); }
    } else {
      CountDirect(d, ino, f, i - 1);
      FreedStep(d, ino, Direct(i - 1));
      assert LeafSlot(i - 1) == Direct(i - 1);
    }
  }

  lemma FreedNone(d: Disk, ino: nat)
    ensures FreedTo(d, ino, 0) == {}
  {
  }

  /** Leaf numbers of the entries of an index block. */
  function FirstLeaf(row: Option<nat>): nat { if row == None then DIRECT else FIRST_ROW + PTRS * row.value }

  lemma EntryLeaf(row: Option<nat>, i: nat)
    requires i < PTRS && (row.Some? ==> row.value < PTRS)
    ensures FirstLeaf(row) + i < LEAVES && LeafSlot(FirstLeaf(row) + i) == EntrySlot(row, i)
  {
    if row.Some? { RowLeaf(row.value, i); }
  }

  lemma {:induction false} CountEntries(d: Disk, ino: nat, f: Frontier, row: Option<nat>, i: nat, before: nat)
    requires Owned(d) && ino < INODES && Shaped(d, ino, f) && i <= PTRS && (row.Some? ==> row.value < PTRS)
    requires |FreedTo(d, ino, Base(row))| == Min(FirstLeaf(row), f.leaves) + before
    ensures |FreedTo(d, ino, Base(row) + i)| == Min(FirstLeaf(row) + i, f.leaves) + before
  {
    hide PtrAt, FreedTo, Owned, Rank, LeafSlot;
    if i > 0 {
      CountEntries(d, ino, f, row, i - 1, before);
      EntryLeaf(row, i - 1);
      RanksOf(row, i - 1);
      FreedStep(d, ino, EntrySlot(row, i - 1));
    }
  }

  lemma CountIndex(d: Disk, ino: nat, f: Frontier, row: Option<nat>, before: nat)
    requires Owned(d) && ino < INODES && Shaped(d, ino, f) && (row.Some? ==> row.value < PTRS)
    requires |FreedTo(d, ino, Base(row))| == Min(FirstLeaf(row), f.leaves) + before
    ensures |FreedTo(d, ino, Base(row) + 65)| ==
            Min(FirstLeaf(row) + PTRS, f.leaves) + before + if PtrAt(d, ino, IxSlot(row)).Some? then 1 else 0
  {
    hide PtrAt, FreedTo, Owned, Rank, LeafSlot;
    CountEntries(d, ino, f, row, PTRS, before);
    RanksOf(row, 0);
    FreedStep(d, ino, IxSlot(row));
  }

  lemma {:induction false} CountRows(d: Disk, ino: nat, f: Frontier, k: nat)
    requires Owned(d) && ino < INODES && Shaped(d, ino, f) && k <= PTRS
    ensures |FreedTo(d, ino, 73 + 65 * k)| == Min(FIRST_ROW + PTRS * k,
            f.leaves) + (if f.single then 1 else 0) + Min(k, f.rows)
  {
    hide PtrAt, FreedTo, Owned, Rank, LeafSlot;
    if k == 0 {
      CountDirect(d, ino, f, DIRECT);
      CountIndex(d, ino, f, None, 0);
    } else {
      CountRows(d, ino, f, k - 1);
      CountIndex(d, ino, f, Some(k - 1), (if f.single then 1 else 0) + Min(k - 1, f.rows));
    }
  }

  /** A tree with frontier f owns exactly Blocks(f) blocks. */
  lemma OwnsCount(d: Disk, ino: nat, f: Frontier)
    requires Owned(d) && ino < INODES && Shaped(d, ino, f)
    ensures |Owns(d, ino)| == Blocks(f)
  {
    hide PtrAt, FreedTo, Owned, LeafSlot, Owns;
    CountRows(d, ino, f, PTRS);
    FreedStep(d, ino, DoubleIx);
    FreedAll(d, ino);
  }
}
