/** Directories on the disk: the table of an inode, and how the elementary changes show in it. */
module DirTree {
  import opened Options
  import Bitmap
  import opened Disk
  import opened FileData
  import FileSteps
  import opened Directory

  /** Leaf q of an inode, read as directory entries. */
  function LeafOf(d: Disk, ino: nat, q: nat): Leaf
    requires q < LEAVES
  {
    match PtrAt(d, ino, LeafSlot(q))
    case None => None
    case Some(b) => Some(EntriesOf(BlockAt(d, b)))
  }

  function Table(d: Disk, ino: nat): DirTable {
    seq(4168, q requires 0 <= q < 4168 => LeafOf(d, ino, q))
  }

  lemma TableAt(d: Disk, ino: nat, q: nat)
    requires q < LEAVES
    ensures Table(d, ino)[q] == LeafOf(d, ino, q)
  {
  }

  /** Tables are equal if their leaves are. */
  lemma SameTable(d: Disk, ino: nat, t: DirTable)
    requires forall q :: 0 <= q < LEAVES ==> LeafOf(d, ino, q) == t[q]
    ensures Table(d, ino) == t
  {
    hide LeafOf;
  }

  /** Blocks that are marked although no pointer leads to them. */
  ghost function Strays(d: Disk): set<nat> { d.used - d.owner.Keys }

  /** No row of the double-indirect level is there. */
  ghost predicate NoRows(d: Disk, ino: nat) {
    forall k :: 0 <= k < PTRS ==> PtrAt(d, ino, RowIx(k)) == None
  }

  lemma NoRowsNoDouble(d: Disk, ino: nat)
    requires NoRows(d, ino)
    ensures NoDouble(Table(d, ino))
  {
    forall q | FIRST_ROW <= q < LEAVES ensures LeafOf(d, ino, q) == None {
      var s := LeafSlot(q);
      assert s.Row? && PtrAt(d, ino, RowIx(s.k)) == None;
      PtrViaParent(d, ino, s);
    }
  }

  /** Inodes beyond the table have no leaves. */
  lemma NoTable(d: Disk, ino: nat, q: nat)
    requires ino >= INODES && q < LEAVES
    ensures LeafOf(d, ino, q) == None
  {
  }

  /** What happens to one inode's tree does not show in another's table. */
  lemma OtherTable(d: Disk, d': Disk, ino: nat, i: nat)
    requires Owned(d) && FileSteps.Others(d, d', ino) && i != ino
    ensures Table(d', i) == Table(d, i)
  {
    hide PtrAt, Owned, FileSteps.Others, LeafSlot;
    forall q | 0 <= q < LEAVES ensures LeafOf(d', i, q) == Table(d, i)[q] {
      if i < INODES {
        FileSteps.OthersMean(d, d', ino, i, LeafSlot(q));
      } else {
        NoTable(d, i, q);
        NoTable(d', i, q);
      }
    }
    SameTable(d', i, Table(d, i));
  }

  lemma ZeroedEntries()
    ensures EntriesOf(Zeroed) == NO_ENTRIES
  {
  }

  /** An index block that is attached does not show in any table. */
  lemma IndexTable(d: Disk, ino: nat, s: Slot, b: nat, i: nat)
    requires Owned(d) && CanAttach(d, ino, s, b) && IsIndex(s)
    ensures HasParent(Taken(d, b), ino, s) && Table(Attached(d, ino, s, b), i) == Table(d, i)
  {
    hide PtrAt, Owned, Attached, Taken, HasParent, LeafSlot;
    TakenParent(d, ino, s, b);
    forall q | 0 <= q < LEAVES ensures LeafOf(Attached(d, ino, s, b), i, q) == Table(d, i)[q] {
      AttachedLeaf(d, ino, s, b, i, q);
    }
    SameTable(Attached(d, ino, s, b), i, Table(d, i));
  }

  lemma AttachedLeaf(d: Disk, ino: nat, s: Slot, b: nat, i: nat, q: nat)
    requires Owned(d) && CanAttach(d, ino, s, b) && q < LEAVES
    ensures HasParent(Taken(d, b), ino, s)
    ensures LeafOf(Attached(d, ino, s, b), i, q) == if i == ino && LeafSlot(q) == s then Some(NO_ENTRIES)
            else LeafOf(d, i, q)
  {
    hide PtrAt, Owned, Attached, Taken, HasParent;
    AttachedPtr(d, ino, s, b, i, LeafSlot(q));
    AttachedBlocks(d, ino, s, b, b);
    ZeroedEntries();
    if PtrAt(d, i, LeafSlot(q)).Some? {
      OwnerOf(d, i, LeafSlot(q));
      AttachedBlocks(d, ino, s, b, PtrAt(d, i, LeafSlot(q)).value);
    }
  }

  /** A new leaf of a directory is empty, and shows in no other place. */
  lemma LeafTable(d: Disk, ino: nat, q: nat, b: nat)
    requires Owned(d) && q < LEAVES && CanAttach(d, ino, LeafSlot(q), b)
    ensures HasParent(Taken(d, b), ino, LeafSlot(q))
    ensures Table(Attached(d, ino, LeafSlot(q), b), ino) == Table(d, ino)[q := Some(NO_ENTRIES)]
  {
    hide PtrAt, Owned, Attached, Taken, HasParent, LeafSlot;
    var s := LeafSlot(q);
    TakenParent(d, ino, s, b);
    var t := Table(d, ino)[q := Some(NO_ENTRIES)];
    forall r | 0 <= r < LEAVES ensures LeafOf(Attached(d, ino, s, b), ino, r) == t[r] {
      AttachedLeaf(d, ino, s, b, ino, r);
      if LeafSlot(r) == s { LeafSlotInjective(r, q); }
    }
    SameTable(Attached(d, ino, s, b), ino, t);
  }

  /** Rewriting an unowned block, or marking one, shows nowhere. */
  lemma UnownedTable(d: Disk, b: nat, blk: Block, i: nat)
    requires Owned(d) && b < Bitmap.DATA_BLOCKS_NUM && b !in d.owner
    ensures Table(SetBlock(d, b, blk), i) == Table(d, i)
  {
    hide PtrAt, Owned, SetBlock, LeafSlot;
    SetBlockInodes(d, b, blk);
    forall q | 0 <= q < LEAVES ensures LeafOf(SetBlock(d, b, blk), i, q) == Table(d, i)[q] {
      SetBlockPtr(d, b, blk, i, LeafSlot(q));
      if PtrAt(d, i, LeafSlot(q)).Some? { OwnerOf(d, i, LeafSlot(q)); }
    }
    SameTable(SetBlock(d, b, blk), i, Table(d, i));
  }

  lemma TakenTable(d: Disk, b: nat, i: nat)
    requires Owned(d) && b !in d.used && b < Bitmap.DATA_BLOCKS_NUM && d.freeBlocks > 0
    ensures Table(Taken(d, b), i) == Table(d, i)
  {
    hide PtrAt, Owned, LeafSlot;
    forall q | 0 <= q < LEAVES ensures LeafOf(Taken(d, b), i, q) == Table(d, i)[q] {
      TakenPtr(d, b, i, LeafSlot(q));
      if PtrAt(d, i, LeafSlot(q)).Some? { OwnerOf(d, i, LeafSlot(q)); }
    }
    SameTable(Taken(d, b), i, Table(d, i));
  }

  /** Rewriting the entries of leaf q of a directory shows in that leaf of its table only. */
  lemma EntriesTable(d: Disk, ino: nat, q: nat, b: nat, es: Entries16)
    requires Owned(d) && q < LEAVES && ino < INODES && PtrAt(d, ino, LeafSlot(q)) == Some(b)
    ensures b < Bitmap.DATA_BLOCKS_NUM && Table(SetBlock(d, b, Entries(es)), ino) == Table(d, ino)[q := Some(es)]
    ensures forall i :: i != ino ==> Table(SetBlock(d, b, Entries(es)), i) == Table(d, i)
  {
    hide PtrAt, Owned, LeafSlot;
    OwnerOf(d, ino, LeafSlot(q));
    var d' := SetBlock(d, b, Entries(es));
    forall i, r | 0 <= r < LEAVES
      ensures LeafOf(d', i, r) == if i == ino && r == q then Some(es) else LeafOf(d, i, r)
    {
      EntriesLeaf(d, ino, q, b, es, i, r);
    }
    SameTable(d', ino, Table(d, ino)[q := Some(es)]);
    forall i | i != ino ensures Table(d', i) == Table(d, i) { SameTable(d', i, Table(d, i)); }
  }

  lemma EntriesLeaf(d: Disk, ino: nat, q: nat, b: nat, es: Entries16, i: nat, r: nat)
    requires Owned(d) && q < LEAVES && r < LEAVES && ino < INODES && PtrAt(d, ino, LeafSlot(q)) == Some(b)
    ensures b < Bitmap.DATA_BLOCKS_NUM
    ensures LeafOf(SetBlock(d, b, Entries(es)), i, r) == if i == ino && r == q then Some(es) else LeafOf(d, i, r)
  {
    hide PtrAt, Owned, LeafSlot, SetBlock;
    OwnerOf(d, ino, LeafSlot(q));
    SetBlockInodes(d, b, Entries(es));
    SetBlockPtr(d, b, Entries(es), i, LeafSlot(r));
    if PtrAt(d, i, LeafSlot(r)) == Some(b) {
      NoSharing(d, Place(ino, LeafSlot(q)), Place(i, LeafSlot(r)));
      LeafSlotInjective(q, r);
    }
  }

  /** A leaf of a directory holds entries, or is still zeroed. */
  lemma DirLeafRole(d: Disk, ino: nat, s: Slot, b: nat)
    requires Owned(d) && ino < INODES && d.inodes[ino].kind == Dir && !IsIndex(s) && PtrAt(d, ino, s) == Some(b)
    ensures b in d.owner && d.owner[b] == Place(ino, s) && b < Bitmap.DATA_BLOCKS_NUM && b in d.used
    ensures BlockAt(d, b).Zeroed? || BlockAt(d, b).Entries?
  {
    hide PtrAt;
    assert RoleOk(d, b, d.owner[b]);
  }

  lemma SetEntriesOwned(d: Disk, ino: nat, s: Slot, b: nat, es: Entries16)
    requires Owned(d) && ino < INODES && d.inodes[ino].kind == Dir && ValidSlot(s) && !IsIndex(s)
             && PtrAt(d, ino, s) == Some(b)
    ensures b < Bitmap.DATA_BLOCKS_NUM && Owned(SetBlock(d, b, Entries(es)))
            && FileSteps.Others(d, SetBlock(d, b, Entries(es)), ino)
  {
    hide PtrAt, Owned;
    DirLeafRole(d, ino, s, b);
    SetBlockOwned(d, b, Entries(es));
  }
}
