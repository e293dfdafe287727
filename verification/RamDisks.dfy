/** The mutable file system: the global disk structure, changed in place. */
module RamDisks {
  import opened Options
  import opened Bitmap
  import opened Disk

  /** The superblock counter never promises more than the bitmap has: it is a lower bound on the clear bits. */
  ghost predicate Counted(d: Disk) {
    d.freeBlocks + |d.used| <= DATA_BLOCKS_NUM
  }

  ghost predicate Sound(d: Disk) {
    Owned(d) && Counted(d)
  }

  lemma {:induction false} FullSet(s: set<nat>, n: nat)
    requires forall b: nat :: b < n ==> b in s
    ensures |s| >= n
  {
    if n > 0 {
      FullSet(s - {n - 1}, n - 1);
    }
  }

  /** As long as the counter is positive the search finds a block. */
  lemma CounterIsEnough(d: Disk)
    requires Counted(d) && d.freeBlocks > 0
    ensures !forall b: nat :: b < DATA_BLOCKS_NUM ==> b in d.used
  {
    if forall b: nat :: b < DATA_BLOCKS_NUM ==> b in d.used {
      FullSet(d.used, DATA_BLOCKS_NUM);
      assert false;
    }
  }

  lemma AttachedSound(d: Disk, ino: nat, s: Slot, b: nat)
    requires Sound(d) && CanAttach(d, ino, s, b)
    ensures HasParent(Taken(d, b), ino, s) && Sound(Attached(d, ino, s, b))
  {
    hide PtrAt, Owned, Attached, Taken, HasParent;
    AttachedOwned(d, ino, s, b);
    AttachedFrame(d, ino, s, b, ino);
  }

  lemma NoBits(bits: seq<bv8>)
    requires |bits| == BITMAP_BYTES && forall i :: 0 <= i < |bits| ==> bits[i] == 0
    ensures Used(bits) == {}
  {
    forall b: nat | b < DATA_BLOCKS_NUM ensures !Bit(bits, b) { assert bits[b / 8] == 0; }
  }

  class RamDisk {
    var freeBlocks: nat
    var freeInodes: nat
    const bitmap: array<bv8>
    const inodes: array<Inode>
    const blocks: array<Block>
    ghost var owner: map<nat, Place>

    ghost predicate Shape()
      reads this
    {
      && bitmap.Length == BITMAP_BYTES && inodes.Length == INODES && blocks.Length == DATA_BLOCKS_NUM
      && bitmap as object != inodes && bitmap as object != blocks && inodes as object != blocks
    }

    ghost function View(): Disk
      reads this, bitmap, inodes, blocks
      requires Shape()
    {
      Disk(freeBlocks, freeInodes, Used(bitmap[..]), inodes[..], blocks[..], owner)
    }

    ghost predicate Valid()
      reads this, bitmap, inodes, blocks
    {
      Shape() && Sound(View())
    }

    /** init_file_sys: everything zeroed, and the root directory in inode 0. */
    constructor ()
      ensures Valid() && fresh(bitmap) && fresh(inodes) && fresh(blocks)
      ensures View() == Disk(DATA_BLOCKS_NUM, INODES - 1, {}, seq(1024, _ => NO_INODE)[0 := NO_INODE.(kind := Dir)],
              seq(7931, _ => Zeroed), map[])
    {
      freeBlocks, freeInodes := DATA_BLOCKS_NUM, INODES;
      bitmap := new bv8[BITMAP_BYTES](_ => 0);
      inodes := new Inode[INODES](_ => NO_INODE);
      blocks := new Block[DATA_BLOCKS_NUM](_ => Zeroed);
      owner := map[];
      new;
      freeInodes := freeInodes - 1;
      inodes[0] := inodes[0].(kind := Dir);
      NoBits(bitmap[..]);
      assert inodes[..] == seq(1024, _ => NO_INODE)[0 := NO_INODE.(kind := Dir)];
      assert blocks[..] == seq(7931, _ => Zeroed);
    }

    /** allocate_data_block. */
    method AllocateDataBlock(b: nat)
      requires Shape() && b < DATA_BLOCKS_NUM && freeBlocks > 0
      modifies this`freeBlocks, bitmap, blocks
      ensures View() == Taken(old(View()), b)
    {
      ghost var bs := blocks[..];
      var r := SetBitmap(bitmap, b);
      freeBlocks := freeBlocks - 1;
      blocks[b] := Zeroed;
      assert blocks[..] == bs[b := Zeroed];
    }

    /** The pointers of the index block x. */
    function PtrsIn(x: nat): Index64
      requires x < blocks.Length && !blocks[x].Bytes? && !blocks[x].Entries?
      reads blocks
    {
      PtrsOf(blocks[x])
    }

    /** index_block[k] = p in block x. */
    method SetChild(x: nat, k: nat, p: Ptr)
      requires Shape() && x < DATA_BLOCKS_NUM && k < PTRS
      requires !blocks[x].Bytes? && !blocks[x].Entries?
      modifies blocks
      ensures View() == StoreChild(old(View()), x, k, p)
    {
      ghost var bs := blocks[..];
      blocks[x] := Index(PtrsIn(x)[k := p]);
      assert blocks[..] == bs[x := Index(PtrsOf(bs[x])[k := p])];
    }

    /** A pointer field of the inode itself. */
    method SetInodePtr(ino: nat, s: Slot, p: Ptr)
      requires Shape() && ino < INODES && ValidSlot(s) && !InIndexBlock(s)
      modifies inodes
      ensures View() == StorePtr(old(View()), ino, s, p)
    {
      ghost var ns := inodes[..];
      var n := inodes[ino];
      match s {
        case Direct(i) => n := n.(direct := n.direct[i := p]);
        case SingleIx => n := n.(single := p);
        case DoubleIx => n := n.(double := p);
      }
      inodes[ino] := n;
      assert inodes[..] == ns[ino := n];
    }

    /** The index block that holds slot s. */
    method ParentBlock(ino: nat, s: Slot) returns (x: nat)
      requires Valid() && ino < INODES && ValidSlot(s) && InIndexBlock(s) && HasParent(View(), ino, s)
      ensures Parent(View(), ino, s) == Some(x) && x < DATA_BLOCKS_NUM
      ensures !blocks[x].Bytes? && !blocks[x].Entries?
      decreases if s.Row? then 1 else 0
    {
      ghost var d := View();
      IndexRole(d, ino, s);
      hide Owned;
      match s {
        case Single(_) => x := inodes[ino].single.value;
        case RowIx(_) => x := inodes[ino].double.value;
        case Row(k, _) =>
          var y := ParentBlock(ino, RowIx(k));
          PtrViaParent(d, ino, RowIx(k));
          x := PtrsIn(y)[k].value;
      }
    }

    /** The pointer in slot s. */
    method GetPtr(ino: nat, s: Slot) returns (p: Ptr)
      requires Valid() && ino < INODES && ValidSlot(s) && HasParent(View(), ino, s)
      ensures p == PtrAt(View(), ino, s)
    {
      if InIndexBlock(s) {
        var x := ParentBlock(ino, s);
        PtrViaParent(View(), ino, s);
        p := PtrsIn(x)[IndexIn(s)];
      } else {
        p := if s.Direct? then inodes[ino].direct[s.i]
             else if s.SingleIx? then inodes[ino].single
             else inodes[ino].double;
      }
    }

    /** Store pointer p into slot s. */
    method SetPtr(ino: nat, s: Slot, p: Ptr)
      requires Valid() && ino < INODES && ValidSlot(s) && HasParent(View(), ino, s)
      modifies inodes, blocks
      ensures View() == StorePtr(old(View()), ino, s, p)
    {
      if InIndexBlock(s) {
        var x := ParentBlock(ino, s);
        StoreIsStoreChild(View(), ino, s, p);
        hide Owned, PtrAt, StorePtr, StoreChild;
        SetChild(x, IndexIn(s), p);
      } else {
        hide Owned, PtrAt, StorePtr;
        SetInodePtr(ino, s, p);
      }
    }

    /** The allocation pattern of every operation: find a free block, take it, store the pointer to it. */
    method NewBlockAt(ino: nat, s: Slot) returns (ok: bool, b: nat)
      requires Valid()
      requires ino < INODES && inodes[ino].kind != NoFile && ValidSlot(s)
      requires HasParent(View(), ino, s) && PtrAt(View(), ino, s) == None
      modifies this`freeBlocks, this`owner, bitmap, inodes, blocks
      ensures Valid()
      ensures ok <==> old(freeBlocks) > 0
      ensures !ok ==> View() == old(View())
      ensures ok ==> CanAttach(old(View()), ino, s, b) && HasParent(Taken(old(View()), b), ino, s)
                     && View() == Attached(old(View()), ino, s, b)
      ensures ok ==> forall c: nat :: c < b ==> c in old(View()).used
    {
      hide Owned, PtrAt, HasParent, Attached, Taken, StorePtr;
      b := 0;
      var free := GetFreeBlockNum(bitmap, freeBlocks);
      if free == -1 {
        if freeBlocks > 0 { CounterIsEnough(View()); }
        return false, 0;
      }
      b := free;
      ghost var d := View();
      TakenParent(d, ino, s, b);
      TakenOwned(d, b);
      AttachedSound(d, ino, s, b);
      AllocateDataBlock(b);
      assert Valid() by { TakenCounted(d, b); }
      SetPtr(ino, s, Some(b));
      owner := owner[b := Place(ino, s)];
      assert View() == Attached(d, ino, s, b) by { AttachedIs(d, ino, s, b); }
      ok := true;
    }
  }

  lemma IndexRole(d: Disk, ino: nat, s: Slot)
    requires Owned(d) && ino < INODES && InIndexBlock(s) && HasParent(d, ino, s)
    ensures Parent(d, ino, s).Some? && Parent(d, ino, s).value < DATA_BLOCKS_NUM
    ensures !BlockAt(d, Parent(d, ino, s).value).Bytes? && !BlockAt(d, Parent(d, ino, s).value).Entries?
    ensures s.Row? ==> HasParent(d, ino, RowIx(s.k))
  {
    assert Parent(d, ino, s).Some?;
    if s.Row? {
      PtrViaParent(d, ino, RowIx(s.k));
    }
    hide PtrAt;
    ParentIsIndex(d, ino, s);
    assert RoleOk(d, Parent(d, ino, s).value, d.owner[Parent(d, ino, s).value]);
  }

  lemma TakenCounted(d: Disk, b: nat)
    requires Sound(d) && b !in d.used && b < DATA_BLOCKS_NUM && d.freeBlocks > 0
    ensures Sound(Taken(d, b))
  {
    TakenOwned(d, b);
    hide Owned;
  }

  lemma AttachedIs(d: Disk, ino: nat, s: Slot, b: nat)
    requires CanAttach(d, ino, s, b) && HasParent(Taken(d, b), ino, s)
    ensures Attached(d, ino, s, b) == StorePtr(Taken(d, b), ino, s, Some(b)).(owner := d.owner[b := Place(ino, s)])
  {
  }
}
