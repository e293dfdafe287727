/** What one allocation and one leaf of a write do to a file, and to everybody else: nothing. */
module FileSteps {
  import opened Options
  import Bitmap
  import opened Disk
  import opened Moves
  import opened FileData

  /** Everything that does not belong to inode ino is as before. */
  ghost predicate Others(d: Disk, d': Disk, ino: nat) {
    && (forall i :: 0 <= i < INODES && i != ino ==> d'.inodes[i] == d.inodes[i])
    && (forall c :: c in d.owner && d.owner[c].ino != ino ==>
          c in d'.owner && d'.owner[c] == d.owner[c] && BlockAt(d', c) == BlockAt(d, c))
  }

  /** And so is what kind of file ino is; a block taken is counted and marked. */
  ghost predicate Kept(d: Disk, d': Disk, ino: nat) {
    && Others(d, d', ino) && Balance(d') == Balance(d) && Evolves(d, d')
    && (ino < INODES ==> d'.inodes[ino].kind == d.inodes[ino].kind && d'.inodes[ino].access == d.inodes[ino].access)
    && d'.freeInodes == d.freeInodes
  }

  /** The blocks counted as free and those marked as used. At first these are all blocks. */
  ghost function Balance(d: Disk): nat { d.freeBlocks + |d.used| }

  lemma KeptTwice(d: Disk, d1: Disk, d2: Disk, ino: nat)
    requires Kept(d, d1, ino) && Kept(d1, d2, ino)
    ensures Kept(d, d2, ino)
  {
    hide Evolves;
    EvolvesTwice(d, d1, d2);
  }

  lemma KeptSame(d: Disk, ino: nat)
    ensures Kept(d, d, ino)
  {
    hide Evolves;
    EvolvesNot(d);
  }

  /** A file is unaffected by what happens to another one: same tree, same bytes. */
  lemma OthersMean(d: Disk, d': Disk, ino: nat, i: nat, t: Slot)
    requires Owned(d) && Others(d, d', ino) && i < INODES && i != ino
    ensures PtrAt(d', i, t) == PtrAt(d, i, t)
    ensures PtrAt(d, i, t).Some? ==> BlockAt(d', PtrAt(d, i, t).value) == BlockAt(d, PtrAt(d, i, t).value)
    decreases if t.Row? then 1 else 0
  {
    hide Others, Owned, Child;
    KeptInode(d, d', ino, i);
    if InIndexBlock(t) {
      if t.Row? { OthersMean(d, d', ino, i, RowIx(t.k)); }
      hide PtrAt;
      PtrViaParent(d, i, t);
      PtrViaParent(d', i, t);
      assert Parent(d', i, t) == Parent(d, i, t) by { KeptParent(d, d', i, t); }
      if Parent(d, i, t).Some? {
        ParentIsIndex(d, i, t);
        KeptBlock(d, d', ino, Parent(d, i, t).value);
        SameChild(d, d', Parent(d, i, t), IndexIn(t));
      } else {
        NoneNoChildren(d);
        NoneNoChildren(d');
      }
    }
    hide PtrAt;
    if PtrAt(d, i, t).Some? {
      OwnerOf(d, i, t);
      KeptBlock(d, d', ino, PtrAt(d, i, t).value);
    }
  }

  lemma KeptInode(d: Disk, d': Disk, ino: nat, i: nat)
    requires Others(d, d', ino) && i < INODES && i != ino
    ensures d'.inodes[i] == d.inodes[i]
  {
  }

  lemma KeptBlock(d: Disk, d': Disk, ino: nat, c: nat)
    requires Others(d, d', ino) && c in d.owner && d.owner[c].ino != ino
    ensures BlockAt(d', c) == BlockAt(d, c)
  {
  }

  lemma KeptParent(d: Disk, d': Disk, i: nat, t: Slot)
    requires i < INODES && d'.inodes[i] == d.inodes[i] && InIndexBlock(t)
    requires t.Row? ==> PtrAt(d', i, RowIx(t.k)) == PtrAt(d, i, RowIx(t.k))
    ensures Parent(d', i, t) == Parent(d, i, t)
  {
  }

  lemma SameChild(d: Disk, d': Disk, p: Ptr, k: nat)
    requires p.Some? && BlockAt(d', p.value) == BlockAt(d, p.value)
    ensures Child(d', p, k) == Child(d, p, k)
  {
  }

  lemma AttachedKept(d: Disk, ino: nat, s: Slot, b: nat)
    requires Owned(d) && CanAttach(d, ino, s, b)
    ensures HasParent(Taken(d, b), ino, s) && Kept(d, Attached(d, ino, s, b), ino)
  {
    hide PtrAt, Attached, Taken, HasParent, StorePtr, Evolves;
    TakenParent(d, ino, s, b);
    var d' := Attached(d, ino, s, b);
    EvolvesBy(d, Hang(ino, s, b));
    forall i | 0 <= i < INODES
           ensures d'.inodes[i].kind == d.inodes[i].kind && (i != ino ==> d'.inodes[i] == d.inodes[i]) {
      AttachedFrame(d, ino, s, b, i);
    }
    AttachedFrame(d, ino, s, b, ino);
    forall c | c in d.owner && d.owner[c].ino != ino
      ensures c in d'.owner && d'.owner[c] == d.owner[c] && BlockAt(d', c) == BlockAt(d, c)
    {
      AttachedOtherBlock(d, ino, s, b, c);
    }
  }

  lemma AttachedOtherBlock(d: Disk, ino: nat, s: Slot, b: nat, c: nat)
    requires Owned(d) && CanAttach(d, ino, s, b) && c in d.owner && d.owner[c].ino != ino
    ensures c != b && HasParent(Taken(d, b), ino, s) && BlockAt(Attached(d, ino, s, b), c) == BlockAt(d, c)
  {
    assert c != b by { hide PtrAt; }
    hide PtrAt, StorePtr, Owned;
    TakenParent(d, ino, s, b);
    TakenOwned(d, b);
    StorePtrBlocks(Taken(d, b), ino, s, Some(b), c);
    if InIndexBlock(s) && Parent(Taken(d, b), ino, s).Some? {
      ParentIsIndex(Taken(d, b), ino, s);
    }
  }

  lemma WroteKept(d: Disk, ino: nat, s: Slot, b: nat, o: nat, bytes: seq<Byte>)
    requires Owned(d) && IsLeaf(d, ino, s, b) && o + |bytes| <= BLOCK_SIZE
    ensures b < Bitmap.DATA_BLOCKS_NUM && Kept(d, Wrote(d, ino, b, o, bytes), ino)
  {
    hide PtrAt, Owned, Evolves;
    LeafOwner(d, ino, s, b);
    WroteEvolves(d, ino, s, b, o, bytes);
  }

  lemma WroteEvolves(d: Disk, ino: nat, s: Slot, b: nat, o: nat, bytes: seq<Byte>)
    requires Owned(d) && IsLeaf(d, ino, s, b) && o + |bytes| <= BLOCK_SIZE
    ensures b < Bitmap.DATA_BLOCKS_NUM && Evolves(d, Wrote(d, ino, b, o, bytes))
  {
    hide PtrAt, Owned, Evolves, Overlay;
    LeafOwner(d, ino, s, b);
    if bytes == [] {
      EvolvesNot(d);
    } else {
      var m := Fill(b, Bytes(Overlay(DataOf(d.blocks[b]), o, bytes)));
      var n := Resize(ino, Plus32(d.inodes[ino].size, |bytes|));
      EvolvesBy(d, m);
      EvolvesBy(Moved(d, m), n);
      EvolvesTwice(d, Moved(d, m), Moved(Moved(d, m), n));
    }
  }

  // ---------------------------------------------------------------- one leaf of a write

  /** Leaf q is there afterwards and carries bytes from position o on; nothing else of ino's tree moved. */
  ghost predicate LeafWritten(d: Disk, d': Disk, ino: nat, q: nat, o: nat, bytes: seq<Byte>) {
    && q < LEAVES && ino < INODES && o + |bytes| <= BLOCK_SIZE
    && (forall t :: PtrAt(d', ino, t).Some? <==> PtrAt(d, ino, t).Some? || t == LeafSlot(q))
    && (forall r, j :: 0 <= r < LEAVES && 0 <= j < BLOCK_SIZE ==>
          FByte(d', ino, r, j) == if r == q && o <= j < o + |bytes| then bytes[j - o] else FByte(d, ino, r, j))
    && d'.inodes[ino].size == Plus32(d.inodes[ino].size, |bytes|)
    && d'.inodes[ino].kind == d.inodes[ino].kind
    && d'.freeBlocks + (if PtrAt(d, ino, LeafSlot(q)).None? then 1 else 0) == d.freeBlocks
  }

  lemma WroteIsWritten(d: Disk, ino: nat, q: nat, b: nat, o: nat, bytes: seq<Byte>)
    requires Owned(d) && q < LEAVES && IsLeaf(d, ino, LeafSlot(q), b) && o + |bytes| <= BLOCK_SIZE
    ensures b < Bitmap.DATA_BLOCKS_NUM && LeafWritten(d, Wrote(d, ino, b, o, bytes), ino, q, o, bytes)
  {
    hide PtrAt, Owned, ByteIn, Overlay, LeafSlot;
    var s := LeafSlot(q);
    LeafOwner(d, ino, s, b);
    var d' := Wrote(d, ino, b, o, bytes);
    forall t ensures PtrAt(d', ino, t) == PtrAt(d, ino, t) { WrotePtr(d, ino, s, b, o, bytes, ino, t); }
    forall r, j | 0 <= r < LEAVES && 0 <= j < BLOCK_SIZE
      ensures FByte(d', ino, r, j) == if r == q && o <= j < o + |bytes| then bytes[j - o] else FByte(d, ino, r, j)
    {
      WroteByte(d, ino, s, b, o, bytes, ino, LeafSlot(r), j);
      if LeafSlot(r) == LeafSlot(q) { LeafSlotInjective(r, q); }
    }
    WroteInode(d, ino, b, o, bytes);
  }

  lemma WroteInode(d: Disk, ino: nat, b: nat, o: nat, bytes: seq<Byte>)
    requires ino < INODES && b < Bitmap.DATA_BLOCKS_NUM && o + |bytes| <= BLOCK_SIZE
    ensures var n, n' := d.inodes[ino], Wrote(d, ino, b, o, bytes).inodes[ino];
            n'.size == Plus32(n.size, |bytes|) && n'.kind == n.kind && n'.access == n.access
    ensures Wrote(d, ino, b, o, bytes).freeBlocks == d.freeBlocks
  {
  }

  /** A missing leaf was attached first. */
  lemma AttachedThenWritten(d: Disk, ino: nat, q: nat, b: nat, d2: Disk, o: nat, bytes: seq<Byte>)
    requires Owned(d) && q < LEAVES && CanAttach(d, ino, LeafSlot(q), b)
    requires HasParent(Taken(d, b), ino, LeafSlot(q))
    requires LeafWritten(Attached(d, ino, LeafSlot(q), b), d2, ino, q, o, bytes)
    ensures LeafWritten(d, d2, ino, q, o, bytes)
  {
    hide PtrAt, Owned, ByteIn, LeafSlot, Attached, Taken, HasParent;
    var s := LeafSlot(q);
    var d1 := Attached(d, ino, s, b);
    forall t ensures PtrAt(d2, ino, t).Some? <==> PtrAt(d, ino, t).Some? || t == s {
      AttachedPtr(d, ino, s, b, ino, t);
    }
    forall r, j | 0 <= r < LEAVES && 0 <= j < BLOCK_SIZE
      ensures FByte(d2, ino, r, j) == if r == q && o <= j < o + |bytes| then bytes[j - o] else FByte(d, ino, r, j)
    {
      AttachedByte(d, ino, s, b, ino, LeafSlot(r), j);
    }
    AttachedFrame(d, ino, s, b, ino);
    AttachedPtr(d, ino, s, b, ino, s);
  }

  lemma LeavesOf(q: nat, o: nat)
    requires o <= BLOCK_SIZE
    ensures Leaves(q * BLOCK_SIZE + o) == if o == 0 then q else q + 1
  {
  }

  /** Bytes that continue the text in the leaf where it ends make the text longer, and take a block
      exactly if the text ended on a block boundary. */
  lemma SettledStep(d: Disk, d': Disk, ino: nat, text: seq<Byte>, f: Frontier, q: nat, o: nat, bytes: seq<Byte>)
    requires Settled(d, ino, text, f) && LeafWritten(d, d', ino, q, o, bytes)
    requires |text| == q * BLOCK_SIZE + o && o < BLOCK_SIZE && bytes != [] && NoZero(bytes)
    ensures Settled(d', ino, text + bytes, f.(leaves := q + 1))
    ensures d'.freeBlocks + Blocks(f.(leaves := q + 1)) == d.freeBlocks + Blocks(f)
  {
    LeavesOf(q, o);
    LeavesOf(q, o + |bytes|);
    ShownStep(d, d', ino, text, q, o, bytes);
    ShapedStep(d, d', ino, f, q, o, bytes);
  }

  lemma ShownStep(d: Disk, d': Disk, ino: nat, text: seq<Byte>, q: nat, o: nat, bytes: seq<Byte>)
    requires Shows(d, ino, text) && LeafWritten(d, d', ino, q, o, bytes)
    requires |text| == q * BLOCK_SIZE + o && o < BLOCK_SIZE && NoZero(bytes)
    ensures Shows(d', ino, text + bytes)
  {
    hide FByte, PtrAt, LeafSlot;
    forall r, j | 0 <= r < LEAVES && 0 <= j < BLOCK_SIZE
      ensures FByte(d', ino, r, j) == if r * BLOCK_SIZE + j < |text + bytes| then (text + bytes)[r * BLOCK_SIZE + j]
              else 0
    {
      assert FByte(d, ino, r, j) == if r * BLOCK_SIZE + j < |text| then text[r * BLOCK_SIZE + j] else 0;
    }
  }

  lemma ShapedStep(d: Disk, d': Disk, ino: nat, f: Frontier, q: nat, o: nat, bytes: seq<Byte>)
    requires Shaped(d, ino, f) && LeafWritten(d, d', ino, q, o, bytes)
    requires f.leaves == if o == 0 then q else q + 1
    ensures Shaped(d', ino, f.(leaves := q + 1))
    ensures d'.freeBlocks + Blocks(f.(leaves := q + 1)) == d.freeBlocks + Blocks(f)
  {
    hide FByte, PtrAt;
    forall r | 0 <= r < LEAVES ensures PtrAt(d', ino, LeafSlot(r)).Some? <==> r < q + 1 {
      if LeafSlot(r) == LeafSlot(q) { LeafSlotInjective(r, q); }
    }
    hide LeafSlot;
  }

  // ---------------------------------------------------------------- an index block

  /** The frontier with the index block of slot s added. */
  function WithIndex(f: Frontier, s: Slot): Frontier
    requires IsIndex(s)
  {
    match s
    case SingleIx => f.(single := true)
    case DoubleIx => f.(double := true)
    case RowIx(k) => f.(rows := k + 1)
  }

  lemma IndexStep(d: Disk, ino: nat, s: Slot, b: nat, text: seq<Byte>, f: Frontier)
    requires Owned(d) && CanAttach(d, ino, s, b) && IsIndex(s) && Settled(d, ino, text, f)
    requires s.RowIx? ==> s.k == f.rows
    ensures HasParent(Taken(d, b), ino, s)
    ensures Settled(Attached(d, ino, s, b), ino, text, WithIndex(f, s))
    ensures Attached(d, ino, s, b).freeBlocks + Blocks(WithIndex(f, s)) == d.freeBlocks + Blocks(f)
  {
    hide PtrAt, Owned, Attached, Taken, HasParent, FByte, LeafSlot;
    TakenParent(d, ino, s, b);
    var d' := Attached(d, ino, s, b);
    AttachedFrame(d, ino, s, b, ino);
    forall r, j | 0 <= r < LEAVES && 0 <= j < BLOCK_SIZE ensures FByte(d', ino, r, j) == FByte(d, ino, r, j) {
      AttachedFByte(d, ino, s, b, r, j);
    }
    forall t ensures PtrAt(d', ino, t).Some? <==> t == s || PtrAt(d, ino, t).Some? {
      AttachedPtr(d, ino, s, b, ino, t);
    }
    IndexShape(d, d', ino, s, f);
  }

  lemma IndexShape(d: Disk, d': Disk, ino: nat, s: Slot, f: Frontier)
    requires Shaped(d, ino, f) && IsIndex(s) && ValidSlot(s) && PtrAt(d, ino, s) == None
    requires s.RowIx? ==> s.k == f.rows
    requires forall t :: PtrAt(d', ino, t).Some? <==> t == s || PtrAt(d, ino, t).Some?
    ensures Shaped(d', ino, WithIndex(f, s))
    ensures Blocks(WithIndex(f, s)) == Blocks(f) + 1
  {
    hide PtrAt;
  }

  lemma AttachedFByte(d: Disk, ino: nat, s: Slot, b: nat, r: nat, j: nat)
    requires Owned(d) && CanAttach(d, ino, s, b) && r < LEAVES && j < BLOCK_SIZE
    ensures HasParent(Taken(d, b), ino, s)
    ensures FByte(Attached(d, ino, s, b), ino, r, j) == FByte(d, ino, r, j)
  {
    hide PtrAt, Owned, Attached, Taken, HasParent, ByteIn;
    AttachedByte(d, ino, s, b, ino, LeafSlot(r), j);
  }
}
