/** What a regular file holds: the bytes its block tree shows, and how many blocks that takes. */
module FileData {
  import opened Options
  import Bitmap
  import opened Disk

  /** The slot of leaf number q, counting through the direct, single-indirect and double-indirect levels. */
  function LeafSlot(q: nat): (s: Slot)
    requires q < LEAVES
    ensures ValidSlot(s) && !IsIndex(s)
  {
    if q < DIRECT then Direct(q)
    else if q < FIRST_ROW then Single(q - DIRECT)
    else Row((q - FIRST_ROW) / PTRS, (q - FIRST_ROW) % PTRS)
  }

  lemma LeafSlotInjective(q: nat, r: nat)
    requires q < LEAVES && r < LEAVES && LeafSlot(q) == LeafSlot(r)
    ensures q == r
  {
  }

  lemma RowLeaf(k: nat, j: nat)
    requires k < PTRS && j < PTRS
    ensures FIRST_ROW + PTRS * k + j < LEAVES && LeafSlot(FIRST_ROW + PTRS * k + j) == Row(k, j)
  {
  }

  /** Byte j of the leaf in slot s; a missing leaf reads as zeros. */
  function ByteIn(d: Disk, ino: nat, s: Slot, j: nat): Byte
    requires j < BLOCK_SIZE
  {
    match PtrAt(d, ino, s)
    case None => 0
    case Some(b) => DataOf(BlockAt(d, b))[j]
  }

  /** Byte j of leaf q. */
  function FByte(d: Disk, ino: nat, q: nat, j: nat): Byte
    requires q < LEAVES && j < BLOCK_SIZE
  {
    ByteIn(d, ino, LeafSlot(q), j)
  }

  predicate NoZero(text: seq<Byte>) {
    forall i :: 0 <= i < |text| ==> text[i] != 0
  }

  /** The tree shows exactly text, from its first leaf on without gaps, and size says so. */
  ghost predicate Shows(d: Disk, ino: nat, text: seq<Byte>)
  {
    && ino < INODES && d.inodes[ino].kind == Reg
    && d.inodes[ino].size == |text| <= MAX_FILE_SIZE
    && NoZero(text)
    && (forall q, j :: 0 <= q < LEAVES && 0 <= j < BLOCK_SIZE ==>
          FByte(d, ino, q, j) == if q * BLOCK_SIZE + j < |text| then text[q * BLOCK_SIZE + j] else 0)
  }

  // ---------------------------------------------------------------- how much of the tree is there

  /** The allocated part of a tree: its first leaves, the two index blocks of the inode, the first rows. */
  datatype Frontier = Frontier(leaves: nat, single: bool, double: bool, rows: nat)

  ghost predicate Shaped(d: Disk, ino: nat, f: Frontier) {
    && (forall q :: 0 <= q < LEAVES ==> (PtrAt(d, ino, LeafSlot(q)).Some? <==> q < f.leaves))
    && (PtrAt(d, ino, SingleIx).Some? <==> f.single)
    && (PtrAt(d, ino, DoubleIx).Some? <==> f.double)
    && (forall k :: 0 <= k < PTRS ==> (PtrAt(d, ino, RowIx(k)).Some? <==> k < f.rows))
    && f.leaves <= LEAVES && f.rows <= PTRS
  }

  function Blocks(f: Frontier): nat {
    f.leaves + (if f.single then 1 else 0) + (if f.double then 1 else 0) + f.rows
  }

  /** How many blocks of BLOCK_SIZE bytes hold n bytes. */
  function Leaves(n: nat): nat { (n + BLOCK_SIZE - 1) / BLOCK_SIZE }

  /** The part of the tree that n bytes need. */
  function Needed(n: nat): Frontier {
    Frontier(Leaves(n), n > 2048, n > 18432, if n > 18432 then (n - 18432 + 16383) / 16384 else 0)
  }

  function Max(x: nat, y: nat): nat { if x >= y then x else y }

  function Join(f: Frontier, g: Frontier): Frontier {
    Frontier(Max(f.leaves, g.leaves), f.single || g.single, f.double || g.double, Max(f.rows, g.rows))
  }

  predicate Within(f: Frontier, g: Frontier) {
    f.leaves <= g.leaves && (f.single ==> g.single) && (f.double ==> g.double) && f.rows <= g.rows
  }

  lemma WithinBlocks(f: Frontier, g: Frontier)
    requires Within(f, g)
    ensures Blocks(f) <= Blocks(g)
    ensures f != g ==> Blocks(f) < Blocks(g)
  {
  }

  /** The blocks still missing before the file can hold n bytes. */
  function Missing(f: Frontier, n: nat): nat {
    WithinBlocks(f, Join(f, Needed(n)));
    Blocks(Join(f, Needed(n))) - Blocks(f)
  }

  /** A file between writes: it shows text, its leaves are exactly those the text reaches. */
  ghost predicate Settled(d: Disk, ino: nat, text: seq<Byte>, f: Frontier) {
    Shows(d, ino, text) && Shaped(d, ino, f) && f.leaves == Leaves(|text|)
  }

  // ---------------------------------------------------------------- one block of a write

  /** xs with ys laid over it from position o. */
  function Overlay(xs: Bytes256, o: nat, ys: seq<Byte>): Bytes256
    requires o + |ys| <= BLOCK_SIZE
  {
    xs[..o] + ys + xs[o + |ys|..]
  }

  /** Bytes laid into block b, and as many added to the size. Nothing at all happens for no bytes. */
  function Wrote(d: Disk, ino: nat, b: nat, o: nat, bytes: seq<Byte>): Disk
    requires ino < INODES && b < Bitmap.DATA_BLOCKS_NUM && o + |bytes| <= BLOCK_SIZE
  {
    if bytes == [] then d
    else SetSize(SetBlock(d, b, Bytes(Overlay(DataOf(d.blocks[b]), o, bytes))), ino,
        Plus32(d.inodes[ino].size, |bytes|))
  }

  /** Block b is the leaf in slot s of the regular file ino. */
  predicate IsLeaf(d: Disk, ino: nat, s: Slot, b: nat) {
    ino < INODES && d.inodes[ino].kind == Reg && ValidSlot(s) && !IsIndex(s) && PtrAt(d, ino, s) == Some(b)
  }

  lemma LeafOwner(d: Disk, ino: nat, s: Slot, b: nat)
    requires Owned(d) && IsLeaf(d, ino, s, b)
    ensures b in d.owner && d.owner[b] == Place(ino, s) && b < Bitmap.DATA_BLOCKS_NUM
    ensures BlockAt(d, b).Zeroed? || BlockAt(d, b).Bytes?
  {
    hide PtrAt;
    assert RoleOk(d, b, d.owner[b]);
  }

  lemma WroteOwned(d: Disk, ino: nat, s: Slot, b: nat, o: nat, bytes: seq<Byte>)
    requires Owned(d) && IsLeaf(d, ino, s, b) && o + |bytes| <= BLOCK_SIZE
    ensures b < Bitmap.DATA_BLOCKS_NUM && Owned(Wrote(d, ino, b, o, bytes))
  {
    hide PtrAt, Owned;
    LeafOwner(d, ino, s, b);
    if bytes != [] {
      var d1 := SetBlock(d, b, Bytes(Overlay(DataOf(d.blocks[b]), o, bytes)));
      SetBlockOwned(d, b, Bytes(Overlay(DataOf(d.blocks[b]), o, bytes)));
      SetSizeOwned(d1, ino, Plus32(d.inodes[ino].size, |bytes|));
    }
  }

  lemma WrotePtr(d: Disk, ino: nat, s: Slot, b: nat, o: nat, bytes: seq<Byte>, ino': nat, t: Slot)
    requires Owned(d) && IsLeaf(d, ino, s, b) && o + |bytes| <= BLOCK_SIZE
    ensures b < Bitmap.DATA_BLOCKS_NUM && PtrAt(Wrote(d, ino, b, o, bytes), ino', t) == PtrAt(d, ino', t)
  {
    hide PtrAt, Owned;
    LeafOwner(d, ino, s, b);
    if bytes != [] {
      var blk := Bytes(Overlay(DataOf(d.blocks[b]), o, bytes));
      SetBlockPtr(d, b, blk, ino', t);
      SetSizePtr(SetBlock(d, b, blk), ino, Plus32(d.inodes[ino].size, |bytes|), ino', t);
    }
  }

  lemma OverlayAt(xs: Bytes256, o: nat, ys: seq<Byte>, j: nat)
    requires o + |ys| <= BLOCK_SIZE && j < BLOCK_SIZE
    ensures Overlay(xs, o, ys)[j] == if o <= j < o + |ys| then ys[j - o] else xs[j]
  {
  }

  /** A write into one leaf changes the bytes it covers and no other byte of any file. */
  lemma WroteByte(d: Disk, ino: nat, s: Slot, b: nat, o: nat, bytes: seq<Byte>, ino': nat, t: Slot, j: nat)
    requires Owned(d) && IsLeaf(d, ino, s, b) && o + |bytes| <= BLOCK_SIZE && j < BLOCK_SIZE
    ensures b < Bitmap.DATA_BLOCKS_NUM
    ensures ByteIn(Wrote(d, ino, b, o, bytes), ino', t, j) ==
            if ino' == ino && t == s && o <= j < o + |bytes| then bytes[j - o] else ByteIn(d, ino', t, j)
  {
    hide PtrAt, Owned, Overlay;
    LeafOwner(d, ino, s, b);
    WrotePtr(d, ino, s, b, o, bytes, ino', t);
    OverlayAt(DataOf(d.blocks[b]), o, bytes, j);
    if PtrAt(d, ino', t) == Some(b) { NoSharing(d, Place(ino, s), Place(ino', t)); }
  }

  /** A freshly attached block adds no byte. */
  lemma AttachedByte(d: Disk, ino: nat, s: Slot, b: nat, ino': nat, t: Slot, j: nat)
    requires Owned(d) && CanAttach(d, ino, s, b) && j < BLOCK_SIZE && !IsIndex(t)
    ensures HasParent(Taken(d, b), ino, s)
    ensures ByteIn(Attached(d, ino, s, b), ino', t, j) == ByteIn(d, ino', t, j)
  {
    hide PtrAt, Owned, Attached, Taken, HasParent;
    AttachedPtr(d, ino, s, b, ino', t);
    AttachedBlocks(d, ino, s, b, b);
    if PtrAt(d, ino', t).Some? {
      var c := PtrAt(d, ino', t).value;
      OwnerOf(d, ino', t);
      AttachedBlocks(d, ino, s, b, c);
    }
  }

  lemma OwnerOf(d: Disk, ino: nat, t: Slot)
    requires Owned(d) && PtrAt(d, ino, t).Some?
    ensures var c := PtrAt(d, ino, t).value;
            c in d.owner && d.owner[c] == Place(ino, t) && c in d.used && c < Bitmap.DATA_BLOCKS_NUM
  {
  }
}
