/** rd_write. */
module FileWrite {
  import opened Options
  import opened Bitmap
  import opened Disk
  import opened FileData
  import opened FileSteps
  import opened RamDisks
  import opened FdTable

  /** The two structures share no memory. */
  ghost predicate Apart(disk: RamDisk, fds: Table)
    reads disk
  {
    fds.files as object != disk.bitmap && fds.files as object != disk.inodes && fds.files as object != disk.blocks
  }

  /** The file objects after k bytes went through slot h. */
  function Advanced(os: seq<FileObj>, h: nat, k: nat): seq<FileObj>
    requires h < |os|
  {
    os[h := os[h].(cursor := Plus32(os[h].cursor, k))]
  }

  lemma AdvancedNone(os: seq<FileObj>, h: nat)
    requires h < |os|
    ensures Advanced(os, h, 0) == os
  {
  }

  lemma AdvancedTwice(os: seq<FileObj>, h: nat, a: nat, b: nat)
    requires h < |os|
    ensures Advanced(Advanced(os, h, a), h, b) == Advanced(os, h, a + b)
  {
    PlusTwice(os[h].cursor, a, b);
    hide Plus32;
  }

  lemma PlusTwice(x: U32, a: nat, b: nat)
    ensures Plus32(Plus32(x, a), b) == Plus32(x, a + b)
  {
  }

  lemma OverlayMore(xs: Bytes256, o: nat, ys: seq<Byte>, c: Byte)
    requires o + |ys| + 1 <= BLOCK_SIZE
    ensures Overlay(xs, o, ys)[o + |ys| := c] == Overlay(xs, o, ys + [c])
  {
  }

  /** One byte more. */
  lemma WroteMore(d: Disk, ino: nat, b: nat, o: nat, bytes: seq<Byte>, c: Byte)
    requires ino < INODES && b < DATA_BLOCKS_NUM && o + |bytes| + 1 <= BLOCK_SIZE
    ensures var d1 := Wrote(d, ino, b, o, bytes);
            SetSize(SetBlock(d1, b, Bytes(DataOf(d1.blocks[b])[o + |bytes| := c])), ino, Plus32(d1.inodes[ino].size, 1))
            == Wrote(d, ino, b, o, bytes + [c])
  {
    OverlayMore(DataOf(d.blocks[b]), o, bytes, c);
    PlusTwice(d.inodes[ino].size, |bytes|, 1);
    hide Overlay, Plus32;
    var d1 := Wrote(d, ino, b, o, bytes);
    if bytes == [] {
      assert DataOf(d.blocks[b])[o := c] == Overlay(DataOf(d.blocks[b]), o, [c]) by {
        OverlayNone(DataOf(d.blocks[b]), o);
        OverlayMore(DataOf(d.blocks[b]), o, [], c);
      }
      assert bytes + [c] == [c];
    } else {
      assert DataOf(d1.blocks[b]) == Overlay(DataOf(d.blocks[b]), o, bytes);
    }
  }

  lemma OverlayNone(xs: Bytes256, o: nat)
    requires o <= BLOCK_SIZE
    ensures Overlay(xs, o, []) == xs
  {
  }

  /** One pass of the innermost loop that copies a byte. */
  method PutByte(disk: RamDisk, fds: Table, h: nat, ino: nat, b: nat, j: nat, c: Byte)
    requires disk.Shape() && Apart(disk, fds) && h < fds.files.Length && ino < INODES && b < DATA_BLOCKS_NUM
             && j < BLOCK_SIZE
    requires disk.blocks[b].Zeroed? || disk.blocks[b].Bytes?
    modifies disk.inodes, disk.blocks, fds.files
    ensures var d := old(disk.View());
            disk.View() == SetSize(SetBlock(d, b, Bytes(DataOf(d.blocks[b])[j := c])), ino,
                Plus32(d.inodes[ino].size, 1))
    ensures fds.files[..] == Advanced(old(fds.files[..]), h, 1)
  {
    hide Plus32;
    ghost var bs, ns := disk.blocks[..], disk.inodes[..];
    disk.blocks[b] := Bytes(DataOf(disk.blocks[b])[j := c]);
    fds.files[h] := fds.files[h].(cursor := Plus32(fds.files[h].cursor, 1));
    disk.inodes[ino] := disk.inodes[ino].(size := Plus32(disk.inodes[ino].size, 1));
    assert disk.blocks[..] == bs[b := Bytes(DataOf(bs[b])[j := c])];
    assert disk.inodes[..] == ns[ino := ns[ino].(size := Plus32(ns[ino].size, 1))];
  }

  /** k - w bytes of data were laid into block b from position o on, and counted. */
  ghost predicate FilledUp(d: Disk, os: seq<FileObj>, d': Disk, os': seq<FileObj>, h: nat, ino: nat, b: nat, o: nat,
          data: seq<Byte>, w: nat, k: nat) {
    && ino < INODES && b < DATA_BLOCKS_NUM && h < |os| && w <= k <= |data| && o + (k - w) <= BLOCK_SIZE
    && d' == Wrote(d, ino, b, o, data[w..k])
    && os' == Advanced(os, h, k - w)
    && NoZero(data[w..k])
  }

  lemma FilledUpNone(d: Disk, os: seq<FileObj>, h: nat, ino: nat, b: nat, o: nat, data: seq<Byte>, w: nat)
    requires ino < INODES && b < DATA_BLOCKS_NUM && h < |os| && w <= |data| && o <= BLOCK_SIZE
    ensures FilledUp(d, os, d, os, h, ino, b, o, data, w, w)
  {
    assert data[w..w] == [];
    AdvancedNone(os, h);
  }

  lemma FilledUpMore(d: Disk, os: seq<FileObj>, d1: Disk, os1: seq<FileObj>, h: nat, ino: nat, b: nat, o: nat,
          data: seq<Byte>, w: nat, k: nat)
    requires FilledUp(d, os, d1, os1, h, ino, b, o, data, w, k)
    requires k < |data| && data[k] != 0 && o + (k - w) < BLOCK_SIZE
    ensures var d2 := SetSize(SetBlock(d1, b, Bytes(DataOf(d1.blocks[b])[o + (k - w) := data[k]])), ino,
            Plus32(d1.inodes[ino].size, 1));
            FilledUp(d, os, d2, Advanced(os1, h, 1), h, ino, b, o, data, w, k + 1)
  {
    hide Wrote, Advanced, Plus32, SetSize, SetBlock;
    assert data[w..k] + [data[k]] == data[w..k + 1];
    WroteMore(d, ino, b, o, data[w..k], data[k]);
    AdvancedTwice(os, h, k - w, 1);
  }

  lemma FilledUpRole(d: Disk, os: seq<FileObj>, d1: Disk, os1: seq<FileObj>, h: nat, ino: nat, b: nat, o: nat,
          data: seq<Byte>, w: nat, k: nat)
    requires FilledUp(d, os, d1, os1, h, ino, b, o, data, w, k)
    requires BlockAt(d, b).Zeroed? || BlockAt(d, b).Bytes?
    ensures BlockAt(d1, b).Zeroed? || BlockAt(d1, b).Bytes?
  {
  }

  lemma LeafBlockIs(d: Disk, ino: nat, s: Slot, b: nat)
    requires Sound(d) && IsLeaf(d, ino, s, b)
    ensures b < DATA_BLOCKS_NUM && ino < INODES && (BlockAt(d, b).Zeroed? || BlockAt(d, b).Bytes?)
  {
    hide Owned, PtrAt;
    LeafOwner(d, ino, s, b);
  }

  /** The innermost loop: copy from data until the block or the request ends. A zero byte is never passed. */
  method FillBlock(disk: RamDisk, fds: Table, h: nat, ino: nat, ghost s: Slot, b: nat, o: nat, data: seq<Byte>,
          w: nat, n: nat)
    returns (w': nat)
    requires disk.Valid() && Apart(disk, fds) && h < fds.files.Length
    requires IsLeaf(disk.View(), ino, s, b) && o < BLOCK_SIZE && w < n <= |data|
    modifies disk.inodes, disk.blocks, fds.files
    ensures disk.Shape() && w <= w' <= n && w' - w <= BLOCK_SIZE - o
    ensures FilledUp(old(disk.View()), old(fds.files[..]), disk.View(), fds.files[..], h, ino, b, o, data, w, w')
    ensures w' == n || w' - w == BLOCK_SIZE - o || data[w'] == 0
  {
    hide Owned, PtrAt, Plus32, SetBlock, SetSize, Advanced, Used, Sound, IsLeaf, FilledUp, NoZero, Wrote, DataOf;
    ghost var d, os := disk.View(), fds.files[..];
    LeafBlockIs(d, ino, s, b);
    w' := w;
    var j := o;
    FilledUpNone(d, os, h, ino, b, o, data, w);
    while j < BLOCK_SIZE
      invariant o <= j <= BLOCK_SIZE && w <= w' < n && w' - w <= j - o
      invariant w' - w == j - o || data[w'] == 0
      invariant disk.Shape()
      invariant FilledUp(d, os, disk.View(), fds.files[..], h, ino, b, o, data, w, w')
    {
      if data[w'] != 0 {
        FilledUpRole(d, os, disk.View(), fds.files[..], h, ino, b, o, data, w, w');
        FilledUpMore(d, os, disk.View(), fds.files[..], h, ino, b, o, data, w, w');
        PutByte(disk, fds, h, ino, b, j, data[w']);
        w' := w' + 1;
        if w' == n {
          return;
        }
      }
      j := j + 1;
    }
  }

  /** Writing this far left the rest of the disk alone and moved size and cursor by k. */
  ghost predicate Went(d: Disk, os: seq<FileObj>, d': Disk, os': seq<FileObj>, h: nat, ino: nat, k: nat) {
    && ino < INODES && h < |os| && Kept(d, d', ino)
    && d'.inodes[ino].size == Plus32(d.inodes[ino].size, k)
    && os' == Advanced(os, h, k)
  }

  lemma WentNone(d: Disk, os: seq<FileObj>, h: nat, ino: nat)
    requires ino < INODES && h < |os|
    ensures Went(d, os, d, os, h, ino, 0)
  {
    hide Kept;
    AdvancedNone(os, h);
    KeptSame(d, ino);
  }

  lemma WentTwice(d: Disk, os: seq<FileObj>, d1: Disk, os1: seq<FileObj>, d2: Disk, os2: seq<FileObj>, h: nat,
          ino: nat, a: nat, b: nat)
    requires Went(d, os, d1, os1, h, ino, a) && Went(d1, os1, d2, os2, h, ino, b)
    ensures Went(d, os, d2, os2, h, ino, a + b)
  {
    KeptTwice(d, d1, d2, ino);
    AdvancedTwice(os, h, a, b);
    PlusTwice(d.inodes[ino].size, a, b);
    hide Kept, Advanced, Plus32;
  }

  lemma FilledUpWent(d: Disk, os: seq<FileObj>, d': Disk, os': seq<FileObj>, h: nat, ino: nat, s: Slot, b: nat, o: nat,
          data: seq<Byte>, w: nat, k: nat)
    requires Sound(d) && IsLeaf(d, ino, s, b)
    requires FilledUp(d, os, d', os', h, ino, b, o, data, w, k)
    ensures Sound(d') && Went(d, os, d', os', h, ino, k - w)
  {
    hide Owned, PtrAt, Kept, Advanced, Overlay, Plus32;
    WroteOwned(d, ino, s, b, o, data[w..k]);
    WroteKept(d, ino, s, b, o, data[w..k]);
    WroteInode(d, ino, b, o, data[w..k]);
    WroteCounters(d, ino, b, o, data[w..k]);
  }

  lemma WroteCounters(d: Disk, ino: nat, b: nat, o: nat, bytes: seq<Byte>)
    requires ino < INODES && b < DATA_BLOCKS_NUM && o + |bytes| <= BLOCK_SIZE
    ensures var d' := Wrote(d, ino, b, o, bytes); d'.freeBlocks == d.freeBlocks && d'.used == d.used
  {
  }

  /** One leaf of a write: take the block if it is not there, then fill it. */
  method WriteLeaf(disk: RamDisk, fds: Table, h: nat, ino: nat, q: nat, o: nat, data: seq<Byte>, w: nat, n: nat)
    returns (ok: bool, w': nat)
    requires disk.Valid() && Apart(disk, fds) && h < fds.files.Length
    requires ino < INODES && disk.View().inodes[ino].kind == Reg && q < LEAVES
             && HasParent(disk.View(), ino, LeafSlot(q))
    requires o < BLOCK_SIZE && w < n <= |data|
    modifies disk`freeBlocks, disk`owner, disk.bitmap, disk.inodes, disk.blocks, fds.files
    ensures disk.Valid() && w <= w' <= n && w' - w <= BLOCK_SIZE - o
    ensures Went(old(disk.View()), old(fds.files[..]), disk.View(), fds.files[..], h, ino, w' - w)
    ensures !ok ==>
            w' == w && disk.View() == old(disk.View()) && disk.freeBlocks == 0
            && PtrAt(disk.View(), ino, LeafSlot(q)) == None
    ensures ok ==> LeafWritten(old(disk.View()), disk.View(), ino, q, o, data[w..w'])
    ensures NoZero(data[w..w'])
    ensures ok ==> w' == n || w' - w == BLOCK_SIZE - o || data[w'] == 0
  {
    hide Owned, PtrAt, LeafSlot, HasParent, Kept, Advanced, LeafWritten, LeafReady, IsLeaf, Went, FilledUp, Sound;
    ghost var d, os := disk.View(), fds.files[..];
    w' := w;
    WentNone(d, os, h, ino);
    var b;
    ok, b := EnsureLeaf(disk, ino, q);
    if !ok {
      return;
    }
    ghost var d1 := disk.View();
    w' := FillBlock(disk, fds, h, ino, LeafSlot(q), b, o, data, w, n);
    LeafReadyWritten(d, d1, disk.View(), os, fds.files[..], h, ino, q, b, o, data, w, w');
  }

  /** Leaf q was there, or has just been attached. */
  ghost predicate LeafReady(d: Disk, d1: Disk, ino: nat, q: nat, b: nat) {
    && q < LEAVES
    && (d1 == d || (CanAttach(d, ino, LeafSlot(q), b) && HasParent(Taken(d, b), ino, LeafSlot(q))
       && d1 == Attached(d, ino, LeafSlot(q), b)))
  }

  /** The leaf's block, taken if need be. */
  method EnsureLeaf(disk: RamDisk, ino: nat, q: nat) returns (ok: bool, b: nat)
    requires disk.Valid()
    requires ino < INODES && disk.View().inodes[ino].kind == Reg && q < LEAVES
             && HasParent(disk.View(), ino, LeafSlot(q))
    modifies disk`freeBlocks, disk`owner, disk.bitmap, disk.inodes, disk.blocks
    ensures disk.Valid()
    ensures !ok ==>
            disk.View() == old(disk.View()) && disk.freeBlocks == 0
            && PtrAt(disk.View(), ino, LeafSlot(q)) == None
    ensures ok ==> LeafReady(old(disk.View()), disk.View(), ino, q, b) && IsLeaf(disk.View(), ino, LeafSlot(q), b)
  {
    hide Owned, PtrAt, LeafSlot, HasParent, Attached, Taken;
    ghost var d := disk.View();
    var p := disk.GetPtr(ino, LeafSlot(q));
    if p == None {
      ok, b := disk.NewBlockAt(ino, LeafSlot(q));
      if ok {
        AttachedPtr(d, ino, LeafSlot(q), b, ino, LeafSlot(q));
        AttachedFrame(d, ino, LeafSlot(q), b, ino);
      }
    } else {
      ok, b := true, p.value;
    }
  }

  lemma LeafReadyWritten(d: Disk, d1: Disk, d2: Disk, os: seq<FileObj>, os2: seq<FileObj>, h: nat, ino: nat, q: nat,
          b: nat,
                       o: nat, data: seq<Byte>, w: nat, k: nat)
    requires Sound(d) && Sound(d1) && LeafReady(d, d1, ino, q, b) && IsLeaf(d1, ino, LeafSlot(q), b)
    requires FilledUp(d1, os, d2, os2, h, ino, b, o, data, w, k)
    ensures Sound(d2) && Went(d, os, d2, os2, h, ino, k - w)
    ensures LeafWritten(d, d2, ino, q, o, data[w..k]) && NoZero(data[w..k])
  {
    hide Owned, PtrAt, LeafSlot, HasParent, Attached, Taken, Kept, Advanced, LeafWritten, CanAttach, IsLeaf, Wrote;
    FilledUpWent(d1, os, d2, os2, h, ino, LeafSlot(q), b, o, data, w, k);
    WroteIsWritten(d1, ino, q, b, o, data[w..k]);
    if d1 != d {
      AttachedThenWritten(d, ino, q, b, d2, o, data[w..k]);
      AttachedWent(d, os, h, ino, LeafSlot(q), b);
      WentTwice(d, os, d1, os, d2, os2, h, ino, 0, k - w);
    }
  }

  lemma AttachedWent(d: Disk, os: seq<FileObj>, h: nat, ino: nat, s: Slot, b: nat)
    requires Sound(d) && CanAttach(d, ino, s, b) && h < |os|
    ensures HasParent(Taken(d, b), ino, s) && Went(d, os, Attached(d, ino, s, b), os, h, ino, 0)
  {
    hide Owned, PtrAt, HasParent, Attached, Taken, Kept, Advanced, Plus32;
    AttachedKept(d, ino, s, b);
    AttachedFrame(d, ino, s, b, ino);
    AdvancedNone(os, h);
    PlusNone(d.inodes[ino].size);
  }

  lemma PlusNone(x: U32)
    ensures Plus32(x, 0) == x
  {
  }
}
