/** get_next_entry: room for one more entry in a directory. */
module DirGrow {
  import opened Options
  import opened Bitmap
  import opened Disk
  import opened Moves
  import opened FileData
  import opened FileSteps
  import opened Directory
  import opened DirTree
  import DirSearch
  import opened RamDisks

  /** What the search for room comes to: the disk is full, the leaf is; entry j of leaf q, which is in block b; or
      entry 0 of a block b that no directory refers to. */
  datatype Where = NoSpace | Full | At(q: nat, j: nat, b: nat) | Leaked(b: nat)

  predicate FirstFree(es: Entries16, j: nat) {
    j < ENTRIES && es[j].ino == 0 && forall i :: 0 <= i < j ==> es[i].ino != 0
  }

  predicate FullBlock(es: Entries16) { forall i :: 0 <= i < ENTRIES ==> es[i].ino != 0 }

  /** A leaf that can take an entry: it has a free one, or is not there yet. */
  predicate Usable(l: Leaf) { l == None || !FullBlock(l.value) }

  /** get_next_dir_entry. */
  method GetNextDirEntry(es: Entries16) returns (j: nat)
    ensures j < ENTRIES ==> FirstFree(es, j)
    ensures j >= ENTRIES ==> j == ENTRIES && FullBlock(es)
  {
    j := 0;
    while j < ENTRIES && es[j].ino != 0
      invariant j <= ENTRIES && forall i :: 0 <= i < j ==> es[i].ino != 0
    {
      j := j + 1;
    }
  }

  /** Allocation for a directory: nothing else is touched, no pointer is lost, no size changes. */
  ghost predicate Grows(d: Disk, d': Disk, dir: nat) {
    && dir < INODES && Kept(d, d', dir) && d'.inodes[dir].size == d.inodes[dir].size
    && d'.freeBlocks <= d.freeBlocks
    && forall t :: PtrAt(d, dir, t).Some? ==> PtrAt(d', dir, t) == PtrAt(d, dir, t)
  }

  /** Slot t has got a pointer. */
  ghost predicate Gained(d: Disk, d': Disk, dir: nat, t: Slot) {
    PtrAt(d, dir, t) == None && PtrAt(d', dir, t).Some?
  }

  /** The outcome r and the directory afterwards. */
  ghost predicate Opened(d: Disk, d': Disk, dir: nat, r: Where) {
    match r
    case At(q, j, b) =>
      && q < LEAVES && PtrAt(d', dir, LeafSlot(q)) == Some(b)
      && FirstFree(BlockOf(Table(d, dir)[q]), j)
      && Table(d', dir) == Table(d, dir)[q := Some(BlockOf(Table(d, dir)[q]))]
      && Strays(d') == Strays(d)
      && forall t :: Gained(d, d', dir, t) ==> t == LeafSlot(q) || (t == SingleIx && DIRECT <= q < FIRST_ROW)
    case Leaked(b) =>
      && Table(d', dir) == Table(d, dir)
      && b < DATA_BLOCKS_NUM && b in Strays(d') && BlockAt(d', b) == Zeroed
      && forall t :: Gained(d, d', dir, t) ==> t == DoubleIx
    case _ =>
      && Table(d', dir) == Table(d, dir)
      && forall t :: Gained(d, d', dir, t) ==> t == SingleIx || t == DoubleIx
  }

  lemma GrowsTwice(d: Disk, d1: Disk, d2: Disk, dir: nat)
    requires Grows(d, d1, dir) && Grows(d1, d2, dir)
    ensures Grows(d, d2, dir)
  {
    hide PtrAt;
    KeptTwice(d, d1, d2, dir);
  }

  // ---------------------------------------------------------------- one leaf

  lemma AttachedGrows(d: Disk, dir: nat, s: Slot, b: nat)
    requires Owned(d) && CanAttach(d, dir, s, b)
    ensures HasParent(Taken(d, b), dir, s)
    ensures var d' := Attached(d, dir, s, b);
            && Grows(d, d', dir) && Strays(d') == Strays(d) && d'.freeBlocks == d.freeBlocks - 1
            && PtrAt(d', dir, s) == Some(b) && forall t :: Gained(d, d', dir, t) ==> t == s
  {
    hide Owned, PtrAt, HasParent, Attached, Taken, StorePtr, Evolves;
    AttachedKept(d, dir, s, b);
    AttachedFrame(d, dir, s, b, dir);
    forall t ensures PtrAt(Attached(d, dir, s, b), dir, t) == if t == s then Some(b) else PtrAt(d, dir, t) {
      AttachedPtr(d, dir, s, b, dir, t);
    }
  }

  /** The leaf was there and has a free entry. */
  lemma LeafThere(d: Disk, dir: nat, q: nat, b: nat, j: nat)
    requires q < LEAVES && dir < INODES && PtrAt(d, dir, LeafSlot(q)) == Some(b)
             && FirstFree(EntriesOf(BlockAt(d, b)), j)
    ensures Grows(d, d, dir) && Opened(d, d, dir, At(q, j, b))
  {
    hide PtrAt, Kept;
    KeptSame(d, dir);
    TableAt(d, dir, q);
    assert Table(d, dir) == Table(d, dir)[q := Some(BlockOf(Table(d, dir)[q]))];
  }

  /** The leaf has just been attached. */
  lemma LeafTaken(d: Disk, dir: nat, q: nat, b: nat)
    requires Owned(d) && q < LEAVES && CanAttach(d, dir, LeafSlot(q), b)
    ensures HasParent(Taken(d, b), dir, LeafSlot(q))
    ensures var d' := Attached(d, dir, LeafSlot(q), b);
            Grows(d, d', dir) && Opened(d, d', dir, At(q, 0, b)) && d'.freeBlocks == d.freeBlocks - 1
  {
    hide Owned, PtrAt, HasParent, Attached, Taken, LeafSlot, Grows;
    AttachedGrows(d, dir, LeafSlot(q), b);
    LeafTable(d, dir, q, b);
    TableAt(d, dir, q);
    assert Table(d, dir)[q] == None;
  }

  /** One leaf, allocated if need be: get_next_dir_entry_single, and one round of the direct loop. */
  method LeafEntry(disk: RamDisk, dir: nat, q: nat) returns (r: Where)
    requires disk.Valid() && dir < INODES && disk.View().inodes[dir].kind == Dir
    requires q < LEAVES && HasParent(disk.View(), dir, LeafSlot(q))
    modifies disk`freeBlocks, disk`owner, disk.bitmap, disk.inodes, disk.blocks
    ensures disk.Valid() && Grows(old(disk.View()), disk.View(), dir) && Opened(old(disk.View()), disk.View(), dir, r)
    ensures r.Full? <==> !Usable(Table(old(disk.View()), dir)[q])
    ensures r.NoSpace? <==> Table(old(disk.View()), dir)[q] == None && old(disk.freeBlocks) == 0
    ensures !r.Leaked? && (!r.At? ==> disk.View() == old(disk.View()))
    ensures r.At? ==> r.q == q && disk.freeBlocks == old(disk.freeBlocks) - if Table(old(disk.View()), dir)[q] == None
            then 1 else 0
  {
    hide Owned, PtrAt, HasParent, Attached, Taken, LeafSlot, Opened, Grows, Used, FirstFree;
    ghost var d := disk.View();
    NothingGained(d, dir);
    TableAt(d, dir, q);
    var p := disk.GetPtr(dir, LeafSlot(q));
    if p == None {
      var ok, b := disk.NewBlockAt(dir, LeafSlot(q));
      if !ok {
        return NoSpace;
      }
      LeafTaken(d, dir, q, b);
      r := At(q, 0, b);
    } else {
      DirLeafRole(d, dir, LeafSlot(q), p.value);
      var es := EntriesOf(disk.blocks[p.value]);
      var j := GetNextDirEntry(es);
      if j < ENTRIES {
        LeafThere(d, dir, q, p.value, j);
        NotFull(es, j);
        r := At(q, j, p.value);
      } else {
        r := Full;
      }
    }
  }

  lemma NotFull(es: Entries16, j: nat)
    requires FirstFree(es, j)
    ensures !FullBlock(es)
  {
  }

  lemma NothingGained(d: Disk, dir: nat)
    requires dir < INODES
    ensures Grows(d, d, dir) && Opened(d, d, dir, NoSpace) && Opened(d, d, dir, Full)
  {
    hide Kept;
    KeptSame(d, dir);
  }

  // ---------------------------------------------------------------- the direct level

  /** The first leaf from q to the end of the direct level that can take an entry. */
  function FirstUsable(t: DirTable, q: nat): (r: nat)
    requires q <= DIRECT
    ensures q <= r <= DIRECT && (r < DIRECT ==> Usable(t[r]))
    ensures forall i :: q <= i < r ==> !Usable(t[i])
    decreases DIRECT - q
  {
    if q == DIRECT || Usable(t[q]) then q else FirstUsable(t, q + 1)
  }

  lemma FirstUsableIs(t: DirTable, q: nat, r: nat)
    requires q <= r <= DIRECT && (r < DIRECT ==> Usable(t[r])) && forall i :: q <= i < r ==> !Usable(t[i])
    ensures FirstUsable(t, q) == r
  {
    hide Usable;
    var p := FirstUsable(t, q);
  }

  /** The direct blocks from seg on. Full: there is none left to look at. */
  method DirectEntry(disk: RamDisk, dir: nat, seg: nat) returns (r: Where)
    requires disk.Valid() && dir < INODES && disk.View().inodes[dir].kind == Dir
    modifies disk`freeBlocks, disk`owner, disk.bitmap, disk.inodes, disk.blocks
    ensures disk.Valid() && Grows(old(disk.View()), disk.View(), dir) && Opened(old(disk.View()), disk.View(), dir, r)
    ensures !r.Leaked? && (!r.At? ==> disk.View() == old(disk.View()))
    ensures seg >= DIRECT ==> r == Full
    ensures seg < DIRECT ==>
            var t := Table(old(disk.View()), dir);
            var q := FirstUsable(t, seg);
            if q == DIRECT then r == Full
            else if t[q] == None && old(disk.freeBlocks) == 0 then r == NoSpace
            else r.At? && r.q == q && disk.freeBlocks == old(disk.freeBlocks) - if t[q] == None then 1 else 0
  {
    hide Owned, PtrAt, Opened, Grows, Used, Table, Usable, FirstUsable;
    ghost var d := disk.View();
    ghost var t := Table(d, dir);
    NothingGained(d, dir);
    var i := seg;
    while i < DIRECT
      invariant seg <= i && (seg <= DIRECT ==> i <= DIRECT) && disk.Valid() && disk.View() == d
      invariant forall k :: seg <= k < i && k < DIRECT ==> !Usable(t[k])
    {
      DirectHasParent(d, dir, i);
      r := LeafEntry(disk, dir, i);
      if r != Full {
        FirstUsableIs(t, seg, i);
        return;
      }
      i := i + 1;
    }
    if seg <= DIRECT { FirstUsableIs(t, seg, DIRECT); }
    r := Full;
  }

  lemma DirectHasParent(d: Disk, dir: nat, i: nat)
    requires i < DIRECT
    ensures HasParent(d, dir, LeafSlot(i))
  {
  }

  // ---------------------------------------------------------------- the index blocks

  /** The single- or double-indirect block, allocated if need be. */
  method DirIndex(disk: RamDisk, dir: nat, s: Slot) returns (ok: bool)
    requires disk.Valid() && dir < INODES && disk.View().inodes[dir].kind == Dir && (s.SingleIx? || s.DoubleIx?)
    modifies disk`freeBlocks, disk`owner, disk.bitmap, disk.inodes, disk.blocks
    ensures disk.Valid() && disk.View().inodes[dir].kind == Dir && Grows(old(disk.View()), disk.View(), dir)
    ensures Table(disk.View(), dir) == Table(old(disk.View()), dir) && Strays(disk.View()) == Strays(old(disk.View()))
    ensures forall t :: Gained(old(disk.View()), disk.View(), dir, t) ==> t == s
    ensures ok <==> PtrAt(old(disk.View()), dir, s).Some? || old(disk.freeBlocks) > 0
    ensures ok ==> PtrAt(disk.View(), dir, s).Some?
    ensures !ok || PtrAt(old(disk.View()), dir, s).Some? ==> disk.View() == old(disk.View())
    ensures disk.freeBlocks == old(disk.freeBlocks) - if ok && PtrAt(old(disk.View()), dir, s) == None then 1 else 0
  {
    hide Owned, PtrAt, HasParent, Attached, Taken, Grows, Used, Table;
    ghost var d := disk.View();
    NothingGained(d, dir);
    InodeSlot(d, dir, s);
    var p := disk.GetPtr(dir, s);
    ok := true;
    if p == None {
      var b;
      ok, b := disk.NewBlockAt(dir, s);
      if ok {
        AttachedGrows(d, dir, s, b);
        IndexTable(d, dir, s, b, dir);
        AttachedFrame(d, dir, s, b, dir);
      }
    }
  }

  lemma InodeSlot(d: Disk, dir: nat, s: Slot)
    requires s.SingleIx? || s.DoubleIx?
    ensures HasParent(d, dir, s) && ValidSlot(s) && IsIndex(s)
  {
  }

  // ---------------------------------------------------------------- the double-indirect level

  /** A block that is not hung into anything. */
  method TakeBlock(disk: RamDisk) returns (ok: bool, b: nat)
    requires disk.Valid()
    modifies disk`freeBlocks, disk.bitmap, disk.blocks
    ensures disk.Valid() && (ok <==> old(disk.freeBlocks) > 0)
    ensures !ok ==> disk.View() == old(disk.View())
    ensures ok ==> b < DATA_BLOCKS_NUM && b !in old(disk.View()).used && disk.View() == Taken(old(disk.View()), b)
  {
    hide Owned, Taken;
    b := 0;
    var free := GetFreeBlockNum(disk.bitmap, disk.freeBlocks);
    if free == -1 {
      if disk.freeBlocks > 0 { CounterIsEnough(disk.View()); }
      return false, 0;
    }
    b := free;
    TakenCounted(disk.View(), b);
    disk.AllocateDataBlock(b);
    ok := true;
  }

  lemma TakenGrows(d: Disk, dir: nat, b: nat)
    requires Owned(d) && b !in d.used && b < DATA_BLOCKS_NUM && d.freeBlocks > 0 && dir < INODES
    ensures Grows(d, Taken(d, b), dir) && Table(Taken(d, b), dir) == Table(d, dir)
    ensures forall t :: !Gained(d, Taken(d, b), dir, t)
    ensures b in Strays(Taken(d, b)) && BlockAt(Taken(d, b), b) == Zeroed
  {
    hide Owned, PtrAt, Table, Kept;
    TakenKept(d, dir, b);
    forall t ensures PtrAt(Taken(d, b), dir, t) == PtrAt(d, dir, t) { TakenPtr(d, b, dir, t); }
    TakenTable(d, b, dir);
  }

  lemma TakenKept(d: Disk, dir: nat, b: nat)
    requires Owned(d) && b !in d.used && b < DATA_BLOCKS_NUM && d.freeBlocks > 0 && dir < INODES
    ensures Kept(d, Taken(d, b), dir) && Taken(d, b).inodes == d.inodes && Taken(d, b).freeBlocks <= d.freeBlocks
    ensures b in Strays(Taken(d, b)) && BlockAt(Taken(d, b), b) == Zeroed
  {
    assert b !in d.owner;
    hide Owned, PtrAt, Evolves;
    EvolvesBy(d, Take(b));
  }

  lemma StrayWritten(d: Disk, dir: nat, x: nat, blk: Block)
    requires Sound(d) && x < DATA_BLOCKS_NUM && x !in d.owner && dir < INODES
    ensures Sound(SetBlock(d, x, blk)) && Grows(d, SetBlock(d, x, blk), dir)
    ensures Table(SetBlock(d, x, blk), dir) == Table(d, dir)
    ensures Strays(SetBlock(d, x, blk)) == Strays(d)
    ensures forall t :: !Gained(d, SetBlock(d, x, blk), dir, t)
  {
    hide Owned, PtrAt, Table, Evolves;
    SetBlockOwned(d, x, blk);
    EvolvesBy(d, Fill(x, blk));
    forall t ensures PtrAt(SetBlock(d, x, blk), dir, t) == PtrAt(d, dir, t) { SetBlockPtr(d, x, blk, dir, t); }
    UnownedTable(d, x, blk, dir);
  }

  /** Index block x is taken but not stored, leaf b is taken and stored in x. */
  lemma LeakedLeaf(d: Disk, d1: Disk, d2: Disk, dir: nat, x: nat, b: nat, blk: Block)
    requires Sound(d) && dir < INODES && x !in d.used && x < DATA_BLOCKS_NUM && d.freeBlocks > 1 && d1 == Taken(d, x)
             && Sound(d1)
    requires b !in d1.used && b < DATA_BLOCKS_NUM && d2 == Taken(d1, b) && Sound(d2)
    ensures Sound(SetBlock(d2, x, blk)) && Grows(d, SetBlock(d2, x, blk), dir)
    ensures Opened(d, SetBlock(d2, x, blk), dir, Leaked(b))
  {
    TakenGrows(d, dir, x);
    TakenGrows(d1, dir, b);
    assert x !in d2.owner && b != x && d2.owner == d1.owner == d.owner;
    hide Owned, PtrAt, Table, Sound, Taken;
    StrayWritten(d2, dir, x, blk);
    SetBlockInodes(d2, x, blk);
    hide SetBlock;
    GrowsTwice(d, d1, d2, dir);
    GrowsTwice(d, d2, SetBlock(d2, x, blk), dir);
    GainedTwice(d, d1, d2, dir);
    GainedTwice(d, d2, SetBlock(d2, x, blk), dir);
  }

  lemma GainedTwice(d: Disk, d1: Disk, d2: Disk, dir: nat)
    requires Grows(d, d1, dir) && Grows(d1, d2, dir)
    ensures forall t :: Gained(d, d2, dir, t) ==> Gained(d, d1, dir, t) || Gained(d1, d2, dir, t)
  {
    hide PtrAt, Kept;
  }

  /** get_next_dir_entry_double. If the row is missing, the index block allocated for it is used but not stored. */
  method DoubleEntry(disk: RamDisk, dir: nat, q: nat) returns (r: Where)
    requires disk.Valid() && dir < INODES && disk.View().inodes[dir].kind == Dir
    requires FIRST_ROW <= q < LEAVES && PtrAt(disk.View(), dir, DoubleIx).Some?
    modifies disk`freeBlocks, disk`owner, disk.bitmap, disk.inodes, disk.blocks
    ensures disk.Valid() && Grows(old(disk.View()), disk.View(), dir) && Opened(old(disk.View()), disk.View(), dir, r)
    ensures PtrAt(old(disk.View()), dir, RowIx((q - FIRST_ROW) / PTRS)) == None ==>
            if old(disk.freeBlocks) >= 2 then r.Leaked? && disk.freeBlocks == old(disk.freeBlocks) - 2 else r == NoSpace
  {
    hide Owned, PtrAt, HasParent, Opened, Grows, Used, LeafSlot, Taken;
    ghost var d := disk.View();
    NothingGained(d, dir);
    var k, j := (q - FIRST_ROW) / PTRS, (q - FIRST_ROW) % PTRS;
    RowSlots(d, dir, q);
    var row := disk.GetPtr(dir, RowIx(k));
    if row != None {
      r := LeafEntry(disk, dir, q);
      return;
    }
    var ok, x := TakeBlock(disk);
    if !ok {
      return NoSpace;
    }
    ghost var d1 := disk.View();
    TakenGrows(d, dir, x);
    TakenCounter(d, x);
    OnlyTaken(d, d1, dir);
    var b;
    ok, b := TakeBlock(disk);
    if !ok {
      return NoSpace;
    }
    ghost var d2 := disk.View();
    TakenCounter(d1, b);
    assert BlockAt(d2, x) == Zeroed;
    LeakedLeaf(d, d1, d2, dir, x, b, Index(PtrsOf(d2.blocks[x])[j := Some(b)]));
    disk.SetChild(x, j, Some(b));
    r := Leaked(b);
  }

  lemma TakenCounter(d: Disk, b: nat)
    requires b < DATA_BLOCKS_NUM && d.freeBlocks > 0
    ensures Taken(d, b).freeBlocks == d.freeBlocks - 1
    ensures forall c :: BlockAt(Taken(d, b), c) == if c == b then Zeroed else BlockAt(d, c)
    ensures b in Taken(d, b).used
  {
  }

  lemma OnlyTaken(d: Disk, d1: Disk, dir: nat)
    requires Table(d1, dir) == Table(d, dir) && forall t :: !Gained(d, d1, dir, t)
    ensures Opened(d, d1, dir, NoSpace)
  {
    hide PtrAt, Table;
  }

  lemma RowSlots(d: Disk, dir: nat, q: nat)
    requires FIRST_ROW <= q < LEAVES && PtrAt(d, dir, DoubleIx).Some?
    ensures HasParent(d, dir, RowIx((q - FIRST_ROW) / PTRS)) && (q - FIRST_ROW) / PTRS < PTRS
    ensures PtrAt(d, dir, RowIx((q - FIRST_ROW) / PTRS)).Some? ==> HasParent(d, dir, LeafSlot(q))
  {
    hide PtrAt;
  }

  // ---------------------------------------------------------------- all levels

  /** The leaf the search for room settles on, given the number of entries' worth of size, in blocks; LEAVES if there is
      none. A directory whose direct leaves from seg on are full gets no further entry, even with free blocks and
      leaves. */
  function Wanted(t: DirTable, seg: nat): (q: nat)
    ensures q <= LEAVES
  {
    if seg < DIRECT then var q := FirstUsable(t, seg); if q < DIRECT then q else LEAVES
    else if seg < FIRST_ROW && !Usable(t[seg]) then FIRST_ROW
    else if seg < LEAVES then seg else LEAVES
  }

  function One(b: bool): nat { if b then 1 else 0 }

  /** The blocks an entry in leaf q takes. */
  function Needs(d: Disk, dir: nat, q: nat): nat
    requires q < LEAVES
  {
    One(DIRECT <= q < FIRST_ROW && PtrAt(d, dir, SingleIx) == None)
    + One(FIRST_ROW <= q && PtrAt(d, dir, DoubleIx) == None)
    + One(FIRST_ROW <= q && PtrAt(d, dir, RowIx((q - FIRST_ROW) / PTRS)) == None)
    + One(Table(d, dir)[q] == None)
  }

  function Goal(d: Disk, dir: nat): nat
    requires dir < INODES
  {
    Wanted(Table(d, dir), d.inodes[dir].size / BLOCK_SIZE)
  }

  /** The entry at w is the one the search for room settles on, and it is linked in exactly if that lies in front of the
      double-indirect level. */
  predicate Aimed(d: Disk, dir: nat, w: Where)
    requires dir < INODES
  {
    if w.At? then w.q == Goal(d, dir) < FIRST_ROW else Goal(d, dir) >= FIRST_ROW
  }

  /** There is a leaf for one more entry, and the blocks for it. */
  predicate Room(d: Disk, dir: nat)
    requires dir < INODES
  {
    Goal(d, dir) < LEAVES && d.freeBlocks >= Needs(d, dir, Goal(d, dir))
  }

  /** A leaf where one more entry can go: it is not there yet, or one of its entries is free. */
  predicate Takes(l: Leaf) { l == None || exists j :: 0 <= j < ENTRIES && l.value[j].ino == 0 }

  lemma TakesIff(l: Leaf)
    ensures Usable(l) <==> Takes(l)
  {
  }

  /** Room in a directory whose size lies in the direct blocks: one of them, from there on, can take an entry, and the
      lowest such leaf gets it. */
  lemma DirectRoomIff(d: Disk, dir: nat)
    requires dir < INODES && d.inodes[dir].size / BLOCK_SIZE < DIRECT && d.freeBlocks > 0
    ensures var t, seg := Table(d, dir), d.inodes[dir].size / BLOCK_SIZE;
            && (Room(d, dir) <==> exists q :: seg <= q < DIRECT && Takes(t[q]))
            && (Room(d, dir) ==>
                 seg <= Goal(d, dir) < DIRECT && Takes(t[Goal(d, dir)])
                 && forall q :: seg <= q < Goal(d, dir) ==> !Takes(t[q]))
  {
    hide Table, PtrAt, Usable, Takes;
    var t, seg := Table(d, dir), d.inodes[dir].size / BLOCK_SIZE;
    forall q | 0 <= q < LEAVES ensures Usable(t[q]) <==> Takes(t[q]) { TakesIff(t[q]); }
    var q := FirstUsable(t, seg);
    hide FirstUsable;
    if q < DIRECT { LowNeeds(d, dir, q); }
  }

  /** In the single-indirect blocks: the leaf of the size can take an entry, and the blocks it takes to get there are
      counted free. If it cannot, the entry goes to the double-indirect level, where it is lost; so it does for a size
      that lies there, and beyond that there is no room. */
  lemma FarRoomIff(d: Disk, dir: nat)
    requires dir < INODES && d.inodes[dir].size / BLOCK_SIZE >= DIRECT && NoRows(d, dir)
    ensures var t, seg := Table(d, dir), d.inodes[dir].size / BLOCK_SIZE;
            var here := seg < FIRST_ROW && Takes(t[seg]);
            && (here ==>
                 && Goal(d, dir) == seg
                 && (Room(d, dir) <==>
                    d.freeBlocks >= (if PtrAt(d, dir, SingleIx) == None then 1 else 0)
                                    + if t[seg] == None then 1 else 0))
            && (!here && seg < LEAVES ==>
                 && Goal(d, dir) >= FIRST_ROW
                 && (Room(d, dir) <==> d.freeBlocks >= 2 + if PtrAt(d, dir, DoubleIx) == None then 1 else 0))
            && (seg >= LEAVES ==> !Room(d, dir))
  {
    hide Table, PtrAt, Usable, Takes, NoRows;
    var t, seg := Table(d, dir), d.inodes[dir].size / BLOCK_SIZE;
    if seg < FIRST_ROW {
      TakesIff(t[seg]);
      LowNeeds(d, dir, seg);
    }
    if FIRST_ROW <= Goal(d, dir) < LEAVES { DoubleNeeds(d, dir, Goal(d, dir)); }
  }

  lemma DoubleNeeds(d: Disk, dir: nat, q: nat)
    requires NoRows(d, dir) && FIRST_ROW <= q < LEAVES
    ensures Needs(d, dir, q) == 2 + One(PtrAt(d, dir, DoubleIx) == None)
    ensures PtrAt(d, dir, RowIx((q - FIRST_ROW) / PTRS)) == None
  {
    NoRowsNoDouble(d, dir);
    hide PtrAt, Table;
    assert PtrAt(d, dir, RowIx((q - FIRST_ROW) / PTRS)) == None;
  }

  lemma AfterIndex(d: Disk, d1: Disk, d2: Disk, dir: nat, s: Slot, r: Where)
    requires Grows(d, d1, dir) && Grows(d1, d2, dir) && Table(d1, dir) == Table(d, dir) && Strays(d1) == Strays(d)
    requires (forall t :: Gained(d, d1, dir, t) ==> t == s) && Opened(d1, d2, dir, r)
    requires (s == SingleIx && r.At? && DIRECT <= r.q < FIRST_ROW) || (s == SingleIx && (r.Full? || r.NoSpace?))
             || (s == DoubleIx && !r.At?)
    ensures Opened(d, d2, dir, r) && Grows(d, d2, dir)
  {
    hide PtrAt, Table, Grows, Gained, Strays, LeafSlot, BlockAt;
    GrowsTwice(d, d1, d2, dir);
    GainedTwice(d, d1, d2, dir);
  }

  lemma GainedRow(d: Disk, d1: Disk, dir: nat, s: Slot)
    requires NoRows(d, dir) && !s.RowIx? && forall t :: Gained(d, d1, dir, t) ==> t == s
    ensures NoRows(d1, dir)
  {
    hide PtrAt;
    forall k | 0 <= k < PTRS ensures PtrAt(d1, dir, RowIx(k)) == None {
      assert !Gained(d, d1, dir, RowIx(k));
    }
  }

  /** The part of get_next_entry behind the single-indirect level. */
  method DoubleLevel(disk: RamDisk, dir: nat, q: nat) returns (r: Where)
    requires disk.Valid() && dir < INODES && disk.View().inodes[dir].kind == Dir
    requires FIRST_ROW <= q < LEAVES && NoRows(disk.View(), dir)
    modifies disk`freeBlocks, disk`owner, disk.bitmap, disk.inodes, disk.blocks
    ensures disk.Valid() && Grows(old(disk.View()), disk.View(), dir) && Opened(old(disk.View()), disk.View(), dir, r)
    ensures r.Leaked? || r.NoSpace?
    ensures r.Leaked? <==> old(disk.freeBlocks) >= Needs(old(disk.View()), dir, q)
    ensures r.Leaked? ==> disk.freeBlocks == old(disk.freeBlocks) - Needs(old(disk.View()), dir, q)
  {
    hide Owned, PtrAt, Opened, Grows, Used, Table, NoRows, Strays;
    ghost var d := disk.View();
    DoubleNeeds(d, dir, q);
    var ok := DirIndex(disk, dir, DoubleIx);
    ghost var d1 := disk.View();
    if !ok {
      NothingGained(d, dir);
      return NoSpace;
    }
    GainedRow(d, d1, dir, DoubleIx);
    DoubleNeeds(d1, dir, q);
    r := DoubleEntry(disk, dir, q);
    AfterIndex(d, d1, disk.View(), dir, DoubleIx, r);
  }

  lemma LowNeeds(d: Disk, dir: nat, q: nat)
    requires q < FIRST_ROW
    ensures Needs(d, dir, q) == One(DIRECT <= q && PtrAt(d, dir, SingleIx) == None) + One(Table(d, dir)[q] == None)
    ensures DIRECT <= q && PtrAt(d, dir, SingleIx) == None ==> Table(d, dir)[q] == None
    ensures Table(d, dir)[q] == None ==> Usable(Table(d, dir)[q])
  {
    if DIRECT <= q && PtrAt(d, dir, SingleIx) == None { DirSearch.LeafNotThere(d, dir, SingleIx, q); }
    hide PtrAt, Table;
  }

  lemma SingleParent(d: Disk, dir: nat, q: nat)
    requires PtrAt(d, dir, SingleIx).Some? && DIRECT <= q < FIRST_ROW
    ensures HasParent(d, dir, LeafSlot(q))
  {
    hide PtrAt;
  }

  /** A directory whose size puts it into the single-indirect level: leaf seg there, or else the double-indirect
      level. */
  method FromSingle(disk: RamDisk, dir: nat, seg: nat) returns (r: Where)
    requires disk.Valid() && dir < INODES && disk.View().inodes[dir].kind == Dir
    requires DIRECT <= seg < FIRST_ROW && NoRows(disk.View(), dir)
    modifies disk`freeBlocks, disk`owner, disk.bitmap, disk.inodes, disk.blocks
    ensures disk.Valid() && Grows(old(disk.View()), disk.View(), dir) && Opened(old(disk.View()), disk.View(), dir, r)
    ensures var d := old(disk.View());
            var q := if Usable(Table(d, dir)[seg]) then seg else FIRST_ROW;
            if d.freeBlocks < Needs(d, dir, q) then r == NoSpace
            else disk.freeBlocks == d.freeBlocks - Needs(d, dir, q) && if q == seg then r.At? && r.q == q else r.Leaked?
  {
    hide Owned, PtrAt, Opened, Grows, Used, Table, NoRows, Strays, Needs, Usable, LeafSlot, HasParent;
    ghost var d := disk.View();
    LowNeeds(d, dir, seg);
    var ok := DirIndex(disk, dir, SingleIx);
    ghost var d1 := disk.View();
    if !ok {
      NothingGained(d, dir);
      return NoSpace;
    }
    SingleParent(d1, dir, seg);
    r := LeafEntry(disk, dir, seg);
    if r.At? {
      AfterIndex(d, d1, disk.View(), dir, SingleIx, r);
      return;
    }
    GainedRow(d, d1, dir, SingleIx);
    DoubleNeeds(d1, dir, FIRST_ROW);
    assert r.Full? ==> d1 == d;
    r := DoubleLevel(disk, dir, FIRST_ROW);
    if r.NoSpace? { AfterIndex(d, d1, disk.View(), dir, SingleIx, r); }
  }

  /** get_next_entry. It succeeds exactly if there is room, and settles on the leaf Goal; entries beyond the
      single-indirect level are written to a block that no pointer leads to. */
  method GetNextEntry(disk: RamDisk, dir: nat) returns (r: Where)
    requires disk.Valid() && dir < INODES && disk.View().inodes[dir].kind == Dir && NoRows(disk.View(), dir)
    modifies disk`freeBlocks, disk`owner, disk.bitmap, disk.inodes, disk.blocks
    ensures disk.Valid() && Grows(old(disk.View()), disk.View(), dir) && Opened(old(disk.View()), disk.View(), dir, r)
    ensures r.At? || r.Leaked? <==> Room(old(disk.View()), dir)
    ensures r.At? ==> r.q == Goal(old(disk.View()), dir) < FIRST_ROW
    ensures r.Leaked? ==> Goal(old(disk.View()), dir) >= FIRST_ROW
    ensures r.At? || r.Leaked? ==>
            disk.freeBlocks == old(disk.freeBlocks) - Needs(old(disk.View()), dir, Goal(old(disk.View()), dir))
  {
    hide Owned, PtrAt, Opened, Grows, Used, Table, NoRows, Strays, Needs, FirstUsable, Usable;
    ghost var d := disk.View();
    NothingGained(d, dir);
    var seg := disk.inodes[dir].size / BLOCK_SIZE;
    r := DirectEntry(disk, dir, seg);
    if r != Full {
      LowNeeds(d, dir, FirstUsable(Table(d, dir), seg));
      return;
    }
    if DIRECT <= seg < FIRST_ROW {
      r := FromSingle(disk, dir, seg);
    } else if FIRST_ROW <= seg < LEAVES {
      r := DoubleLevel(disk, dir, seg);
    }
  }
}
