/** rd_create and rd_mkdir. */
module Create {
  import opened Options
  import opened Bitmap
  import opened Disk
  import opened Moves
  import opened FileData
  import opened FileSteps
  import opened Directory
  import opened DirTree
  import opened RamDisks
  import opened Paths
  import opened Tree
  import opened PathWalks
  import opened DirGrow
  import opened Ledgers
  import opened Creating

  // ---------------------------------------------------------------- the steps, as values

  lemma ElsewhereTwice(d: Disk, d1: Disk, d2: Disk, dir: nat, x: nat)
    requires Elsewhere(d, d1, dir, x) && Elsewhere(d1, d2, dir, x)
    ensures Elsewhere(d, d2, dir, x)
  {
    hide SameTree;
    forall i: nat | i < INODES && i != dir && i != x ensures d2.inodes[i] == d.inodes[i] && SameTree(d, d2, i) {
      SameTreeTwice(d, d1, d2, i);
    }
  }

  lemma OthersElsewhere(d: Disk, d': Disk, dir: nat, x: nat)
    requires Owned(d) && Others(d, d', dir)
    ensures Elsewhere(d, d', dir, x) && Elsewhere(d, d', x, dir)
  {
    hide SameTree, Owned, Others;
    forall i: nat | i < INODES && i != dir && i != x ensures d'.inodes[i] == d.inodes[i] && SameTree(d, d', i) {
      OthersSameTree(d, d', dir, i);
    }
  }

  lemma WithInodePtr(d: Disk, x: nat, n: Inode, i: nat, t: Slot)
    requires Owned(d) && x < INODES && d.freeInodes > 0 && d.inodes[x].kind == NoFile && Blank(n)
    ensures PtrAt(WithInode(d, x, n), i, t) == PtrAt(d, i, t)
  {
    SameBlocksSameChildren(d, WithInode(d, x, n));
    if i == x {
      NoFileNoPtr(d, x, t);
      BlankNoPtr(WithInode(d, x, n), x, t);
    }
  }

  lemma BlankNoPtr(d: Disk, x: nat, t: Slot)
    requires x < INODES && Blank(d.inodes[x])
    ensures PtrAt(d, x, t) == None
  {
  }

  lemma WithInodeSound(d: Disk, x: nat, n: Inode, dir: nat)
    requires Sound(d) && x < INODES && d.freeInodes > 0 && d.inodes[x].kind == NoFile && Blank(n)
    ensures Sound(WithInode(d, x, n)) && Elsewhere(d, WithInode(d, x, n), dir, x)
    ensures forall i, t :: PtrAt(WithInode(d, x, n), i, t) == PtrAt(d, i, t)
  {
    hide PtrAt;
    var d' := WithInode(d, x, n);
    forall i, t ensures PtrAt(d', i, t) == PtrAt(d, i, t) { WithInodePtr(d, x, n, i, t); }
    forall c | c in d'.owner ensures d'.owner[c].ino < INODES && RoleOk(d', c, d'.owner[c]) {
      NoFileOwnsNone(d, x, c);
      assert RoleOk(d, c, d.owner[c]);
    }
  }

  lemma SetSizeSame(d: Disk, dir: nat, size: U32, x: nat)
    requires Sound(d) && dir < INODES
    ensures Sound(SetSize(d, dir, size)) && Elsewhere(d, SetSize(d, dir, size), dir, x)
    ensures SameTree(d, SetSize(d, dir, size), dir)
  {
    hide PtrAt, Owned;
    SetSizeOwned(d, dir, size);
    forall i, t ensures PtrAt(SetSize(d, dir, size), i, t) == PtrAt(d, i, t) { SetSizePtr(d, dir, size, i, t); }
  }

  /** The directory's table only depends on pointers and blocks. */
  lemma WithInodeTable(d: Disk, x: nat, n: Inode, dir: nat)
    requires Owned(d) && x < INODES && d.freeInodes > 0 && d.inodes[x].kind == NoFile && Blank(n)
    ensures SameTree(d, WithInode(d, x, n), dir)
  {
    hide PtrAt, Owned;
    forall t ensures PtrAt(WithInode(d, x, n), dir, t) == PtrAt(d, dir, t) { WithInodePtr(d, x, n, dir, t); }
  }

  /** Everything rd_create does once it has an entry and an inode. */
  function Entering(d: Disk, dir: nat, c: string, x: nat, kind: Kind, mode: nat, b: nat, j: nat): Disk
    requires dir < INODES && x < INODES && d.freeInodes > 0 && b < DATA_BLOCKS_NUM && j < ENTRIES
  {
    var d1 := WithInode(d, x, NO_INODE.(kind := kind, access := mode));
    var d2 := SetBlock(d1, b, Entries(EntriesOf(BlockAt(d, b))[j := Entry(c, x)]));
    SetSize(d2, dir, Plus32(d.inodes[dir].size, 16))
  }

  /** Entry j of block b: the one rd_create was given. */
  function EntryIndex(w: Where): nat { if w.At? then w.j else 0 }

  predicate Got(w: Where) { w.At? || w.Leaked? }

  /** The block is a leaf of the directory, or nobody's. */
  lemma EntryBlock(d: Disk, d1: Disk, dir: nat, w: Where)
    requires Owned(d1) && dir < INODES && d1.inodes[dir].kind == Dir && Got(w) && Opened(d, d1, dir, w)
    ensures w.b < DATA_BLOCKS_NUM && EntryIndex(w) < ENTRIES
    ensures w.At? ==> Table(d1, dir)[w.q] == Some(EntriesOf(BlockAt(d1, w.b)))
    ensures w.Leaked? ==> w.b !in d1.owner
    ensures BlockAt(d1, w.b).Zeroed? || BlockAt(d1, w.b).Entries?
  {
    hide PtrAt, Owned, LeafSlot;
    if w.At? {
      DirLeafRole(d1, dir, LeafSlot(w.q), w.b);
      TableAt(d1, dir, w.q);
    }
  }

  /** Writing the entry. */
  lemma EntryWritten(d: Disk, dir: nat, w: Where, es: Entries16, x: nat)
    requires Sound(d) && dir < INODES && d.inodes[dir].kind == Dir && Got(w)
    requires w.At? ==> w.q < LEAVES && PtrAt(d, dir, LeafSlot(w.q)) == Some(w.b)
    requires w.Leaked? ==> w.b < DATA_BLOCKS_NUM && w.b !in d.owner
    ensures w.b < DATA_BLOCKS_NUM
    ensures var d' := SetBlock(d, w.b, Entries(es));
            && Sound(d') && Elsewhere(d, d', dir, x) && d'.inodes == d.inodes
            && (NoRows(d, dir) ==> NoRows(d', dir))
            && Table(d', dir) == (if w.At? then Table(d, dir)[w.q := Some(es)] else Table(d, dir))
            && SamePtrs(d, d', dir) && Strays(d') == Strays(d)
  {
    hide PtrAt, Owned, LeafSlot, Table, Elsewhere;
    if w.At? {
      DirLeafRole(d, dir, LeafSlot(w.q), w.b);
      SetEntriesOwned(d, dir, LeafSlot(w.q), w.b, es);
      EntriesTable(d, dir, w.q, w.b, es);
    } else {
      DirGrow.StrayWritten(d, dir, w.b, Entries(es));
    }
    var d' := SetBlock(d, w.b, Entries(es));
    OthersElsewhere(d, d', dir, x);
    forall t ensures PtrAt(d', dir, t) == PtrAt(d, dir, t) { SetBlockPtr(d, w.b, Entries(es), dir, t); }
    forall k | 0 <= k < PTRS ensures PtrAt(d', dir, RowIx(k)) == PtrAt(d, dir, RowIx(k)) {}
  }

  ghost predicate SamePtrs(d: Disk, d': Disk, i: nat) { forall t :: PtrAt(d', i, t) == PtrAt(d, i, t) }

  lemma SameTreePtrs(d: Disk, d': Disk, i: nat)
    requires SameTree(d, d', i)
    ensures SamePtrs(d, d', i)
  {
    hide PtrAt, BlockAt;
  }

  /** What follows the search for room moves no pointer of the directory. */
  lemma HungAfter(d: Disk, d1: Disk, d': Disk, dir: nat, w: Where)
    requires Grows(d, d1, dir) && Opened(d, d1, dir, w) && SamePtrs(d1, d', dir) && Strays(d') == Strays(d1)
    ensures Hung(d, d', dir, w)
  {
    hide PtrAt, Table, Kept, LeafSlot, BlockAt, Strays;
    forall t | w.At? && Gained(d, d', dir, t)
           ensures t == LeafSlot(w.q) || (t == SingleIx && DIRECT <= w.q < FIRST_ROW) {
      assert Gained(d, d1, dir, t);
    }
  }

  /** The steps after get_next_entry add up to the state change Created. */
  lemma EnteringCreated(d: Disk, d1: Disk, dir: nat, c: string, x: nat, kind: Kind, mode: nat, w: Where)
    requires Owned(d) && Sound(d1) && Grows(d, d1, dir) && d.inodes[dir].kind == Dir && Got(w) && Opened(d, d1, dir, w)
    requires 0 < x < INODES && x != dir && d.inodes[x].kind == NoFile && d.freeInodes > 0 && kind != NoFile && c != ""
    requires Aimed(d, dir, w)
    ensures w.b < DATA_BLOCKS_NUM && EntryIndex(w) < ENTRIES && d1.freeInodes > 0
    ensures var d' := Entering(d1, dir, c, x, kind, mode, w.b, EntryIndex(w));
            Sound(d') && Created(d, d', dir, c, x, kind, mode, w) && d'.freeBlocks == d1.freeBlocks
  {
    hide Owned, PtrAt, LeafSlot, Table, NoRows, SameTree, Others, Elsewhere, Sound, Aimed;
    assert Owned(d1) by { SoundOwned(d1); }
    assert Others(d, d1, dir);
    assert d1.inodes[x] == d.inodes[x] by { KeptInode(d, d1, dir, x); }
    EntryBlock(d, d1, dir, w);
    var n := NO_INODE.(kind := kind, access := mode);
    var es := EntriesOf(BlockAt(d1, w.b))[EntryIndex(w) := Entry(c, x)];
    var d2 := WithInode(d1, x, n);
    WithInodeSound(d1, x, n, dir);
    WithInodeTable(d1, x, n, dir);
    SameTreeTable(d1, d2, dir);
    EntryWritten(d2, dir, w, es, x);
    var d3 := SetBlock(d2, w.b, Entries(es));
    SetSizeSame(d3, dir, Plus32(d1.inodes[dir].size, 16), x);
    var d4 := SetSize(d3, dir, Plus32(d1.inodes[dir].size, 16));
    SameTreeTable(d3, d4, dir);
    OthersElsewhere(d, d1, dir, x);
    ElsewhereTwice(d, d1, d2, dir, x);
    ElsewhereTwice(d, d2, d3, dir, x);
    ElsewhereTwice(d, d3, d4, dir, x);
    GrowsRows(d, d1, dir, w);
    SameTreePtrs(d1, d2, dir);
    SameTreePtrs(d3, d4, dir);
    assert SamePtrs(d1, d4, dir) by { assert SamePtrs(d1, d2, dir) && SamePtrs(d2, d3, dir) && SamePtrs(d3, d4, dir); }
    EnteringFields(d1, dir, c, x, kind, mode, w.b, EntryIndex(w));
    HungAfter(d, d1, d4, dir, w);
    EnteringEvolves(d, d1, d2, d3, d4, dir, w, es, x, n);
  }

  lemma EnteringEvolves(d: Disk, d1: Disk, d2: Disk, d3: Disk, d4: Disk, dir: nat, w: Where, es: Entries16, x: nat,
          n: Inode)
    requires Owned(d1) && Grows(d, d1, dir) && d1.inodes[dir].kind == Dir && Got(w) && Opened(d, d1, dir, w)
    requires x < INODES && x != dir && d1.inodes[x].kind == NoFile && d1.freeInodes > 0 && Blank(n)
    requires w.b < DATA_BLOCKS_NUM && d2 == WithInode(d1, x, n) && d3 == SetBlock(d2, w.b, Entries(es))
    requires d4 == SetSize(d3, dir, Plus32(d1.inodes[dir].size, 16))
    ensures Evolves(d, d4)
  {
    hide Owned, PtrAt, LeafSlot, Table, Evolves, Others;
    EntryBlock(d, d1, dir, w);
    if w.At? { DirLeafRole(d1, dir, LeafSlot(w.q), w.b); }
    EvolvesBy(d1, Occupy(x, n));
    EvolvesBy(d2, Fill(w.b, Entries(es)));
    EvolvesBy(d3, Resize(dir, Plus32(d1.inodes[dir].size, 16)));
    EvolvesTwice(d, d1, d2);
    EvolvesTwice(d, d2, d3);
    EvolvesTwice(d, d3, d4);
  }

  lemma SoundOwned(d: Disk)
    requires Sound(d)
    ensures Owned(d)
  {
    hide Owned;
  }

  lemma GrowsRows(d: Disk, d1: Disk, dir: nat, w: Where)
    requires Grows(d, d1, dir) && Opened(d, d1, dir, w)
    ensures NoRows(d, dir) ==> NoRows(d1, dir)
  {
    hide PtrAt, Table;
    forall k | 0 <= k < PTRS && NoRows(d, dir) ensures PtrAt(d1, dir, RowIx(k)) == None {
      assert PtrAt(d, dir, RowIx(k)) == None;
      assert !Gained(d, d1, dir, RowIx(k));
    }
  }

  lemma EnteringFields(d: Disk, dir: nat, c: string, x: nat, kind: Kind, mode: nat, b: nat, j: nat)
    requires dir < INODES && x < INODES && x != dir && d.freeInodes > 0 && b < DATA_BLOCKS_NUM && j < ENTRIES
    ensures var d' := Entering(d, dir, c, x, kind, mode, b, j);
            && d'.inodes[x] == NO_INODE.(kind := kind, access := mode)
            && d'.inodes[dir] == d.inodes[dir].(size := Plus32(d.inodes[dir].size, 16))
            && d'.freeInodes == d.freeInodes - 1 && d'.freeBlocks == d.freeBlocks && d'.used == d.used
               && d'.owner == d.owner
  {
  }

  // ---------------------------------------------------------------- when it fails

  /** Every directory shows what it showed before. */
  ghost predicate SameTables(d: Disk, d': Disk) {
    forall i: nat :: Table(d', i) == Table(d, i)
  }

  lemma {:induction false} SameResolve(d: Disk, d': Disk, cur: nat, cs: seq<string>)
    requires SameTables(d, d')
    ensures Resolve(d', cur, cs) == Resolve(d, cur, cs)
    decreases |cs|
  {
    hide Table, Lookup;
    if cs != [] {
      assert Table(d', cur) == Table(d, cur);
      match Lookup(Table(d, cur), cs[0]) {
        case None =>
        case Some(x) => SameResolve(d, d', x, cs[1..]);
      }
    }
  }

  /** A failure may leave index blocks, or a lost block, behind, but nothing that anyone sees. */
  ghost predicate Quiet(d: Disk, d': Disk) {
    && Evolves(d, d') && SameTables(d, d') && Balance(d') == Balance(d) && d'.freeInodes == d.freeInodes
    && (forall i :: NoRows(d, i) ==> NoRows(d', i))
    && forall i :: 0 <= i < INODES ==> d'.inodes[i].kind == d.inodes[i].kind && d'.inodes[i].size == d.inodes[i].size
                                       && (d.inodes[i].kind != Dir ==>
                                          d'.inodes[i] == d.inodes[i]
                                          && SameTree(d, d', i))
  }

  lemma QuietSame(d: Disk)
    ensures Quiet(d, d)
  {
    hide PtrAt, Evolves;
    EvolvesNot(d);
  }

  lemma QuietGrown(d: Disk, d': Disk, dir: nat, w: Where)
    requires Owned(d) && Grows(d, d', dir) && d.inodes[dir].kind == Dir && Opened(d, d', dir, w) && !Got(w)
    ensures Quiet(d, d')
  {
    hide Owned, PtrAt, Table, NoRows, SameTree;
    forall i: nat ensures Table(d', i) == Table(d, i) { if i != dir { OtherTable(d, d', dir, i); } }
    forall i: nat ensures i < INODES && i != dir ==> d'.inodes[i] == d.inodes[i] && SameTree(d, d', i) {
      if i < INODES && i != dir { OthersSameTree(d, d', dir, i); }
    }
    forall i: nat ensures NoRows(d, i) ==> NoRows(d', i) {
      if i == dir { GrowsRows(d, d', dir, w); } else if i < INODES { SameTreeTable(d, d', i); }
          else { NoRowsBeyond(d', i); }
    }
  }

  lemma NoRowsBeyond(d: Disk, i: nat)
    requires i >= INODES
    ensures NoRows(d, i)
  {
  }

  lemma QuietTree(d: Disk, up: map<nat, Spot>, d': Disk)
    requires TreeOk(d, up) && Quiet(d, d')
    ensures TreeOk(d', up) && (Neat(d) ==> Neat(d'))
  {
    hide Table, NoRows, TidyTable, SameTree, Balance, UniqueNames, NoEmptyLeaf;
    forall i | 0 <= i < INODES && d'.inodes[i].kind == Dir ensures DirOk(d', up, i) {
      assert DirOk(d, up, i);
      assert Table(d', i) == Table(d, i);
    }
    if Neat(d) {
      forall i | 0 <= i < INODES && d'.inodes[i].kind == Dir
             ensures UniqueNames(Table(d', i)) && NoEmptyLeaf(Table(d', i)) {
        assert Table(d', i) == Table(d, i);
      }
    }
  }

  lemma QuietLedger(d: Disk, up: map<nat, Spot>, d': Disk)
    requires Ledger(d, up) && Quiet(d, d')
    ensures Ledger(d', up)
  {
    hide Table, SameTree, Balance, Kids, SameTables;
    assert Entered(d', up) by { forall x: nat ensures x in up <==> InUse(d', x) { assert x in up <==> InUse(d, x); } }
  }

  // ---------------------------------------------------------------- rd_create

  /** What rd_create needs: an inode, some block, the directory, and room in it. */
  predicate CanCreate(d: Disk, cs: seq<string>)
    requires Resolve(d, 0, cs).Some? ==> Resolve(d, 0, cs).value < INODES
  {
    d.freeInodes > 0 && d.freeBlocks > 0 && Resolve(d, 0, cs).Some? && Room(d, Resolve(d, 0, cs).value)
  }

  /** allocate_inode, then the entry, the type and mode of the inode, and the size of the directory. */
  method Enter(disk: RamDisk, dir: nat, c: string, x: nat, kind: Kind, mode: nat, b: nat, j: nat)
    requires disk.Shape() && dir < INODES && x < INODES && x != dir && disk.freeInodes > 0 && b < DATA_BLOCKS_NUM
             && j < ENTRIES
    modifies disk`freeInodes, disk.inodes, disk.blocks
    ensures disk.Shape() && disk.View() == Entering(old(disk.View()), dir, c, x, kind, mode, b, j)
  {
    ghost var ns, bs := disk.inodes[..], disk.blocks[..];
    disk.freeInodes := disk.freeInodes - 1;
    disk.inodes[x] := NO_INODE;
    disk.blocks[b] := Entries(EntriesOf(disk.blocks[b])[j := Entry(c, x)]);
    disk.inodes[x] := disk.inodes[x].(kind := kind, access := mode);
    disk.inodes[dir] := disk.inodes[dir].(size := Plus32(disk.inodes[dir].size, 16));
    assert disk.blocks[..] == bs[b := Entries(EntriesOf(bs[b])[j := Entry(c, x)])];
    assert disk.inodes[..]
           == ns[x := NO_INODE.(kind := kind, access := mode)][dir := ns[dir].(size := Plus32(ns[dir].size, 16))];
  }

  /** The outcome of rd_create: nothing, or a new inode x entered at w. */
  ghost predicate CreateResult(d: Disk, up: map<nat, Spot>, d': Disk, up': map<nat, Spot>, cs: seq<string>, c: string,
          kind: Kind, mode: nat,
                               ok: bool, x: nat, w: Where) {
    && FsOk(d', up')
    && if ok then
         && Resolve(d, 0, cs).Some? && Created(d, d', Resolve(d, 0, cs).value, c, x, kind, mode, w)
         && up' == up[x := NewSpot(Resolve(d, 0, cs).value, w)]
       else Quiet(d, d') && up' == up && (Neat(d) ==> Neat(d'))
  }

  /** Whether a call succeeds in directory dir, with an inode and a block counted free, and where it puts the entry. In
      the direct blocks: exactly if one of them from the size on is missing or has a free entry, in the lowest such
      leaf. In the single-indirect blocks: in the leaf of the size, if that can take it and the blocks suffice;
      otherwise, and further behind, the blocks must suffice for one in the double-indirect level, where it is lost. */
  ghost predicate Seated(d: Disk, dir: nat, ok: bool, w: Where)
    requires dir < INODES
  {
    var t, seg := Table(d, dir), d.inodes[dir].size / BLOCK_SIZE;
    if seg < DIRECT then
      && (ok <==> exists q :: seg <= q < DIRECT && Takes(t[q]))
      && (ok ==> w.At? && seg <= w.q < DIRECT && Takes(t[w.q]) && forall q :: seg <= q < w.q ==> !Takes(t[q]))
    else if seg < FIRST_ROW && Takes(t[seg]) then
      && (ok <==>
         d.freeBlocks >= (if PtrAt(d, dir, SingleIx) == None then 1 else 0) + if t[seg] == None then 1 else 0)
      && (ok ==> w.At? && w.q == seg)
    else if seg < LEAVES then
      && (ok <==> d.freeBlocks >= 2 + if PtrAt(d, dir, DoubleIx) == None then 1 else 0)
      && (ok ==> w.Leaked?)
    else !ok
  }

  lemma RoomSeats(d: Disk, up: map<nat, Spot>, dir: nat, ok: bool, w: Where)
    requires TreeOk(d, up) && dir < INODES && d.inodes[dir].kind == Dir && d.freeBlocks > 0
    requires ok <==> Room(d, dir)
    requires ok ==> (w.At? || w.Leaked?) && if w.At? then w.q == Goal(d, dir) < FIRST_ROW else Goal(d, dir) >= FIRST_ROW
    ensures Seated(d, dir, ok, w)
  {
    hide Table, PtrAt, Takes, Goal, Room, DirOk, NoRows;
    if d.inodes[dir].size / BLOCK_SIZE < DIRECT {
      DirectRoomIff(d, dir);
    } else {
      assert DirOk(d, up, dir);
      DirNoRows(d, up, dir);
      FarRoomIff(d, dir);
    }
  }

  /** The last part of rd_create, in the directory found. */
  method CreateIn(disk: RamDisk, dir: nat, c: string, kind: Kind, mode: nat, ghost up: map<nat, Spot>,
          ghost cs: seq<string>)
    returns (r: int, ghost x: nat, ghost w: Where, ghost up': map<nat, Spot>)
    requires disk.Valid() && FsOk(disk.View(), up) && dir < INODES && disk.inodes[dir].kind == Dir
             && disk.freeInodes > 0
    requires Resolve(disk.View(), 0, cs) == Some(dir) && c != "" && kind != NoFile
    modifies disk`freeBlocks, disk`freeInodes, disk`owner, disk.bitmap, disk.inodes, disk.blocks
    ensures disk.Valid() && (r == 0 || r == -1)
    ensures r == 0 <==> Room(old(disk.View()), dir)
    ensures CreateResult(old(disk.View()), up, disk.View(), up', cs, c, kind, mode, r == 0, x, w)
    ensures r == 0 ==>
            disk.freeBlocks == old(disk.freeBlocks) - Needs(old(disk.View()), dir, Goal(old(disk.View()), dir))
    ensures r == 0 ==> forall y :: 0 < y < x ==> old(disk.View()).inodes[y].kind != NoFile
    ensures r == 0 ==> if w.At? then w.q == Goal(old(disk.View()), dir) < FIRST_ROW
            else Goal(old(disk.View()), dir) >= FIRST_ROW
  {
    hide Owned, PtrAt, Table, DirOk, Used, Opened, Grows, Ledger, Room, Needs, Goal, Created, Resolve, Quiet, NoRows,
         Neat, Entering;
    ghost var d := disk.View();
    assert NoRows(d, dir) by { assert DirOk(d, up, dir); DirNoRows(d, up, dir); }
    x, up' := 0, up;
    var place := GetNextEntry(disk, dir);
    w := place;
    ghost var d1 := disk.View();
    if place.NoSpace? || place.Full? {
      QuietGrown(d, d1, dir, w);
      QuietTree(d, up, d1);
      QuietLedger(d, up, d1);
      r := -1;
      return;
    }
    GrownInodes(d, d1, dir);
    FreeInodeThere(d, up);
    var free := GetFreeInodeNum(disk);
    if free == -1 {
      assert false;  // the source reports an error here; the counter of free inodes never lies
    }
    x := free;
    EnteringCreated(d, d1, dir, c, free, kind, mode, w);
    CreatedBoth(d, up, Entering(d1, dir, c, free, kind, mode, w.b, EntryIndex(w)), dir, c, free, kind, mode, w);
    Enter(disk, dir, c, free, kind, mode, place.b, if place.At? then place.j else 0);
    up' := up[x := NewSpot(dir, w)];
    r := 0;
  }

  lemma GrownInodes(d: Disk, d1: Disk, dir: nat)
    requires Grows(d, d1, dir)
    ensures d1.freeInodes == d.freeInodes && forall y :: 0 <= y < INODES ==> d1.inodes[y].kind == d.inodes[y].kind
  {
  }

  lemma CreatedBoth(d: Disk, up: map<nat, Spot>, d': Disk, dir: nat, c: string, x: nat, kind: Kind, mode: nat, w: Where)
    requires FsOk(d, up) && Created(d, d', dir, c, x, kind, mode, w) && Sound(d')
    ensures FsOk(d', up[x := NewSpot(dir, w)])
  {
    hide Sound, TreeOk, Ledger, Created;
    CreatedTree(d, up, d', dir, c, x, kind, mode, w);
    CreatedLedger(d, up, d', dir, c, x, kind, mode, w);
  }

  /** Path p is the only one, of all that name no empty component, whose meaning has changed: it now leads to x. */
  ghost predicate OnlyNewPath(d: Disk, d': Disk, p: seq<string>, x: nat) {
    && Resolve(d, 0, p) == None && Resolve(d', 0, p) == Some(x)
    && forall ds :: Named(ds) && ds != p ==> Resolve(d', 0, ds) == Resolve(d, 0, ds)
  }

  /** No path at all has changed its meaning. */
  ghost predicate NoNewPath(d: Disk, d': Disk) {
    forall ds :: Named(ds) ==> Resolve(d', 0, ds) == Resolve(d, 0, ds)
  }

  lemma AbsentNotBefore(t: DirTable, c: string, q: nat, j: nat)
    requires q < LEAVES && j < ENTRIES && Lookup(t, c) == None && c != ""
    ensures !NameBefore(t, c, q, j)
  {
    hide Lookup, FindFrom;
    forall r | 0 <= r < LEAVES ensures LeafLookup(t[r], c) == None {
      if t[r].Some? { AbsentEverywhere(t, c, r, 0); }
    }
    forall i | 0 <= i < j ensures BlockOf(t[q])[i].name != c {
      if t[q].Some? { AbsentEverywhere(t, c, q, i); }
    }
  }

  /** Creating a file whose name is absent: the entry is found, and nothing else changes, if it went into the direct or
      single-indirect level; beyond them the call succeeds, but the file cannot be found. */
  lemma CreatedPaths(d: Disk, up: map<nat, Spot>, d': Disk, up': map<nat, Spot>, cs: seq<string>, c: string,
          kind: Kind, mode: nat, x: nat, w: Where)
    requires FsOk(d, up) && CreateResult(d, up, d', up', cs, c, kind, mode, true, x, w)
    requires Named(cs) && c != "" && Resolve(d, 0, cs + [c]) == None
    ensures w.At? ==> OnlyNewPath(d, d', cs + [c], x)
    ensures w.Leaked? ==> NoNewPath(d, d')
    ensures Neat(d) ==> Neat(d')
  {
    hide Owned, TreeOk, Ledger, Table, Lookup, Resolve, Elsewhere, Put, NameBefore, Neat;
    SoundOwned(d);
    var dir := Resolve(d, 0, cs).value;
    ResolveSnoc(d, 0, cs, c);
    CreatedResolves(d, up, d', dir, c, x, kind, mode, w, cs);
    if Neat(d) { CreatedNeat(d, up, d', dir, c, x, kind, mode, w); }
    if w.At? { AbsentNotBefore(Table(d, dir), c, w.q, w.j); }
    forall ds | Named(ds) && ds != cs + [c] ensures Resolve(d', 0, ds) == Resolve(d, 0, ds) {
      CreatedFrameAbsent(d, up, d', dir, c, x, kind, mode, w, cs, ds);
    }
  }

  lemma QuietPaths(d: Disk, d': Disk)
    requires Quiet(d, d')
    ensures NoNewPath(d, d')
  {
    hide Table, SameTree;
    forall ds | Named(ds) ensures Resolve(d', 0, ds) == Resolve(d, 0, ds) { SameResolve(d, d', 0, ds); }
  }

  /** rd_create. The directory part of the path means the names cs, the name is c. There is no test whether the name
      exists already. */
  method RdCreate(disk: RamDisk, path: string, kind: Kind, mode: nat, ghost up: map<nat, Spot>, ghost cs: seq<string>,
          ghost c: string)
    returns (r: int, ghost x: nat, ghost w: Where, ghost up': map<nat, Spot>)
    requires disk.Valid() && FsOk(disk.View(), up) && kind != NoFile
    requires IntoDir(disk.View(), path) && Means(disk.View(), DirPart(path), cs) && NamePart(path) == c && 0 < |c| < 14
    modifies disk`freeBlocks, disk`freeInodes, disk`owner, disk.bitmap, disk.inodes, disk.blocks
    ensures disk.Valid() && (r == 0 || r == -1)
    ensures CreateResult(old(disk.View()), up, disk.View(), up', cs, c, kind, mode, r == 0, x, w)
    ensures Resolve(old(disk.View()), 0, cs).Some? ==> Resolve(old(disk.View()), 0, cs).value < INODES
    ensures r == 0 <==> CanCreate(old(disk.View()), cs)
    ensures old(disk.freeInodes) == 0 || old(disk.freeBlocks) == 0 || Resolve(old(disk.View()), 0, cs) == None ==>
            r == -1
    ensures Resolve(old(disk.View()), 0, cs).Some? && old(disk.freeInodes) > 0 && old(disk.freeBlocks) > 0 ==>
            Seated(old(disk.View()), Resolve(old(disk.View()), 0, cs).value, r == 0, w)
    ensures r == 0 ==> forall y :: 0 < y < x ==> old(disk.View()).inodes[y].kind != NoFile
    ensures r == 0 ==> var d := old(disk.View());
                       var q := Goal(d, Resolve(d, 0, cs).value);
                       && q < LEAVES && disk.freeBlocks == d.freeBlocks - Needs(d, Resolve(d, 0, cs).value, q)
                       && if w.At? then w.q == q < FIRST_ROW else q >= FIRST_ROW
    ensures Resolve(old(disk.View()), 0, cs + [c]) == None ==>
            if r == 0 && w.At? then OnlyNewPath(old(disk.View()), disk.View(), cs + [c], x)
                else NoNewPath(old(disk.View()), disk.View())
    ensures Neat(old(disk.View())) && Resolve(old(disk.View()), 0, cs + [c]) == None ==> Neat(disk.View())
  {
    hide Owned, PtrAt, Table, DirOk, Used, Ledger, Room, Needs, Goal, Created, Resolve, Quiet, Neat, LastSlash, Seated,
         DirPart, NamePart, OnDirs, Find, OnlyNewPath, NoNewPath, RamDisk.View;
    ghost var d := disk.View();
    x, w, up' := 0, NoSpace, up;
    assert NoNewPath(d, d) && Quiet(d, d) by { QuietSame(d); QuietPaths(d, d); }
    if disk.freeInodes <= 0 || disk.freeBlocks <= 0 {
      ViewCounters(disk);
      return -1, x, w, up';
    }
    var dirPath, name := ParseAbsolutePath(path);
    var cur := MyFindInodeNumber(disk, dirPath);
    if cur == -1 {
      return -1, x, w, up';
    }
    ViewCounters(disk);
    r, x, w, up' := CreateIn(disk, cur, name, kind, mode, up, cs);
    if r == 0 {
      RoomGoal(d, cur);
      WhereGot(d, up, disk.View(), up', cs, c, kind, mode, x, w);
    }
    RoomSeats(d, up, cur, r == 0, w);
    if Resolve(d, 0, cs + [c]) == None {
      if r == 0 { CreatedPaths(d, up, disk.View(), up', cs, c, kind, mode, x, w); } else { QuietPaths(d, disk.View()); }
    }
  }

  lemma WhereGot(d: Disk, up: map<nat, Spot>, d': Disk, up': map<nat, Spot>, cs: seq<string>, c: string, kind: Kind,
          mode: nat, x: nat, w: Where)
    requires CreateResult(d, up, d', up', cs, c, kind, mode, true, x, w)
    ensures w.At? || w.Leaked?
  {
    hide Table, Put, FsOk;
  }

  lemma RoomGoal(d: Disk, dir: nat)
    requires dir < INODES && Room(d, dir)
    ensures Goal(d, dir) < LEAVES
  {
  }

  /** What a call on the canonical path of cs + [c] comes with. */
  lemma CallNamed(d: Disk, up: map<nat, Spot>, cs: seq<string>, c: string)
    requires FsOk(d, up) && GoodNames(cs) && GoodName(c) && ThroughDirs(d, 0, cs + [c])
    ensures Named(cs) && c != "" && ThroughDirs(d, 0, cs)
    ensures Resolve(d, 0, cs).Some? ==>
            Resolve(d, 0, cs).value < INODES
            && d.inodes[Resolve(d, 0, cs).value].kind == Dir
    ensures var path := PathOf(cs + [c]);
            && IntoDir(d, path) && Means(d, DirPart(path), cs) && NamePart(path) == c
            && OnDirs(d, path) && Means(d, path, cs + [c]) && path != "/" && DirPart(path) != ""
  {
    hide Sound, TreeOk, Ledger, ThroughDirs, Resolve, LastSlash, DirPart, NamePart, Find, OnDirs, PathOf;
    ThroughDirsParent(d, up, 0, cs, c);
    CanonicalMeans(d, up, cs);
    CanonicalMeans(d, up, cs + [c]);
    ParsePath(cs, c);
    PathForm(cs + [c]);
  }

  lemma ViewCounters(disk: RamDisk)
    requires disk.Shape()
    ensures disk.View().freeBlocks == disk.freeBlocks && disk.View().freeInodes == disk.freeInodes
            && disk.View().inodes == disk.inodes[..]
  {
  }

  /** rd_mkdir. The root is made by init_file_sys and never again. */
  method RdMkdir(disk: RamDisk, path: string, ghost up: map<nat, Spot>, ghost cs: seq<string>, ghost c: string)
    returns (r: int, ghost x: nat, ghost w: Where, ghost up': map<nat, Spot>)
    requires disk.Valid() && FsOk(disk.View(), up)
    requires path == "/"
             || (IntoDir(disk.View(), path) && Means(disk.View(), DirPart(path), cs) && NamePart(path) == c
             && 0 < |c| < 14)
    modifies disk`freeBlocks, disk`freeInodes, disk`owner, disk.bitmap, disk.inodes, disk.blocks
    ensures disk.Valid() && FsOk(disk.View(), up')
    ensures path == "/" ==> r == -1 && disk.View() == old(disk.View()) && up' == up
    ensures path != "/" ==> CreateResult(old(disk.View()), up, disk.View(), up', cs, c, Dir, 1, r == 0, x, w)
    ensures Resolve(old(disk.View()), 0, cs).Some? && path != "/" ==> Resolve(old(disk.View()), 0, cs).value < INODES
    ensures path != "/" ==> (r == 0 <==> CanCreate(old(disk.View()), cs))
    ensures path != "/" && (old(disk.freeInodes) == 0 || old(disk.freeBlocks) == 0) ==> r == -1
    ensures path != "/" && Resolve(old(disk.View()), 0, cs) == None ==> r == -1
    ensures path != "/" && Resolve(old(disk.View()), 0, cs).Some?
            && old(disk.freeInodes) > 0 && old(disk.freeBlocks) > 0 ==>
            Seated(old(disk.View()), Resolve(old(disk.View()), 0, cs).value, r == 0, w)
    ensures path != "/" && r == 0 ==> forall y :: 0 < y < x ==> old(disk.View()).inodes[y].kind != NoFile
    ensures path != "/" && r == 0 ==>
            var d := old(disk.View());
            var q := Goal(d, Resolve(d, 0, cs).value);
            && q < LEAVES && disk.freeBlocks == d.freeBlocks - Needs(d, Resolve(d, 0, cs).value, q)
            && if w.At? then w.q == q < FIRST_ROW else q >= FIRST_ROW
    ensures path != "/" && Resolve(old(disk.View()), 0, cs + [c]) == None ==>
            if r == 0 && w.At? then OnlyNewPath(old(disk.View()), disk.View(), cs + [c], x)
                else NoNewPath(old(disk.View()), disk.View())
    ensures path != "/" && Neat(old(disk.View())) && Resolve(old(disk.View()), 0, cs + [c]) == None ==>
            Neat(disk.View())
  {
    hide Goal, Needs, Room, Neat, CanCreate, Seated, Sound, TreeOk, Resolve, CreateResult, OnlyNewPath, NoNewPath,
         DirPart, NamePart, IntoDir, Means, RamDisk.View;
    x, w, up' := 0, NoSpace, up;
    RootMade(disk.View(), up);
    ViewCounters(disk);
    if path == "/" {
      assert disk.freeInodes != INODES;
      return -1, x, w, up';
    }
    ghost var d := disk.View();
    r, x, w, up' := RdCreate(disk, path, Dir, 1, up, cs, c);
    ResultOk(d, up, disk.View(), up', cs, c, Dir, 1, r == 0, x, w);
  }

  lemma RootMade(d: Disk, up: map<nat, Spot>)
    requires FsOk(d, up)
    ensures d.freeInodes < INODES
  {
    hide Sound, TreeOk;
  }

  lemma ResultOk(d: Disk, up: map<nat, Spot>, d': Disk, up': map<nat, Spot>, cs: seq<string>, c: string, kind: Kind,
          mode: nat,
                 ok: bool, x: nat, w: Where)
    requires CreateResult(d, up, d', up', cs, c, kind, mode, ok, x, w)
    ensures FsOk(d', up')
  {
    hide FsOk, Created, Quiet, Resolve;
  }
}
