/** clear_entry_in_current_dir: takes a name out of a directory, and blocks with it. */
module DirShrink {
  import opened Options
  import opened Bitmap
  import opened Disk
  import opened Moves
  import opened FileData
  import FileSteps
  import opened Directory
  import opened DirTree
  import DirSearch
  import opened RamDisks
  import opened WriteLevels

  // ---------------------------------------------------------------- dropping a block

  /** Only blocks of the directory's own tree go, and the counters stay. */
  ghost predicate Shrinks(d: Disk, d': Disk, dir: nat) {
    && dir < INODES && FileSteps.Others(d, d', dir) && Evolves(d, d')
    && d'.inodes[dir].kind == d.inodes[dir].kind && d'.inodes[dir].access == d.inodes[dir].access
    && d'.inodes[dir].size == d.inodes[dir].size
    && d'.freeInodes == d.freeInodes && d'.freeBlocks == d.freeBlocks
    && d'.used <= d.used && Strays(d') == Strays(d)
    && forall t :: PtrAt(d', dir, t) == PtrAt(d, dir, t) || PtrAt(d', dir, t) == None
  }

  lemma DroppedPtr(d: Disk, dir: nat, s: Slot, b: nat, i: nat, t: Slot)
    requires Owned(d) && CanDrop(d, dir, s, b)
    ensures PtrAt(Dropped(d, dir, s, b), i, t) == if i == dir && t == s then None else PtrAt(d, i, t)
  {
    hide PtrAt, Owned, StorePtr, HasParent, Child;
    NoneNoChildren(d);
    StorePtrAt(d, dir, s, None, i, t);
    SameBlocksSameChildren(StorePtr(d, dir, s, None), Dropped(d, dir, s, b));
    SamePtr(StorePtr(d, dir, s, None), Dropped(d, dir, s, b), i, t);
  }

  lemma SamePtr(d: Disk, d': Disk, i: nat, t: Slot)
    requires d'.blocks == d.blocks && d'.inodes == d.inodes
    ensures PtrAt(d', i, t) == PtrAt(d, i, t)
  {
  }

  lemma DroppedFields(d: Disk, dir: nat, s: Slot, b: nat, i: nat)
    requires CanDrop(d, dir, s, b) && i < INODES
    ensures var d' := Dropped(d, dir, s, b);
            && d'.inodes[i].kind == d.inodes[i].kind && (i != dir ==> d'.inodes[i] == d.inodes[i])
            && d'.inodes[dir].size == d.inodes[dir].size && d'.inodes[dir].access == d.inodes[dir].access
            && d'.freeBlocks == d.freeBlocks && d'.freeInodes == d.freeInodes
            && d'.used == d.used - {b} && d'.owner == d.owner - {b}
  {
    hide PtrAt;
    StorePtrKinds(d, dir, s, None, i);
  }

  /** Blocks other than the index blocks of this tree are as before. */
  lemma DroppedBlock(d: Disk, dir: nat, s: Slot, b: nat, c: nat)
    requires Owned(d) && CanDrop(d, dir, s, b) && c in d.owner
    ensures !IsIndex(d.owner[c].slot) || d.owner[c].ino != dir ==> BlockAt(Dropped(d, dir, s, b), c) == BlockAt(d, c)
    ensures BlockAt(Dropped(d, dir, s, b), c) == BlockAt(d, c) || BlockAt(Dropped(d, dir, s, b), c).Index?
  {
    hide PtrAt, Owned, StorePtr, HasParent;
    StorePtrBlocks(d, dir, s, None, c);
    if InIndexBlock(s) && Parent(d, dir, s).Some? { ParentIsIndex(d, dir, s); }
    NoParent(d, dir, s);
  }

  lemma NoParent(d: Disk, dir: nat, s: Slot)
    ensures !InIndexBlock(s) ==> Parent(d, dir, s) == None
  {
  }

  lemma DroppedOwned(d: Disk, dir: nat, s: Slot, b: nat)
    requires Owned(d) && CanDrop(d, dir, s, b)
    ensures Owned(Dropped(d, dir, s, b))
  {
    hide PtrAt, Dropped, HasParent;
    var d' := Dropped(d, dir, s, b);
    DroppedFields(d, dir, s, b, dir);
    forall i, t ensures PtrAt(d', i, t) == if i == dir && t == s then None else PtrAt(d, i, t) {
      DroppedPtr(d, dir, s, b, i, t);
    }
    forall c | c in d'.owner ensures d'.owner[c].ino < INODES && RoleOk(d', c, d'.owner[c]) {
      assert RoleOk(d, c, d.owner[c]);
      DroppedBlock(d, dir, s, b, c);
      DroppedFields(d, dir, s, b, d.owner[c].ino);
    }
  }

  lemma DroppedShrinks(d: Disk, dir: nat, s: Slot, b: nat)
    requires Owned(d) && CanDrop(d, dir, s, b)
    ensures Shrinks(d, Dropped(d, dir, s, b), dir)
  {
    hide PtrAt, Dropped, HasParent, Evolves;
    var d' := Dropped(d, dir, s, b);
    EvolvesBy(d, Cut(dir, s, b));
    DroppedFields(d, dir, s, b, dir);
    OwnerOf(d, dir, s);
    forall t ensures PtrAt(d', dir, t) == if t == s then None else PtrAt(d, dir, t) {
      DroppedPtr(d, dir, s, b, dir, t);
    }
    forall i | 0 <= i < INODES && i != dir ensures d'.inodes[i] == d.inodes[i] { DroppedFields(d, dir, s, b, i); }
    forall c | c in d.owner && d.owner[c].ino != dir
      ensures c in d'.owner && d'.owner[c] == d.owner[c] && BlockAt(d', c) == BlockAt(d, c)
    {
      DroppedBlock(d, dir, s, b, c);
    }
  }

  lemma DroppedSound(d: Disk, dir: nat, s: Slot, b: nat)
    requires Sound(d) && CanDrop(d, dir, s, b)
    ensures Sound(Dropped(d, dir, s, b)) && Shrinks(d, Dropped(d, dir, s, b), dir)
  {
    hide PtrAt, Dropped, Owned;
    DroppedOwned(d, dir, s, b);
    DroppedShrinks(d, dir, s, b);
    DroppedFields(d, dir, s, b, dir);
  }

  lemma DroppedLeaf(d: Disk, dir: nat, s: Slot, b: nat, q: nat)
    requires Owned(d) && CanDrop(d, dir, s, b) && q < LEAVES
    ensures LeafOf(Dropped(d, dir, s, b), dir, q) == if LeafSlot(q) == s then None else LeafOf(d, dir, q)
  {
    hide PtrAt, Owned, Dropped;
    DroppedPtr(d, dir, s, b, dir, LeafSlot(q));
    if PtrAt(d, dir, LeafSlot(q)).Some? {
      OwnerOf(d, dir, LeafSlot(q));
      DroppedBlock(d, dir, s, b, PtrAt(d, dir, LeafSlot(q)).value);
    }
  }

  /** In the directory, a leaf that is dropped is missing; an index block does not show. */
  lemma DroppedTable(d: Disk, dir: nat, s: Slot, b: nat)
    requires Owned(d) && CanDrop(d, dir, s, b)
    ensures IsIndex(s) ==> Table(Dropped(d, dir, s, b), dir) == Table(d, dir)
    ensures forall q :: 0 <= q < LEAVES && s == LeafSlot(q) ==>
            Table(Dropped(d, dir, s, b), dir) == Table(d, dir)[q := None]
  {
    hide PtrAt, Owned, Dropped, LeafSlot;
    var d' := Dropped(d, dir, s, b);
    forall q | 0 <= q < LEAVES ensures LeafOf(d', dir, q) == if LeafSlot(q) == s then None else LeafOf(d, dir, q) {
      DroppedLeaf(d, dir, s, b, q);
    }
    if IsIndex(s) { SameTable(d', dir, Table(d, dir)); }
    forall q | 0 <= q < LEAVES && s == LeafSlot(q) ensures Table(d', dir) == Table(d, dir)[q := None] {
      forall r | 0 <= r < LEAVES ensures LeafOf(d', dir, r) == Table(d, dir)[q := None][r] {
        if LeafSlot(r) == LeafSlot(q) { LeafSlotInjective(r, q); }
      }
      SameTable(d', dir, Table(d, dir)[q := None]);
    }
  }

  /** Clear the bit of a block and the pointer to it. */
  method DropBlock(disk: RamDisk, dir: nat, s: Slot, b: nat)
    requires disk.Valid() && CanDrop(disk.View(), dir, s, b)
    modifies disk`owner, disk.bitmap, disk.inodes, disk.blocks
    ensures disk.Valid() && HasParent(old(disk.View()), dir, s) && disk.View() == Dropped(old(disk.View()), dir, s, b)
  {
    hide PtrAt, Owned, StorePtr, Used;
    ghost var d := disk.View();
    DroppedSound(d, dir, s, b);
    OwnerOf(d, dir, s);
    disk.SetPtr(dir, s, None);
    StorePtrKinds(d, dir, s, None, dir);
    var r := ClearBitmap(disk.bitmap, b);
    disk.owner := disk.owner - {b};
    assert disk.View() == Dropped(d, dir, s, b);
  }

  // ---------------------------------------------------------------- one leaf

  lemma ShrinksTwice(d: Disk, d1: Disk, d2: Disk, dir: nat)
    requires Shrinks(d, d1, dir) && Shrinks(d1, d2, dir)
    ensures Shrinks(d, d2, dir)
  {
    hide PtrAt, Evolves;
    EvolvesTwice(d, d1, d2);
  }

  /** The loop over the entries of one block: count those in use, zero those of the name. */
  method ScanClear(es: Entries16, name: string) returns (fs: Entries16, n: nat, hit: bool)
    ensures fs == Without(es, name) && n == Count(es) && (hit <==> FindFrom(es, name, 0) < ENTRIES)
  {
    hide FindFrom, CountFrom;
    var j: nat := 0;
    fs, n, hit := es, 0, false;
    CountEnd(es);
    while j < ENTRIES
      invariant j <= ENTRIES && n + CountFrom(es, j) == Count(es)
      invariant forall i :: 0 <= i < ENTRIES ==> fs[i] == if i < j then Without(es, name)[i] else es[i]
      invariant hit <==> exists i :: 0 <= i < j && es[i].name == name
    {
      CountStep(es, j);
      if es[j].ino != 0 {
        n := n + 1;
      }
      if es[j].name == name {
        fs := fs[j := NO_ENTRY];
        hit := true;
      }
      j := j + 1;
    }
    assert fs == Without(es, name);
    var k := FindFrom(es, name, 0);
  }

  lemma CountEnd(es: Entries16)
    ensures CountFrom(es, ENTRIES) == 0
  {
  }

  lemma CountStep(es: Entries16, j: nat)
    requires j < ENTRIES
    ensures CountFrom(es, j) == (if es[j].ino != 0 then 1 else 0) + CountFrom(es, j + 1)
  {
  }

  /** Nothing but leaf q of the directory has changed. */
  ghost predicate OnlyLeaf(d: Disk, d': Disk, dir: nat, q: nat)
    requires q < LEAVES
  {
    forall t :: t != LeafSlot(q) ==> PtrAt(d', dir, t) == PtrAt(d, dir, t)
  }

  lemma EntriesShrink(d: Disk, dir: nat, q: nat, b: nat, es: Entries16)
    requires Sound(d) && dir < INODES && d.inodes[dir].kind == Dir && q < LEAVES
             && PtrAt(d, dir, LeafSlot(q)) == Some(b)
    ensures b < DATA_BLOCKS_NUM
    ensures var d' := SetBlock(d, b, Entries(es));
            && Sound(d') && Shrinks(d, d', dir) && (forall i, t :: PtrAt(d', i, t) == PtrAt(d, i, t))
            && Table(d', dir) == Table(d, dir)[q := Some(es)]
  {
    hide PtrAt, Owned, Table, LeafSlot, FileSteps.Others, Evolves;
    SetEntriesOwned(d, dir, LeafSlot(q), b, es);
    EntriesTable(d, dir, q, b, es);
    DirLeafRole(d, dir, LeafSlot(q), b);
    EvolvesBy(d, Fill(b, Entries(es)));
    forall i, t
           ensures PtrAt(SetBlock(d, b, Entries(es)), i, t) == PtrAt(d, i, t) { SetBlockPtr(d, b, Entries(es), i, t); }
  }

  lemma SameShrinks(d: Disk, dir: nat)
    requires dir < INODES
    ensures Shrinks(d, d, dir)
  {
    hide PtrAt, Evolves;
    EvolvesNot(d);
  }

  /** What one round of the loops makes of a leaf. */
  function Round(l: Leaf, name: string, found: bool): Leaf {
    if found then ClearLeaf(l, name) else l
  }

  lemma RoundIdle(l: Leaf, name: string, found: bool)
    requires name != "" && !Has(l, name) && (l.Some? && found ==> Count(l.value) != 1)
    ensures Round(l, name, found) == l
  {
    if found { ClearLeafIdle(l, name); }
  }

  lemma RoundSome(l: Leaf, name: string, es: Entries16)
    requires l == Some(es)
    ensures Round(l, name, true) == if Count(es) == 1 then None else Some(Without(es, name))
    ensures Has(l, name) <==> FindFrom(es, name, 0) < ENTRIES
  {
  }

  /** The writing half of a round. */
  method ApplyRound(disk: RamDisk, dir: nat, q: nat, b: nat, fs: Entries16, hit: bool, drop: bool)
    requires disk.Valid() && dir < INODES && disk.View().inodes[dir].kind == Dir && q < LEAVES
    requires HasParent(disk.View(), dir, LeafSlot(q)) && PtrAt(disk.View(), dir, LeafSlot(q)) == Some(b)
    modifies disk`owner, disk.bitmap, disk.inodes, disk.blocks
    ensures disk.Valid() && Shrinks(old(disk.View()), disk.View(), dir)
            && OnlyLeaf(old(disk.View()), disk.View(), dir, q)
    ensures var t := Table(old(disk.View()), dir);
            Table(disk.View(), dir) == if drop then t[q := None] else if hit then t[q := Some(fs)] else t
  {
    hide PtrAt, Owned, Table, LeafSlot, Used, Shrinks;
    ghost var d := disk.View();
    SameShrinks(d, dir);
    if hit {
      EntriesShrink(d, dir, q, b, fs);
      HasParentSame(d, SetBlock(d, b, Entries(fs)), dir, LeafSlot(q));
      ghost var bs := disk.blocks[..];
      disk.blocks[b] := Entries(fs);
      assert disk.blocks[..] == bs[b := Entries(fs)];
      assert disk.View() == SetBlock(d, b, Entries(fs));
    }
    if drop {
      ghost var d1 := disk.View();
      DroppedSound(d1, dir, LeafSlot(q), b);
      DroppedTable(d1, dir, LeafSlot(q), b);
      forall t
             ensures PtrAt(Dropped(d1, dir, LeafSlot(q), b), dir, t) == if t == LeafSlot(q) then None
             else PtrAt(d1, dir, t) {
        DroppedPtr(d1, dir, LeafSlot(q), b, dir, t);
      }
      DropBlock(disk, dir, LeafSlot(q), b);
      ShrinksTwice(d, d1, disk.View(), dir);
    }
  }

  lemma HasParentSame(d: Disk, d': Disk, dir: nat, s: Slot)
    requires HasParent(d, dir, s) && forall t :: PtrAt(d', dir, t) == PtrAt(d, dir, t)
    ensures HasParent(d', dir, s)
  {
    hide PtrAt;
  }

  /** One round of the loops over the leaves. */
  method ClearOneLeaf(disk: RamDisk, dir: nat, q: nat, name: string, before: bool)
    returns (found: bool, present: bool, dropped: bool)
    requires disk.Valid() && dir < INODES && disk.View().inodes[dir].kind == Dir && name != ""
    requires q < LEAVES && HasParent(disk.View(), dir, LeafSlot(q))
    modifies disk`owner, disk.bitmap, disk.inodes, disk.blocks
    ensures disk.Valid() && Shrinks(old(disk.View()), disk.View(), dir)
            && OnlyLeaf(old(disk.View()), disk.View(), dir, q)
    ensures var l := Table(old(disk.View()), dir)[q];
            && (found <==> before || Has(l, name)) && (present <==> l.Some?)
            && (dropped <==> found && l.Some? && Count(l.value) == 1)
            && Table(disk.View(), dir) == Table(old(disk.View()), dir)[q := Round(l, name, found)]
  {
    hide PtrAt, Owned, LeafSlot, Used, Shrinks, FindFrom, CountFrom, Count, HasParent, Table, Round, Has;
    ghost var d := disk.View();
    ghost var l := Table(d, dir)[q];
    SameShrinks(d, dir);
    TableAt(d, dir, q);
    found, dropped := before, false;
    var p := disk.GetPtr(dir, LeafSlot(q));
    present := p != None;
    if p == None {
      NoLeafRound(l, name, found);
      assert Table(d, dir) == Table(d, dir)[q := l];
      return;
    }
    DirLeafRole(d, dir, LeafSlot(q), p.value);
    var es := EntriesOf(disk.blocks[p.value]);
    var fs, n, hit := ScanClear(es, name);
    RoundSome(l, name, es);
    found := before || hit;
    dropped := found && n == 1;
    if !hit && !dropped {
      RoundIdle(l, name, found);
      assert Table(d, dir) == Table(d, dir)[q := l];
    }
    if found && !hit && !dropped { assert Round(l, name, true) == l; }
    ApplyRound(disk, dir, q, p.value, fs, hit, dropped);
  }

  lemma NoLeafRound(l: Leaf, name: string, found: bool)
    requires l == None
    ensures Round(l, name, found) == l && !Has(l, name)
  {
  }

  // ---------------------------------------------------------------- the levels

  /** How many of the leaves lo..hi are there. */
  function Present(t: DirTable, lo: nat, hi: nat): nat
    requires lo <= hi <= LEAVES
    decreases hi - lo
  {
    if lo == hi then 0 else (if t[hi - 1].Some? then 1 else 0) + Present(t, lo, hi - 1)
  }

  lemma {:induction false} PresentNone(t: DirTable, lo: nat, hi: nat)
    requires lo <= hi <= LEAVES && Present(t, lo, hi) == 0
    ensures forall q :: lo <= q < hi ==> t[q] == None
    decreases hi - lo
  {
    if lo < hi { PresentNone(t, lo, hi - 1); }
  }

  lemma {:induction false} PresentOne(t: DirTable, lo: nat, hi: nat, p: nat)
    requires lo <= p < hi <= LEAVES && t[p].Some?
    ensures Present(t, lo, hi) >= 1
    ensures Present(t, lo, hi) == 1 ==> forall q :: lo <= q < hi && q != p ==> t[q] == None
    decreases hi - lo
  {
    if p < hi - 1 {
      PresentOne(t, lo, hi - 1, p);
    } else if Present(t, lo, hi - 1) == 0 {
      PresentNone(t, lo, hi - 1);
    }
  }

  lemma FirstWithBelow(t: DirTable, name: string, lo: nat, hi: nat, q: nat)
    requires lo <= q < hi <= LEAVES
    ensures FirstWith(t, name, lo, hi) <= q <==>
            FirstWith(t, name, lo, hi) < q
            || (FirstWith(t, name, lo, hi) == q && Has(t[q], name))
    ensures Has(t[q], name) ==> FirstWith(t, name, lo, hi) <= q
  {
    hide Has;
    var f := FirstWith(t, name, lo, hi);
  }

  lemma RangeNone(t: DirTable, name: string, f: nat, q: nat)
    requires q <= f && q <= LEAVES
    ensures ClearRange(t, name, f, q) == t
  {
    hide ClearLeaf;
  }

  lemma RangeStep(t: DirTable, name: string, f: nat, q: nat, found: bool)
    requires q < LEAVES && (found <==> f <= q)
    ensures ClearRange(t, name, f, q + 1) == ClearRange(t, name, f, q)[q := Round(t[q], name, found)]
    ensures ClearRange(t, name, f, q)[q] == t[q]
  {
    hide ClearLeaf;
  }

  ghost predicate IndexesSame(d: Disk, d': Disk, dir: nat) {
    forall s :: IsIndex(s) ==> PtrAt(d', dir, s) == PtrAt(d, dir, s)
  }

  lemma StillReachable(d: Disk, d': Disk, dir: nat, lo: nat, hi: nat)
    requires hi <= LEAVES && Reachable(d, dir, lo, hi) && IndexesSame(d, d', dir)
    ensures Reachable(d', dir, lo, hi)
  {
    hide PtrAt, LeafSlot;
  }

  lemma OnlyLeafIndexes(d: Disk, d0: Disk, d1: Disk, dir: nat, q: nat)
    requires q < LEAVES && IndexesSame(d, d0, dir) && OnlyLeaf(d0, d1, dir, q)
    ensures IndexesSame(d, d1, dir)
  {
    hide PtrAt;
  }

  /** One level. */
  method ClearLeaves(disk: RamDisk, dir: nat, name: string, lo: nat, hi: nat) returns (found: bool, blocks: nat,
          last: bool)
    requires disk.Valid() && dir < INODES && disk.View().inodes[dir].kind == Dir && name != ""
    requires lo <= hi <= LEAVES && Reachable(disk.View(), dir, lo, hi)
    modifies disk`owner, disk.bitmap, disk.inodes, disk.blocks
    ensures disk.Valid() && Shrinks(old(disk.View()), disk.View(), dir)
            && IndexesSame(old(disk.View()), disk.View(), dir)
    ensures var t := Table(old(disk.View()), dir);
            var f := FirstWith(t, name, lo, hi);
            && (found <==> f < hi) && blocks == Present(t, lo, hi)
            && (last <==> exists q :: f <= q < hi && t[q].Some? && Count(t[q].value) == 1)
            && Table(disk.View(), dir) == ClearRange(t, name, f, hi)
  {
    hide Owned, PtrAt, LeafSlot, HasParent, Used, FirstWith, Table, RamDisk.View, Sound, Count, Has, Round, ClearRange,
         Shrinks, IndexesSame, OnlyLeaf, Reachable;
    ghost var d := disk.View();
    ghost var t := Table(d, dir);
    ghost var f := FirstWith(t, name, lo, hi);
    SameShrinks(d, dir);
    RangeNone(t, name, f, lo);
    assert IndexesSame(d, d, dir) by { SameIndexes(d, dir); }
    found, blocks, last := false, 0, false;
    var q := lo;
    while q < hi
      invariant lo <= q <= hi && disk.Valid() && disk.View().inodes[dir].kind == Dir
      invariant Shrinks(d, disk.View(), dir) && IndexesSame(d, disk.View(), dir) && Reachable(disk.View(), dir, lo, hi)
      invariant (found <==> f < q) && blocks == Present(t, lo, q)
      invariant last <==> exists r :: f <= r < q && t[r].Some? && Count(t[r].value) == 1
      invariant Table(disk.View(), dir) == ClearRange(t, name, f, q)
    {
      ghost var d0 := disk.View();
      assert HasParent(d0, dir, LeafSlot(q)) by { ReachableAt(d0, dir, lo, hi, q); }
      FirstWithBelow(t, name, lo, hi, q);
      RangeStep(t, name, f, q, f <= q);
      var present, dropped;
      found, present, dropped := ClearOneLeaf(disk, dir, q, name, found);
      if dropped {
        last := true;
      }
      if present {
        blocks := blocks + 1;
      }
      ShrinksTwice(d, d0, disk.View(), dir);
      ShrinksKind(d0, disk.View(), dir);
      OnlyLeafIndexes(d, d0, disk.View(), dir, q);
      StillReachable(d, disk.View(), dir, lo, hi) by { assert Reachable(d, dir, lo, hi); }
      q := q + 1;
    }
  }

  lemma SameIndexes(d: Disk, dir: nat)
    ensures IndexesSame(d, d, dir)
  {
  }

  lemma ReachableAt(d: Disk, dir: nat, lo: nat, hi: nat, q: nat)
    requires hi <= LEAVES && Reachable(d, dir, lo, hi) && lo <= q < hi
    ensures HasParent(d, dir, LeafSlot(q))
  {
  }

  lemma ShrinksKind(d: Disk, d': Disk, dir: nat)
    requires Shrinks(d, d', dir)
    ensures d'.inodes[dir].kind == d.inodes[dir].kind
  {
  }

  // ---------------------------------------------------------------- the directory

  /** The level in which the name is found is the single-indirect one. */
  predicate InSingle(t: DirTable, name: string) {
    FirstWith(t, name, 0, DIRECT) == DIRECT && FirstWith(t, name, DIRECT, FIRST_ROW) < FIRST_ROW
  }

  /** The name is the only entry of the only leaf of the single-indirect level; its index block goes as well. */
  predicate SingleGoes(t: DirTable, name: string) {
    && InSingle(t, name) && Present(t, DIRECT, FIRST_ROW) == 1
    && t[FirstWith(t, name, DIRECT, FIRST_ROW)].Some? && Count(t[FirstWith(t, name, DIRECT, FIRST_ROW)].value) == 1
  }

  /** The source's test for dropping the index block: a match, one block, and some block dropped. */
  lemma SingleGoesIf(t: DirTable, name: string, last: bool)
    requires FirstWith(t, name, 0, DIRECT) == DIRECT
    requires var f := FirstWith(t, name, DIRECT, FIRST_ROW);
             last <==> exists q :: f <= q < FIRST_ROW && t[q].Some? && Count(t[q].value) == 1
    ensures FirstWith(t, name, DIRECT, FIRST_ROW) < FIRST_ROW && Present(t, DIRECT, FIRST_ROW) == 1 && last
            <==> SingleGoes(t, name)
  {
    hide FirstWith, Count, Present;
    var f := FirstWith(t, name, DIRECT, FIRST_ROW);
    if f < FIRST_ROW {
      assert t[f].Some?;
      PresentOne(t, DIRECT, FIRST_ROW, f);
    }
  }

  /** Then no leaf is left in the level. */
  lemma LevelEmptied(t: DirTable, name: string, q: nat)
    requires SingleGoes(t, name) && DIRECT <= q < FIRST_ROW
    ensures ClearRange(t, name, FirstWith(t, name, DIRECT, FIRST_ROW), FIRST_ROW)[q] == None
  {
    hide FirstWith, Count, Present;
    PresentOne(t, DIRECT, FIRST_ROW, FirstWith(t, name, DIRECT, FIRST_ROW));
  }

  lemma NoLeavesNoChildren(d: Disk, dir: nat, x: nat)
    requires dir < INODES && PtrAt(d, dir, SingleIx) == Some(x) && forall q :: DIRECT <= q < FIRST_ROW ==>
             Table(d, dir)[q] == None
    ensures NoChildren(d, Some(x))
  {
    forall k: nat ensures Child(d, Some(x), k) == None {
      if k < PTRS {
        assert LeafSlot(DIRECT + k) == Single(k);
        PtrViaParent(d, dir, Single(k));
        hide PtrAt, Child;
        assert Table(d, dir)[DIRECT + k] == None;
        TableAt(d, dir, DIRECT + k);
      }
    }
  }

  /** The index block of the single-indirect level. */
  method DropSingle(disk: RamDisk, dir: nat, x: nat)
    requires disk.Valid() && dir < INODES && disk.View().inodes[dir].kind == Dir
             && PtrAt(disk.View(), dir, SingleIx) == Some(x)
    requires forall q :: DIRECT <= q < FIRST_ROW ==> Table(disk.View(), dir)[q] == None
    modifies disk`owner, disk.bitmap, disk.inodes, disk.blocks
    ensures disk.Valid() && Shrinks(old(disk.View()), disk.View(), dir)
            && Table(disk.View(), dir) == Table(old(disk.View()), dir)
    ensures forall t :: PtrAt(disk.View(), dir, t) == if t == SingleIx then None else PtrAt(old(disk.View()), dir, t)
  {
    hide Owned, PtrAt, Used, Table, Shrinks;
    ghost var d := disk.View();
    NoLeavesNoChildren(d, dir, x);
    DroppedSound(d, dir, SingleIx, x);
    DroppedTable(d, dir, SingleIx, x);
    forall t ensures PtrAt(Dropped(d, dir, SingleIx, x), dir, t) == if t == SingleIx then None else PtrAt(d, dir, t) {
      DroppedPtr(d, dir, SingleIx, x, dir, t);
    }
    DropBlock(disk, dir, SingleIx, x);
  }

  /** The index pointers afterwards: only the one to the single-indirect block may be gone. */
  ghost predicate IndexesLeft(d: Disk, d': Disk, dir: nat, name: string) {
    forall s :: IsIndex(s) ==>
      PtrAt(d', dir, s) == if s == SingleIx && SingleGoes(Table(d, dir), name) then None else PtrAt(d, dir, s)
  }

  lemma ClearedIs(t: DirTable, name: string)
    ensures var f := FirstWith(t, name, 0, DIRECT);
            && (f < DIRECT ==> Cleared(t, name) == ClearRange(t, name, f, DIRECT) && !SingleGoes(t, name))
            && (f == DIRECT ==>
               Cleared(t, name) == ClearRange(t, name, FirstWith(t, name, DIRECT, FIRST_ROW), FIRST_ROW))
  {
    hide FirstWith, ClearRange;
  }

  /** Without the index block there is no leaf in the level. */
  lemma SingleMissing(d: Disk, dir: nat, name: string)
    requires PtrAt(d, dir, SingleIx) == None
    ensures var t := Table(d, dir);
            && ClearRange(t, name, FirstWith(t, name, DIRECT, FIRST_ROW), FIRST_ROW) == t && !SingleGoes(t, name)
  {
    var t := Table(d, dir);
    forall q | DIRECT <= q < FIRST_ROW ensures t[q] == None { DirSearch.LeafNotThere(d, dir, SingleIx, q); }
    hide Table, PtrAt;
    var f := FirstWith(t, name, DIRECT, FIRST_ROW);
    hide FirstWith, Count;
    assert f == FIRST_ROW;
    RangeNone(t, name, f, FIRST_ROW);
  }

  /** clear_entry_in_current_dir. Its walk over the double-indirect level changes nothing. */
  method ClearEntryInCurrentDir(disk: RamDisk, dir: nat, name: string)
    requires disk.Valid() && dir < INODES && disk.View().inodes[dir].kind == Dir && name != ""
    modifies disk`owner, disk.bitmap, disk.inodes, disk.blocks
    ensures disk.Valid() && Shrinks(old(disk.View()), disk.View(), dir)
    ensures Table(disk.View(), dir) == Cleared(Table(old(disk.View()), dir), name)
    ensures IndexesLeft(old(disk.View()), disk.View(), dir, name)
  {
    hide Owned, PtrAt, Used, FirstWith, Table, RamDisk.View, Sound, Count, Has, ClearRange, Cleared, Shrinks, Reachable,
         Present, SingleGoes;
    ghost var d := disk.View();
    ghost var t := Table(d, dir);
    ClearedIs(t, name);
    DirSearch.DirectsReachable(d, dir);
    var found, blocks, last := ClearLeaves(disk, dir, name, 0, DIRECT);
    if found {
      return;
    }
    ghost var d1 := disk.View();
    RangeNone(t, name, FirstWith(t, name, 0, DIRECT), DIRECT);
    ShrinksKind(d, d1, dir);
    var single := disk.GetPtr(dir, SingleIx);
    if single == None {
      SingleMissing(d1, dir, name);
      return;
    }
    SingleReachable(d1, dir);
    found, blocks, last := ClearLeaves(disk, dir, name, DIRECT, FIRST_ROW);
    ghost var d2 := disk.View();
    ShrinksTwice(d, d1, d2, dir);
    ShrinksKind(d, d2, dir);
    SingleGoesIf(t, name, last);
    if found && blocks == 1 && last {
      forall q | DIRECT <= q < FIRST_ROW ensures Table(d2, dir)[q] == None { LevelEmptied(t, name, q); }
      DropSingle(disk, dir, single.value);
      ShrinksTwice(d, d2, disk.View(), dir);
    }
  }
}
