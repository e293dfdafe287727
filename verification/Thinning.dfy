/** Files of a full directory are unlinked again, and then one more is created and unlinked: an input for which that
    does not restore the disk. */
module Thinning {
  import opened Options
  import Bitmap
  import opened Disk
  import Moves
  import opened Directory
  import opened DirTree
  import opened RamDisks
  import opened Paths
  import opened Tree
  import opened PathWalks
  import opened FileSteps
  import DirShrink
  import opened DirGrow
  import opened Ledgers
  import opened Creating
  import opened Create
  import opened Unlinking
  import opened Unlink
  import opened CreateUnlink
  import opened Losses
  import opened Runs
  import opened Filling
  import opened Scenarios
  import FileIo

  // ---------------------------------------------------------------- tables

  /** What the place of the k-th file shows after n files, if those in gone were unlinked again. */
  function ThinEntry(n: nat, gone: set<nat>, k: nat): Entry
    requires n <= MOST
  {
    if k < n && k !in gone then Entry(NameOf(k), k + 1) else NO_ENTRY
  }

  predicate ThinAt(t: DirTable, n: nat, gone: set<nat>, q: nat, j: nat)
    requires n <= MOST && q < LEAVES && j < ENTRIES
  {
    (t[q].Some? <==> 16 * q < n) && BlockOf(t[q])[j] == ThinEntry(n, gone, 16 * q + j)
  }

  /** The directory with n files without those in gone; every block is still there. */
  ghost predicate Thin(t: DirTable, n: nat, gone: set<nat>)
    requires n <= MOST
  {
    forall q, j :: 0 <= q < LEAVES && 0 <= j < ENTRIES ==> ThinAt(t, n, gone, q, j)
  }

  lemma ThinFilled(n: nat)
    requires n <= MOST
    ensures Thin(Filled(n), n, {})
  {
    hide Filled, NameOf;
    forall q, j | 0 <= q < LEAVES && 0 <= j < ENTRIES ensures ThinAt(Filled(n), n, {}, q, j) { FilledAt(n, q, j); }
  }

  /** The place of a name. */
  lemma ThinName(t: DirTable, n: nat, gone: set<nat>, k: nat, q: nat, j: nat)
    requires n <= MOST && Thin(t, n, gone) && k < n && k !in gone && q < LEAVES && j < ENTRIES
    ensures BlockOf(t[q])[j].name == NameOf(k) <==> 16 * q + j == k
  {
    hide NameOf;
    NameThere(k);
    assert ThinAt(t, n, gone, q, j);
    if 16 * q + j < n && 16 * q + j != k { NamesDiffer(16 * q + j, k); }
  }

  lemma ThinHas(t: DirTable, n: nat, gone: set<nat>, k: nat, q: nat)
    requires n <= MOST && Thin(t, n, gone) && k < n && k !in gone && q < LEAVES
    ensures Has(t[q], NameOf(k)) <==> q == k / 16
  {
    hide NameOf, Thin, FindFrom;
    if Has(t[q], NameOf(k)) {
      var j := HasWhere(t[q], NameOf(k));
      ThinName(t, n, gone, k, q, j);
    } else if q == k / 16 {
      ThinName(t, n, gone, k, q, k % 16);
      NameThere(k);
      HasIf(t[q], NameOf(k), k % 16);
    }
  }

  /** A file that is still there is found, and unlinking it clears the leaves from its own on. */
  lemma ThinFound(t: DirTable, n: nat, gone: set<nat>, k: nat)
    requires n <= MOST && Thin(t, n, gone) && k < n && k !in gone && k / 16 < DIRECT
    ensures Lookup(t, NameOf(k)) == Some(k + 1)
    ensures LevelLo(t, NameOf(k)) == k / 16 && LevelHi(t, NameOf(k)) == DIRECT
  {
    hide NameOf, Thin, FindFrom, LeafLookup, LookupFrom;
    var name := NameOf(k);
    forall q | 0 <= q < LEAVES ensures Has(t[q], name) <==> q == k / 16 { ThinHas(t, n, gone, k, q); }
    NameThere(k);
    assert Has(t[k / 16], name);
    var q := LookupAt(t, name, 0);
    var j := HasWhere(t[q], name);
    ThinName(t, n, gone, k, q, j);
    assert ThinAt(t, n, gone, q, j) by { ThinPlace(t, n, gone, q, j); }
    LowLevel(t, name, k / 16);
  }

  lemma ThinPlace(t: DirTable, n: nat, gone: set<nat>, q: nat, j: nat)
    requires n <= MOST && Thin(t, n, gone) && q < LEAVES && j < ENTRIES
    ensures ThinAt(t, n, gone, q, j)
  {
  }

  lemma LowLevel(t: DirTable, name: string, p: nat)
    requires p < DIRECT && forall q :: 0 <= q < LEAVES ==> (Has(t[q], name) <==> q == p)
    ensures LevelLo(t, name) == p && LevelHi(t, name) == DIRECT
  {
    hide LeafLookup;
    var a := FirstWith(t, name, 0, DIRECT);
    assert Has(t[p], name);
  }

  /** A name that no file has is not found. */
  lemma ThinAbsent(t: DirTable, n: nat, gone: set<nat>, c: string)
    requires n <= MOST && Thin(t, n, gone) && c != "" && forall k :: 0 <= k < n ==> NameOf(k) != c
    ensures Lookup(t, c) == None
  {
    hide NameOf, Thin, FindFrom, LeafLookup;
    forall q | 0 <= q < LEAVES ensures LeafLookup(t[q], c) == None {
      if Has(t[q], c) {
        var j := HasWhere(t[q], c);
        ThinPlace(t, n, gone, q, j);
      }
    }
    NoneAnywhere(t, c);
  }

  /** One file less. */
  lemma ThinCleared(t: DirTable, n: nat, gone: set<nat>, k: nat)
    requires n <= MOST && Thin(t, n, gone) && k < n && k !in gone && k / 16 < DIRECT && NothingDropped(t, NameOf(k))
    ensures Thin(Cleared(t, NameOf(k)), n, gone + {k})
  {
    hide NameOf, Thin, Cleared, LevelLo, LevelHi, Count, Lookup;
    var u := Cleared(t, NameOf(k));
    ThinFound(t, n, gone, k);
    forall q, j | 0 <= q < LEAVES && 0 <= j < ENTRIES ensures ThinAt(u, n, gone + {k}, q, j) {
      ClearedLeaf(t, NameOf(k), q);
      ThinPlace(t, n, gone, q, j);
      ThinName(t, n, gone, k, q, j);
    }
    assert Thin(u, n, gone + {k}) by { ThinAll(u, n, gone + {k}); }
  }

  lemma ThinAll(t: DirTable, n: nat, gone: set<nat>)
    requires n <= MOST && forall q, j :: 0 <= q < LEAVES && 0 <= j < ENTRIES ==> ThinAt(t, n, gone, q, j)
    ensures Thin(t, n, gone)
  {
  }

  /** A leaf with two files is not dropped. */
  lemma TwoThere(t: DirTable, n: nat, gone: set<nat>, q: nat, i: nat, j: nat)
    requires n <= MOST && Thin(t, n, gone) && q < LEAVES && i < j < ENTRIES && 16 * q + j < n
    requires 16 * q + i !in gone && 16 * q + j !in gone
    ensures t[q].Some? && Count(t[q].value) != 1
  {
    hide NameOf, CountFrom, Thin;
    ThinPlace(t, n, gone, q, i);
    ThinPlace(t, n, gone, q, j);
    CountPositive(t[q].value, 0, i);
  }

  lemma ThinEnd(t: DirTable, n: nat, gone: set<nat>, q: nat)
    requires n <= MOST && Thin(t, n, gone) && q < LEAVES
    ensures t[q].Some? <==> 16 * q < n
  {
    assert ThinAt(t, n, gone, q, 0);
  }

  /** Of eighteen files, the first, the second and the last can go one after the other, and no block is dropped. */
  lemma NoneLone(t: DirTable, gone: set<nat>, k: nat)
    requires Thin(t, 18, gone) && ((gone == {} && k == 0) || (gone == {0} && k == 1) || (gone == {0, 1} && k == 17))
    ensures NothingDropped(t, NameOf(k))
  {
    hide NameOf, Thin, Count, LevelLo, LevelHi;
    forall q | 0 <= q < LEAVES && t[q].Some? ensures Count(t[q].value) != 1 {
      ThinEnd(t, 18, gone, q);
      if q == 0 { TwoThere(t, 18, gone, 0, 2, 3); } else { TwoThere(t, 18, gone, 1, 0, 1); }
    }
  }

  const LEFT: set<nat> := {0, 1, 17}

  /** Then the second block holds one file, and the search for room settles on the first. */
  lemma LastAlone(t: DirTable)
    requires Thin(t, 18, LEFT)
    ensures t[1].Some? && Count(t[1].value) == 1 && Wanted(t, 0) == 0
    ensures Lone(t[0]) == false
    ensures forall j :: FirstFree(BlockOf(t[0]), j) ==> j == 0
  {
    hide NameOf, CountFrom, Thin;
    ThinPlace(t, 18, LEFT, 0, 0);
    TwoThere(t, 18, LEFT, 0, 2, 3);
    ThinEnd(t, 18, LEFT, 0);
    ThinEnd(t, 18, LEFT, 1);
    forall j | 0 <= j < ENTRIES ensures (t[1].value[j].ino != 0 <==> j == 0) {
      ThinPlace(t, 18, LEFT, 1, j);
    }
    CountZero(t[1].value, 1);
    CountStep(t[1].value);
  }

  lemma CountStep(es: Entries16)
    ensures Count(es) == CountFrom(es, 1) + if es[0].ino != 0 then 1 else 0
  {
  }

  // ---------------------------------------------------------------- the disk

  /** n empty files were created in the root, and those in gone were unlinked again. */
  ghost predicate Thinned(d: Disk, up: map<nat, Spot>, n: nat, gone: set<nat>) {
    && n <= MOST && FsOk(d, up) && Neat(d) && Balance(d) == Bitmap.DATA_BLOCKS_NUM && d.freeBlocks > 1
       && d.freeInodes > 0
    && d.inodes[0].kind == Dir && d.inodes[0].size == 16 * (n - |gone|) && |gone| <= n
    && Thin(Table(d, 0), n, gone)
    && forall y :: 0 < y < INODES ==> d.inodes[y] == if y <= n && y - 1 !in gone then EMPTY_FILE else NO_INODE
  }

  lemma NoneGone(d: Disk, up: map<nat, Spot>, n: nat)
    requires Populated(d, up, n)
    ensures Thinned(d, up, n, {})
  {
    hide FsOk, Neat, Table, Filled, Thin, Balance;
    ThinFilled(n);
  }

  lemma FileLess(d: Disk, up: map<nat, Spot>, d': Disk, n: nat, gone: set<nat>, k: nat)
    requires Thinned(d, up, n, gone) && k < n && k / 16 < DIRECT && k !in gone && |gone| < n
    requires NothingDropped(Table(d, 0), NameOf(k))
    requires Unlinked(d, d', 0, NameOf(k), k + 1) && FsOk(d', up - {k + 1}) && Neat(d')
    ensures Thinned(d', up - {k + 1}, n, gone + {k})
  {
    hide Table, NameOf, TreeOk, Ledger, Neat, DirShrink.IndexesLeft, Cleared, NothingDropped, Moves.Evolves, Strays,
         Owned, PtrAt, Balance, SameTree, Thin;
    SoundOwned(d);
    SoundOwned(d');
    UnlinkExactIff(d, d', 0, NameOf(k), k + 1);
    ThinCleared(Table(d, 0), n, gone, k);
  }

  lemma ThinTarget(d: Disk, up: map<nat, Spot>, n: nat, gone: set<nat>, k: nat)
    requires Thinned(d, up, n, gone) && k < n && k / 16 < DIRECT && k !in gone
    ensures Lookup(Table(d, 0), NameOf(k)) == Some(k + 1) && d.inodes[k + 1] == EMPTY_FILE && k + 1 < INODES
    ensures FsOk(d, up) && Neat(d) && d.inodes[0].kind == Dir && GoodName(NameOf(k))
  {
    hide Table, Thin, FsOk, Neat, Balance, Lookup;
    ThinFound(Table(d, 0), n, gone, k);
    NameGood(k);
  }

  /** File k is unlinked. */
  method UnlinkOne(disk: RamDisk, n: nat, gone: set<nat>, k: nat, ghost up: map<nat, Spot>, ghost run: seq<State>)
    returns (ghost run': seq<State>)
    requires disk.Valid() && Thinned(disk.View(), up, n, gone) && k < n && k / 16 < DIRECT && k !in gone && |gone| < n
    requires NothingDropped(Table(disk.View(), 0), NameOf(k)) && Ends(run, disk.View(), up)
    modifies disk`freeBlocks, disk`freeInodes, disk`owner, disk.bitmap, disk.inodes, disk.blocks
    ensures disk.Valid() && Thinned(disk.View(), up - {k + 1}, n, gone + {k})
    ensures Ends(run', disk.View(), up - {k + 1}) && run' == run + [State(disk.View(), up - {k + 1})]
  {
    hide Thinned, NameOf, Run, FsStep, Unlinked, Lookup, Resolve, Table, GoodName, IntoDir, Means, OnDirs, Find,
         DirPart, NamePart, Front, Last, OnlyLostPath, Neat, FsOk, RamDisk.View, Sound, NoLaterSingleton,
         NothingDropped;
    ghost var d := disk.View();
    ThinTarget(d, up, n, gone, k);
    CallInRoot(d, up, NameOf(k));
    PathInRoot(d, NameOf(k));
    var r;
    ghost var dir, x;
    r, dir, x := RdUnlink(disk, "/" + NameOf(k), up, [NameOf(k)]);
    FileLess(d, up, disk.View(), n, gone, k);
    UnlinkIsStep(d, up, disk.View(), [], NameOf(k), 0, k + 1);
    OneMore(run, State(disk.View(), up - {k + 1}));
    run' := run + [State(disk.View(), up - {k + 1})];
  }

  /** On a new disk eighteen files are created in the root, and the first, the second and the last are unlinked. */
  method ThinOut() returns (disk: RamDisk, ghost up: map<nat, Spot>, ghost run: seq<State>)
    ensures fresh(disk) && fresh(disk.bitmap) && fresh(disk.inodes) && fresh(disk.blocks)
    ensures disk.Valid() && Thinned(disk.View(), up, 18, LEFT) && Ends(run, disk.View(), up) && |run| == 22
  {
    hide Populated, Thinned, Run, RamDisk.View, Sound, NothingDropped, Thin, NameOf, Table, FsOk, Neat;
    disk, up, run := Populate(18);
    NoneGone(disk.View(), up, 18);
    ThinTable(disk.View(), up, 18, {});
    NoneLone(Table(disk.View(), 0), {}, 0);
    run := UnlinkOne(disk, 18, {}, 0, up, run);
    up := up - {1};
    assert {} + {0} == {0};
    ThinTable(disk.View(), up, 18, {0});
    NoneLone(Table(disk.View(), 0), {0}, 1);
    run := UnlinkOne(disk, 18, {0}, 1, up, run);
    up := up - {2};
    assert {0} + {1} == {0, 1};
    ThinTable(disk.View(), up, 18, {0, 1});
    NoneLone(Table(disk.View(), 0), {0, 1}, 17);
    run := UnlinkOne(disk, 18, {0, 1}, 17, up, run);
    up := up - {18};
    assert {0, 1} + {17} == LEFT;
  }

  lemma ThinTable(d: Disk, up: map<nat, Spot>, n: nat, gone: set<nat>)
    requires Thinned(d, up, n, gone)
    ensures n <= MOST && Thin(Table(d, 0), n, gone)
  {
    hide Table, Thin, FsOk, Neat, Balance;
  }

  // ---------------------------------------------------------------- one more, and gone again

  lemma NewName(d: Disk, up: map<nat, Spot>, c: string)
    requires Thinned(d, up, 18, LEFT) && GoodName(c) && forall k :: 0 <= k < 18 ==> NameOf(k) != c
    ensures Lookup(Table(d, 0), c) == None && Goal(d, 0) == 0 && CanCreate(d, [])
    ensures FsOk(d, up) && Neat(d) && Balance(d) == Bitmap.DATA_BLOCKS_NUM && d.inodes[0].kind == Dir
    ensures !Reversible(d, 0)
  {
    hide Table, Thin, FsOk, Neat, Balance, Lookup, NameOf, Wanted, FirstFree, CountFrom, PtrAt, SingleUsed;
    ThinAbsent(Table(d, 0), 18, LEFT, c);
    assert |LEFT| == 3;
    LastAlone(Table(d, 0));
    ThinEnd(Table(d, 0), 18, LEFT, 0);
    LowNeeds(d, 0, 0);
  }

  lemma {:induction false} SinglesOne(t: DirTable, lo: nat, hi: nat, p: nat)
    requires hi <= LEAVES && lo <= p < hi && forall q :: lo <= q < hi ==> (Lone(t[q]) <==> q == p)
    ensures Singles(t, lo, hi) == 1
    decreases hi
  {
    hide Count;
    if p == hi - 1 { SinglesNone(t, lo, p); } else { SinglesOne(t, lo, hi - 1, p); }
  }

  lemma TwoInUse(es: Entries16, i: nat, j: nat)
    requires i < j < ENTRIES && es[i].ino != 0 && es[j].ino != 0
    ensures Count(es) != 1
  {
    hide CountFrom;
    CountPositive(es, 0, i);
  }

  /** The new entry in the first block, and what is around it. */
  lemma AfterPut(t: DirTable, j: nat, c: string, x: nat)
    requires Thin(t, 18, LEFT) && FirstFree(BlockOf(t[0]), j) && c != "" && x != 0
    requires forall k :: 0 <= k < 18 ==> NameOf(k) != c
    ensures j == 0
    ensures var u := Put(t, 0, j, Entry(c, x));
            && LevelLo(u, c) == 0 && LevelHi(u, c) == DIRECT
            && (forall q :: 0 <= q < LEAVES ==> (Lone(u[q]) <==> q == 1))
            && (forall q :: 0 <= q < LEAVES && q != 1 ==> LeafLookup(u[q], NameOf(16)) == None)
  {
    hide NameOf, Thin, CountFrom, FindFrom, FirstFree, LevelLo, LevelHi;
    LastAlone(t);
    var u := Put(t, 0, j, Entry(c, x));
    ThinPlace(t, 18, LEFT, 0, 0);
    PutHas(t, 0, j, Entry(c, x));
    LevelFrom0(u, c);
    ThinPlace(t, 18, LEFT, 0, 2);
    ThinPlace(t, 18, LEFT, 0, 3);
    TwoInUse(u[0].value, 2, 3);
    forall q | 0 <= q < LEAVES
           ensures (Lone(u[q]) <==> q == 1) && (q != 1 ==> LeafLookup(u[q], NameOf(16)) == None) {
      ThinEnd(t, 18, LEFT, q);
      if q != 1 && Has(u[q], NameOf(16)) {
        var i := HasWhere(u[q], NameOf(16));
        ThinName(t, 18, LEFT, 16, q, i);
      }
    }
  }

  /** The file alone in the second block goes when the new entry is cleared. */
  lemma AloneGone(t: DirTable, j: nat, c: string, x: nat)
    requires Thin(t, 18, LEFT) && FirstFree(BlockOf(t[0]), j) && c != "" && x != 0
    requires forall k :: 0 <= k < 18 ==> NameOf(k) != c
    ensures Lookup(t, NameOf(16)) == Some(17)
    ensures var u := Put(t, 0, j, Entry(c, x)); Lookup(Cleared(u, c), NameOf(16)) == None && Lost(u, c) == 1
  {
    hide NameOf, Thin, CountFrom, FindFrom, FirstFree, LevelLo, LevelHi, LookupFrom, Put, Cleared, LeafLookup,
         ClearLeaf;
    AfterPut(t, j, c, x);
    ThinFound(t, 18, LEFT, 16);
    var u, name := Put(t, 0, j, Entry(c, x)), NameOf(16);
    NameThere(16);
    forall q | 0 <= q < LEAVES ensures LeafLookup(Cleared(u, c)[q], name) == None {
      ClearedLeaf(u, c, q);
      if q == 1 { ClearedSingleton(u[1], c, name); } else { ClearLeafNoNew(u[q], c, name); }
    }
    NoneAnywhere(Cleared(u, c), name);
    SinglesOne(u, 0, DIRECT, 1);
    LowKeepsIndex(u, c);
  }

  lemma LowKeepsIndex(t: DirTable, c: string)
    requires LevelHi(t, c) == DIRECT
    ensures !DirShrink.SingleGoes(t, c)
  {
  }

  /** Creating a file of a new name and unlinking it, after ThinOut. */
  lemma ThereAndGone(d: Disk, up: map<nat, Spot>, d1: Disk, d2: Disk, c: string, x: nat, w: Where)
    requires Thinned(d, up, 18, LEFT) && GoodName(c) && forall k :: 0 <= k < 18 ==> NameOf(k) != c
    requires Created(d, d1, 0, c, x, Reg, FileIo.RW, w) && Unlinked(d1, d2, 0, c, x) && Sound(d1) && Sound(d2)
    ensures d2.used != d.used || d2.inodes != d.inodes
    ensures Resolve(d, 0, [NameOf(16)]) == Some(17) && Resolve(d2, 0, [NameOf(16)]) == None
            && d2.inodes[17] == EMPTY_FILE
    ensures Balance(d2) == Bitmap.DATA_BLOCKS_NUM - 1 && d2.freeInodes == d.freeInodes
  {
    hide Table, Thin, FsOk, Neat, Balance, Lookup, NameOf, Wanted, FirstFree, Put, Cleared, Lost, PtrAt, Elsewhere,
         Hung, NoRows, Moves.Evolves, DirShrink.IndexesLeft, Reversible, Goal, Strays, Sound, Resolve, GoodName,
         SameTree;
    NewName(d, up, c);
    SoundOwned(d1);
    SoundOwned(d2);
    assert Aimed(d, 0, w);
    assert ThereAndBack(d, up, d1, d2, 0, c, x, Reg, FileIo.RW, w) by { OkSound(d, up); }
    CreateUnlinkIff(d, up, d1, d2, 0, c, x, Reg, FileIo.RW, w);
    AloneGone(Table(d, 0), w.j, c, x);
    UnlinkBalance(d1, d2, 0, c, x);
    RootPath(d, 16);
    RootPath(d2, 16);
    SeventeenthStays(d, up, d1, d2, c, x, w);
  }

  lemma SeventeenthStays(d: Disk, up: map<nat, Spot>, d1: Disk, d2: Disk, c: string, x: nat, w: Where)
    requires Thinned(d, up, 18, LEFT) && Created(d, d1, 0, c, x, Reg, FileIo.RW, w) && Unlinked(d1, d2, 0, c, x)
    ensures d2.inodes[17] == EMPTY_FILE
  {
    hide FsOk, Neat, Table, Thin, Balance, FirstFree, Put, Cleared, Hung, NoRows, Moves.Evolves, DirShrink.IndexesLeft,
         Goal, Strays, SameTree, PtrAt, Aimed, Moves.Owns;
    assert d.inodes[17] == EMPTY_FILE && x != 17;
  }

  lemma OkSound(d: Disk, up: map<nat, Spot>)
    requires FsOk(d, up)
    ensures Sound(d)
  {
    hide Sound;
  }

  lemma CreatedThere(d: Disk, up: map<nat, Spot>, d1: Disk, up1: map<nat, Spot>, c: string, x: nat, w: Where)
    requires Thinned(d, up, 18, LEFT) && GoodName(c) && forall k :: 0 <= k < 18 ==> NameOf(k) != c
    requires CreateResult(d, up, d1, up1, [], c, Reg, FileIo.RW, true, x, w) && OnlyNewPath(d, d1, [c], x)
    ensures Created(d, d1, 0, c, x, Reg, FileIo.RW, w) && FsOk(d1, up1) && d1.inodes[0].kind == Dir
    ensures Resolve(d1, 0, [c]) == Some(x) && CanUnlink(d1, [c])
  {
    hide Thinned, NameOf, FsOk, Resolve, GoodName, Table, Elsewhere, Hung, NoRows, Put, Moves.Evolves, FirstFree,
         Balance, Goal, CanUnlink;
    NewName(d, up, c);
    PathInRoot(d, c);
    CanUnlinkNew(d, d1, 0, c, x, Reg, FileIo.RW, w, [c]);
  }

  /** A file of a new name is created in the thinned-out root. */
  method AddNew(disk: RamDisk, c: string, ghost up: map<nat, Spot>, ghost run: seq<State>)
    returns (r: int, ghost x: nat, ghost w: Where, ghost up': map<nat, Spot>, ghost run': seq<State>)
    requires disk.Valid() && Thinned(disk.View(), up, 18, LEFT) && Ends(run, disk.View(), up)
    requires GoodName(c) && forall k :: 0 <= k < 18 ==> NameOf(k) != c
    modifies disk`freeBlocks, disk`freeInodes, disk`owner, disk.bitmap, disk.inodes, disk.blocks
    ensures disk.Valid() && r == 0 && Ends(run', disk.View(), up') && run' == run + [State(disk.View(), up')]
    ensures Created(old(disk.View()), disk.View(), 0, c, x, Reg, FileIo.RW, w) && FsOk(disk.View(), up')
            && disk.View().inodes[0].kind == Dir && Neat(disk.View())
    ensures Resolve(disk.View(), 0, [c]) == Some(x) && CanUnlink(disk.View(), [c])
  {
    hide Thinned, NameOf, Run, FsStep, Created, Lookup, Resolve, Table, GoodName, IntoDir, Means, DirPart, NamePart,
         OnlyNewPath, NoNewPath, Neat, FsOk, RamDisk.View, Sound, CanCreate, CanUnlink, Goal, Needs, CreateResult,
         Reversible, Balance;
    ghost var d := disk.View();
    NewName(d, up, c);
    CallInRoot(d, up, c);
    PathInRoot(d, c);
    r, x, w, up' := RdCreate(disk, "/" + c, Reg, FileIo.RW, up, [], c);
    CreateIsStep(d, up, disk.View(), up', [], c, Reg, FileIo.RW, true, x, w);
    OneMore(run, State(disk.View(), up'));
    run' := run + [State(disk.View(), up')];
    CreatedThere(d, up, disk.View(), up', c, x, w);
  }

  /** Eighteen files are created in the root of a new disk, the first, the second and the last are unlinked, and then a
      file of any new name is created and unlinked. All calls succeed. The seventeenth file was there before the last
      two calls; afterwards its inode is still in use, but its path leads nowhere, and a block is neither marked nor
      counted as free. The condition of CreateUnlinkIff tells so before the two calls. */
  method UndoneInVain(c: string) returns (disk: RamDisk, r: int, ghost up: map<nat, Spot>, ghost run: seq<State>)
    requires GoodName(c) && forall k :: 0 <= k < 18 ==> NameOf(k) != c
    ensures disk.Valid() && Ends(run, disk.View(), up) && |run| == 24 && r == 0
    ensures Thinned(run[21].d, run[21].up, 18, LEFT) && !Reversible(run[21].d, 0)
    ensures Resolve(run[21].d, 0, [c]) == None && Resolve(run[22].d, 0, [c]).Some?
            && Resolve(disk.View(), 0, [c]) == None
    ensures Resolve(run[21].d, 0, [NameOf(16)]) == Some(17) && Resolve(disk.View(), 0, [NameOf(16)]) == None
            && disk.View().inodes[17] == EMPTY_FILE
    ensures disk.View().used != run[21].d.used || disk.View().inodes != run[21].d.inodes
    ensures run[21].d.freeBlocks + |run[21].d.used| == Bitmap.DATA_BLOCKS_NUM
            && disk.freeBlocks + |disk.View().used| == Bitmap.DATA_BLOCKS_NUM - 1
  {
    hide Thinned, NameOf, Run, FsStep, Unlinked, Created, Lookup, Resolve, Table, GoodName, IntoDir, Means, OnDirs,
         Find, DirPart, NamePart, Front, Last, OnlyLostPath, Neat, FsOk, RamDisk.View, Sound, NoLaterSingleton,
         CanUnlink, Reversible;
    disk, up, run := ThinOut();
    ghost var d, up0 := disk.View(), up;
    NewName(d, up, c);
    PathInRoot(d, c);
    ghost var x, w;
    r, x, w, up, run := AddNew(disk, c, up, run);
    ghost var d1 := disk.View();
    CallInRoot(d1, up, c);
    PathInRoot(d1, c);
    ghost var dir, gone;
    r, dir, gone := RdUnlink(disk, "/" + c, up, [c]);
    UnlinkIsStep(d1, up, disk.View(), [], c, 0, x);
    up := up - {x};
    OneMore(run, State(disk.View(), up));
    run := run + [State(disk.View(), up)];
    ThereAndGone(d, up0, d1, disk.View(), c, x, w);
    ViewCounters(disk);
  }

  // ---------------------------------------------------------------- a full leaf on the way

  lemma TwoFullLeaves(t: DirTable)
    requires Thin(t, 32, {})
    ensures NothingDropped(t, NameOf(1))
  {
    hide NameOf, Thin, Count, LevelLo, LevelHi;
    forall q | 0 <= q < LEAVES && t[q].Some? ensures Count(t[q].value) != 1 {
      ThinEnd(t, 32, {}, q);
      TwoThere(t, 32, {}, q, 2, 3);
    }
  }

  /** Without the second file, the second leaf is full and the third is missing. */
  lemma SecondLeafFull(t: DirTable)
    requires Thin(t, 32, {1})
    ensures !Takes(t[1]) && t[2] == None
  {
    hide NameOf, Thin;
    ThinEnd(t, 32, {1}, 1);
    ThinEnd(t, 32, {1}, 2);
    forall j | 0 <= j < ENTRIES ensures t[1].value[j].ino != 0 { ThinPlace(t, 32, {1}, 1, j); }
  }

  lemma ThirdLeafNext(d: Disk, up: map<nat, Spot>, c: string)
    requires Thinned(d, up, 32, {1}) && GoodName(c) && forall k :: 0 <= k < 32 ==> NameOf(k) != c
    ensures FsOk(d, up) && d.inodes[0].kind == Dir && d.inodes[0].size == 496 && d.freeInodes > 0 && d.freeBlocks > 1
    ensures Lookup(Table(d, 0), c) == None && !Takes(Table(d, 0)[1]) && Table(d, 0)[2] == None
    ensures Needs(d, 0, 2) == 1
  {
    hide Table, Thin, FsOk, Neat, Balance, Lookup, NameOf, Takes, PtrAt;
    ThinAbsent(Table(d, 0), 32, {1}, c);
    SecondLeafFull(Table(d, 0));
    LowNeeds(d, 0, 2);
  }

  lemma SeatedThird(d: Disk, ok: bool, w: Where)
    requires Seated(d, 0, ok, w) && d.inodes[0].size == 496 && !Takes(Table(d, 0)[1]) && Table(d, 0)[2] == None
    ensures ok && w.At? && w.q == 2
  {
    hide Table, PtrAt;
    assert Takes(Table(d, 0)[2]);
  }

  /** Thirty-two files are created in the root of a new disk, the second is unlinked, and then a file of any new name is
      created. The first leaf has a free entry but lies in front of the size; the second is full; the search for room
      goes on to the third, which is not there yet, and takes a block for it. */
  method FullLeafPassed(c: string) returns (disk: RamDisk, r: int, ghost up: map<nat, Spot>, ghost run: seq<State>)
    requires GoodName(c) && forall k :: 0 <= k < 32 ==> NameOf(k) != c
    ensures disk.Valid() && Ends(run, disk.View(), up) && |run| == 35 && r == 0
    ensures var d := run[33].d;
            && d.inodes[0].size == 496 && !Takes(Table(d, 0)[1]) && Table(d, 0)[2] == None
            && Resolve(d, 0, [c]) == None && Resolve(disk.View(), 0, [c]).Some?
            && Has(Table(disk.View(), 0)[2], c) && disk.freeBlocks == d.freeBlocks - 1
  {
    hide Populated, Thinned, NameOf, Run, FsStep, Lookup, Resolve, Table, GoodName, IntoDir, Means, OnDirs, Find,
         DirPart, NamePart, Front, Last, OnlyNewPath, NoNewPath, Neat, FsOk, RamDisk.View, Sound, CanCreate, Goal,
         Needs, CreateResult, NothingDropped, Thin, Takes, Seated;
    disk, up, run := Populate(32);
    NoneGone(disk.View(), up, 32);
    ThinTable(disk.View(), up, 32, {});
    TwoFullLeaves(Table(disk.View(), 0));
    run := UnlinkOne(disk, 32, {}, 1, up, run);
    up := up - {2};
    assert {} + {1} == {1};
    ghost var d, up0 := disk.View(), up;
    ThirdLeafNext(d, up, c);
    CallInRoot(d, up, c);
    PathInRoot(d, c);
    ViewCounters(disk);
    ghost var x, w;
    r, x, w, up := RdCreate(disk, "/" + c, Reg, FileIo.RW, up, [], c);
    SeatedThird(d, r == 0, w);
    ViewCounters(disk);
    CreateIsStep(d, up0, disk.View(), up, [], c, Reg, FileIo.RW, true, x, w);
    OneMore(run, State(disk.View(), up));
    run := run + [State(disk.View(), up)];
    ThirdHas(d, up0, disk.View(), up, c, x, w);
  }

  lemma ThirdHas(d: Disk, up: map<nat, Spot>, d1: Disk, up1: map<nat, Spot>, c: string, x: nat, w: Where)
    requires CreateResult(d, up, d1, up1, [], c, Reg, FileIo.RW, true, x, w) && w.At? && w.q == 2
    requires d.inodes[0].kind == Dir && OnlyNewPath(d, d1, [c], x)
    ensures Has(Table(d1, 0)[2], c) && Resolve(d1, 0, [c]) == Some(x)
  {
    hide FsOk, Table, Elsewhere, Hung, NoRows, Moves.Evolves, Balance, Goal;
    assert w.j < ENTRIES;
    PutThere(Table(d, 0), 2, w.j, Entry(c, x));
    HasIf(Table(d1, 0)[2], c, w.j);
  }
}
