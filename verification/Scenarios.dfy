/** The failures, reached: calls from the constructor on, after which a promise of the comments does not hold. */
module Scenarios {
  import opened Options
  import opened Bitmap
  import opened Disk
  import opened Moves
  import opened FileSteps
  import opened Directory
  import opened DirTree
  import opened RamDisks
  import opened Paths
  import opened Tree
  import opened PathWalks
  import opened DirGrow
  import DirShrink
  import opened Ledgers
  import opened Creating
  import opened Create
  import opened Unlinking
  import Unlink
  import opened Losses
  import opened Runs
  import RunPaths
  import opened Filling
  import FileIo
  import ClearInode

  const EMPTY_FILE: Inode := NO_INODE.(kind := Reg, access := FileIo.RW)

  /** The run ends with this disk and these places. */
  ghost predicate Ends(run: seq<State>, d: Disk, up: map<nat, Spot>) {
    Run(run) && run[|run| - 1] == State(d, up)
  }

  lemma OneMore(run: seq<State>, s: State)
    requires Run(run) && FsStep(run[|run| - 1], s)
    ensures Run(run + [s]) && (run + [s])[|run|] == s
  {
    hide FsStep, Fresh;
    var more := run + [s];
    forall k | 0 <= k < |more| - 1 ensures FsStep(more[k], more[k + 1]) {
      if k < |run| - 1 { assert FsStep(run[k], run[k + 1]); }
    }
  }

  /** The root holds n files, all of them empty. */
  ghost predicate Populated(d: Disk, up: map<nat, Spot>, n: nat) {
    && n <= MOST && FsOk(d, up) && Neat(d) && Balance(d) == DATA_BLOCKS_NUM
    && Table(d, 0) == Filled(n) && d.inodes[0].kind == Dir && d.inodes[0].size == 16 * n
    && d.freeInodes == INODES - 1 - n && d.freeBlocks >= DATA_BLOCKS_NUM - 2 * n
    && (n <= 1 ==> d.freeBlocks == DATA_BLOCKS_NUM - n)
    && forall y :: 0 < y < INODES ==> d.inodes[y] == if y <= n then EMPTY_FILE else NO_INODE
  }

  lemma NobodyYet()
    ensures Populated(Fresh(), map[], 0) && Run([State(Fresh(), map[])])
  {
    FreshOk();
    FilledEmpty();
    hide Table, Filled, FsOk, Neat;
    forall q | 0 <= q < LEAVES ensures Table(Fresh(), 0)[q] == None { FreshTable(0, q); }
    assert Table(Fresh(), 0) == Filled(0);
  }

  lemma NameGood(i: nat)
    requires i < MOST
    ensures GoodName(NameOf(i))
  {
  }

  lemma PathInRoot(d: Disk, c: string)
    requires d.inodes[0].kind == Dir && GoodName(c)
    ensures Named([c]) && c != "" && "/" + c != "/" && GoodNames([]) && [] + [c] == [c] && PathOf([c]) == "/" + c
            && 0 < |c| < 14
    ensures Resolve(d, 0, []) == Some(0) && ThroughDirs(d, 0, [c]) && Resolve(d, 0, [c]) == Lookup(Table(d, 0), c)
  {
    hide Lookup, Step, Table;
    assert [c][1..] == [];
    assert PathTail([]) == "";
  }

  /** What a call on "/" and a name comes with. */
  lemma CallInRoot(d: Disk, up: map<nat, Spot>, c: string)
    requires FsOk(d, up) && d.inodes[0].kind == Dir && GoodName(c)
    ensures var path := "/" + c;
            && IntoDir(d, path) && Means(d, DirPart(path), []) && NamePart(path) == c
            && OnDirs(d, path) && Means(d, path, [c]) && path != "/" && DirPart(path) != "" && Front([c]) == []
               && Last([c]) == c
  {
    hide FsOk, Resolve, Lookup, ThroughDirs, Table, PathOf, IntoDir, Means, OnDirs, DirPart, NamePart;
    PathInRoot(d, c);
    CallNamed(d, up, [], c);
  }

  lemma RootPath(d: Disk, i: nat)
    requires d.inodes[0].kind == Dir && i < MOST
    ensures var c := NameOf(i);
            && GoodName(c) && Named([c]) && c != "" && "/" + c != "/" && GoodNames([]) && [] + [c] == [c]
               && PathOf([c]) == "/" + c
            && Resolve(d, 0, []) == Some(0) && ThroughDirs(d, 0, [c]) && Resolve(d, 0, [c]) == Lookup(Table(d, 0), c)
  {
    hide Lookup, Table, NameOf, Resolve, ThroughDirs, PathOf, GoodName;
    NameGood(i);
    PathInRoot(d, NameOf(i));
  }

  /** What a call on "/" and the i-th name comes with. */
  lemma RootCall(d: Disk, up: map<nat, Spot>, i: nat)
    requires FsOk(d, up) && d.inodes[0].kind == Dir && i < MOST
    ensures var c := NameOf(i); var path := "/" + c;
            && IntoDir(d, path) && Means(d, DirPart(path), []) && NamePart(path) == c && |c| == 2
            && OnDirs(d, path) && Means(d, path, [c]) && path != "/" && DirPart(path) != "" && Front([c]) == []
               && Last([c]) == c
  {
    hide NameOf, FsOk, GoodName, IntoDir, Means, OnDirs, DirPart, NamePart;
    NameThere(i);
    NameGood(i);
    CallInRoot(d, up, NameOf(i));
  }

  // ---------------------------------------------------------------- many files

  lemma RoomForMore(d: Disk, up: map<nat, Spot>, n: nat)
    requires Populated(d, up, n) && n < MOST
    ensures Goal(d, 0) == n / 16 < FIRST_ROW && Needs(d, 0, n / 16) <= 2 && CanCreate(d, [])
    ensures n == 0 ==> Needs(d, 0, 0) == 1
    ensures Lookup(Table(d, 0), NameOf(n)) == None
  {
    hide Table, Filled, NameOf, FsOk, Neat, Lookup, Wanted, PtrAt;
    FilledWanted(n);
    FilledNext(n);
    LowNeeds(d, 0, n / 16);
    FilledAt(n, n / 16, 0);
  }

  lemma InRoot(d: Disk, up: map<nat, Spot>, d': Disk, up': map<nat, Spot>, n: nat, x: nat, w: Where)
    requires n < MOST && CreateResult(d, up, d', up', [], NameOf(n), Reg, FileIo.RW, true, x, w)
    ensures FsOk(d', up') && Created(d, d', 0, NameOf(n), x, Reg, FileIo.RW, w)
  {
    hide NameOf, FsOk, Created;
  }

  /** The n-th file was created. */
  lemma FileAdded(d: Disk, up: map<nat, Spot>, d': Disk, up': map<nat, Spot>, n: nat, x: nat, w: Where)
    requires Populated(d, up, n) && n < MOST
    requires CreateResult(d, up, d', up', [], NameOf(n), Reg, FileIo.RW, true, x, w)
    requires forall y :: 0 < y < x ==> d.inodes[y].kind != NoFile
    requires w.At? && w.q == n / 16 && Neat(d') && d'.freeBlocks == d.freeBlocks - Needs(d, 0, n / 16)
    ensures Populated(d', up', n + 1) && x == n + 1
  {
    hide Table, Filled, NameOf, FsOk, Neat, Created, CreateResult, CanCreate, Balance, Put, Needs, Goal, FirstFree,
         Lookup;
    InRoot(d, up, d', up', n, x, w);
    RoomForMore(d, up, n);
    NewInode(d, d', up, n, x, w);
    NewEntry(d, d', n, x, w);
    FilledPut(n, w.j);
    NewSizes(d, d', n, x, w);
  }

  lemma NewEntry(d: Disk, d': Disk, n: nat, x: nat, w: Where)
    requires n < MOST && Created(d, d', 0, NameOf(n), x, Reg, FileIo.RW, w) && w.At?
    ensures d'.freeInodes == d.freeInodes - 1 && Balance(d') == Balance(d)
    ensures w.q < LEAVES && FirstFree(BlockOf(Table(d, 0)[w.q]), w.j) && w.j < ENTRIES
    ensures Table(d', 0) == Put(Table(d, 0), w.q, w.j, Entry(NameOf(n), x))
  {
    hide Table, NameOf, Elsewhere, Hung, NoRows, Put, Balance;
  }

  lemma NewInode(d: Disk, d': Disk, up: map<nat, Spot>, n: nat, x: nat, w: Where)
    requires Populated(d, up, n) && n < MOST && Created(d, d', 0, NameOf(n), x, Reg, FileIo.RW, w)
    requires forall y :: 0 < y < x ==> d.inodes[y].kind != NoFile
    ensures x == n + 1
  {
    hide Table, Filled, NameOf, FsOk, Neat, Elsewhere, Hung, NoRows, Put, FirstFree, Balance;
    assert d.inodes[n + 1] == NO_INODE;
    assert d.inodes[x].kind == NoFile;
  }

  lemma NewSizes(d: Disk, d': Disk, n: nat, x: nat, w: Where)
    requires n < MOST && Created(d, d', 0, NameOf(n), x, Reg, FileIo.RW, w) && x == n + 1 && d.inodes[0].size == 16 * n
    requires forall y :: 0 < y < INODES ==> d.inodes[y] == if y <= n then EMPTY_FILE else NO_INODE
    ensures d'.inodes[0].kind == Dir && d'.inodes[0].size == 16 * (n + 1)
    ensures forall y :: 0 < y < INODES ==> d'.inodes[y] == if y <= n + 1 then EMPTY_FILE else NO_INODE
  {
    hide Table, NameOf, SameTree, Hung, NoRows, Put, FirstFree, Balance;
  }

  /** One more file in the root. */
  method AddFile(disk: RamDisk, n: nat, ghost up: map<nat, Spot>, ghost run: seq<State>)
    returns (ghost up': map<nat, Spot>, ghost run': seq<State>)
    requires disk.Valid() && Populated(disk.View(), up, n) && n < MOST && Ends(run, disk.View(), up)
    modifies disk`freeBlocks, disk`freeInodes, disk`owner, disk.bitmap, disk.inodes, disk.blocks
    ensures disk.Valid() && Populated(disk.View(), up', n + 1)
    ensures Ends(run', disk.View(), up') && run' == run + [State(disk.View(), up')]
  {
    hide Populated, NameOf, Run, FsStep, CreateResult, CanCreate, Goal, Needs, Lookup, Resolve, ThroughDirs, Table,
         PathOf, GoodName, IntoDir, Means, OnDirs, Find, DirPart, NamePart, Front, Last, OnlyNewPath, NoNewPath, Neat,
         FsOk, RamDisk.View, Sound;
    ghost var d := disk.View();
    PopulatedOk(d, up, n);
    RootPath(d, n);
    RootCall(d, up, n);
    RoomForMore(d, up, n);
    var r;
    ghost var x, w;
    r, x, w, up' := RdCreate(disk, "/" + NameOf(n), Reg, FileIo.RW, up, [], NameOf(n));
    ViewCounters(disk);
    FileAdded(d, up, disk.View(), up', n, x, w);
    CreateIsStep(d, up, disk.View(), up', [], NameOf(n), Reg, FileIo.RW, true, x, w);
    OneMore(run, State(disk.View(), up'));
    run' := run + [State(disk.View(), up')];
  }

  lemma PopulatedOk(d: Disk, up: map<nat, Spot>, n: nat)
    requires Populated(d, up, n)
    ensures FsOk(d, up) && Neat(d) && d.inodes[0].kind == Dir
  {
    hide FsOk, Neat, Table, Filled;
  }

  /** A new disk with n files in its root. */
  method Populate(n: nat) returns (disk: RamDisk, ghost up: map<nat, Spot>, ghost run: seq<State>)
    requires n <= MOST
    ensures fresh(disk) && fresh(disk.bitmap) && fresh(disk.inodes) && fresh(disk.blocks)
    ensures disk.Valid() && Populated(disk.View(), up, n)
    ensures Ends(run, disk.View(), up) && |run| == n + 1
  {
    hide Populated, Run, RamDisk.View, Sound;
    disk := new RamDisk();
    NobodyYet();
    up, run := map[], [State(Fresh(), map[])];
    for i := 0 to n
      invariant disk.Valid() && Populated(disk.View(), up, i) && Ends(run, disk.View(), up) && |run| == i + 1
    {
      up, run := AddFile(disk, i, up, run);
    }
  }

  // ---------------------------------------------------------------- the first one is unlinked

  /** The first of n files has been unlinked. */
  ghost predicate Bereft(d: Disk, up: map<nat, Spot>, n: nat) {
    && 0 < n <= MOST && FsOk(d, up) && Neat(d)
    && Table(d, 0) == Cleared(Filled(n), NameOf(0)) && d.inodes[0].kind == Dir && d.inodes[0].size == 16 * (n - 1)
    && d.freeInodes == INODES - n && d.freeBlocks >= DATA_BLOCKS_NUM - 2 * n
    && (n == 1 ==> d.freeBlocks == DATA_BLOCKS_NUM - 1)
    && Resolve(d, 0, [NameOf(0)]) == None
  }

  lemma FirstThere(d: Disk, up: map<nat, Spot>, n: nat)
    requires Populated(d, up, n) && n > 0
    ensures Lookup(Table(d, 0), NameOf(0)) == Some(1) && d.inodes[1] == EMPTY_FILE && d.inodes[1].kind == Reg
            && INODES > 1
    ensures Unlink.CanUnlink(d, [NameOf(0)])
  {
    hide Table, Filled, NameOf, FsOk, Neat, Lookup;
    FilledFound(n, 0);
    RootPath(d, 0);
  }

  lemma FirstGone(d: Disk, up: map<nat, Spot>, d': Disk, n: nat)
    requires Populated(d, up, n) && n > 0 && Unlinked(d, d', 0, NameOf(0), 1)
    requires FsOk(d', up - {1}) && Neat(d') && Resolve(d', 0, [NameOf(0)]) == None
    ensures Bereft(d', up - {1}, n)
    ensures Balance(d') == DATA_BLOCKS_NUM <==> NothingDropped(Filled(n), NameOf(0))
    ensures n == 1 ==> d'.used == {}
  {
    hide Table, Filled, NameOf, TreeOk, Ledger, Neat, Elsewhere, DirShrink.IndexesLeft, Cleared, NothingDropped,
         Resolve, Evolves, Strays, Owned, PtrAt, Lost;
    SoundOwned(d);
    SoundOwned(d');
    UnlinkExactIff(d, d', 0, NameOf(0), 1);
    if n == 1 {
      FirstDropsIff(1);
      EmptyFileOwns(d, 1);
    }
  }

  lemma EmptyFileOwns(d: Disk, x: nat)
    requires Owned(d) && x < INODES && d.inodes[x] == EMPTY_FILE
    ensures |Owns(d, x)| == 0
  {
    hide PtrAt, Owned;
    forall b ensures b !in Owns(d, x) {
      if b in Owns(d, x) {
        ClearInode.OwnedSlotValid(d, b);
        BlankNoPtr(d, x, d.owner[b].slot);
      }
    }
    assert Owns(d, x) == {};
  }

  /** The first file of the root is unlinked. */
  method UnlinkFirst(disk: RamDisk, n: nat, ghost up: map<nat, Spot>, ghost run: seq<State>)
          returns (ghost run': seq<State>)
    requires disk.Valid() && Populated(disk.View(), up, n) && n > 0 && Ends(run, disk.View(), up)
    modifies disk`freeBlocks, disk`freeInodes, disk`owner, disk.bitmap, disk.inodes, disk.blocks
    ensures disk.Valid() && Bereft(disk.View(), up - {1}, n)
    ensures Ends(run', disk.View(), up - {1}) && run' == run + [State(disk.View(), up - {1})]
    ensures OnlyLostPath(old(disk.View()), disk.View(), [NameOf(0)]) <==> NoLaterSingleton(Filled(n), NameOf(0))
    ensures Balance(disk.View()) == DATA_BLOCKS_NUM <==> NothingDropped(Filled(n), NameOf(0))
    ensures n == 1 ==> disk.View().used == {}
  {
    hide Bereft, NameOf, Run, FsStep, Unlink.CanUnlink, Unlinked, Lookup, Resolve, ThroughDirs, Table, PathOf, GoodName,
         IntoDir, Means, OnDirs, Find, DirPart, NamePart, Front, Last, OnlyLostPath, Neat, FsOk, RamDisk.View, Sound,
         NoLaterSingleton, NothingDropped, Balance, Filled;
    ghost var d := disk.View();
    PopulatedOk(d, up, n);
    RootPath(d, 0);
    RootCall(d, up, 0);
    FirstThere(d, up, n);
    var r;
    ghost var dir, x;
    r, dir, x := Unlink.RdUnlink(disk, "/" + NameOf(0), up, [NameOf(0)]);
    FirstGone(d, up, disk.View(), n);
    UnlinkIsStep(d, up, disk.View(), [], NameOf(0), 0, 1);
    OneMore(run, State(disk.View(), up - {1}));
    run' := run + [State(disk.View(), up - {1})];
  }

  /** On a new disk n files are created in the root, and then the first is unlinked. Another path changes its meaning
      exactly for n = 17, 33, ..., 113, a block is lost exactly for n = 1, 17, 33, ..., 113: with one file the bitmap is
      clear but the counter is not back at 7931, with seventeen the last file cannot be found any more. */
  method FirstUnlinked(n: nat) returns (disk: RamDisk, ghost up: map<nat, Spot>, ghost run: seq<State>)
    requires 0 < n <= MOST
    ensures fresh(disk) && fresh(disk.bitmap) && fresh(disk.inodes) && fresh(disk.blocks)
    ensures disk.Valid() && Bereft(disk.View(), up, n) && Ends(run, disk.View(), up) && |run| == n + 2
    ensures OnlyLostPath(run[n].d, disk.View(), [NameOf(0)]) <==> n == 1 || n % 16 != 1 || n > 113
    ensures disk.freeBlocks + |disk.View().used| == DATA_BLOCKS_NUM <==> n % 16 != 1 || n > 113
    ensures n == 1 ==> disk.freeBlocks == DATA_BLOCKS_NUM - 1 && disk.View().used == {}
    ensures n == 17 ==> Resolve(run[n].d, 0, [NameOf(16)]) == Some(17) && Resolve(disk.View(), 0, [NameOf(16)]) == None
  {
    hide NameOf, Run, OnlyLostPath, RamDisk.View, Sound, NoLaterSingleton, NothingDropped, Filled, FsOk, Neat, Table,
         Resolve, Cleared, Lookup;
    disk, up, run := Populate(n);
    ghost var d := disk.View();
    run := UnlinkFirst(disk, n, up, run);
    up := up - {1};
    FirstGoneIff(n);
    FirstDropsIff(n);
    ViewCounters(disk);
    if n == 17 {
      SeventeenthFileLost();
      RootPath(d, 16);
      RootPath(disk.View(), 16);
    }
  }

  // ---------------------------------------------------------------- creating again

  lemma NoRoomOrFar(d: Disk, up: map<nat, Spot>, n: nat)
    requires Bereft(d, up, n) && 128 <= n && n % 16 == 0
    ensures FreeAt(Table(d, 0), 0, 0)
    ensures Goal(d, 0) == if n == 128 then LEAVES else FIRST_ROW
    ensures CanCreate(d, []) <==> n > 128
  {
    hide Table, Filled, NameOf, FsOk, Neat, Cleared, Wanted, FreeAt, PtrAt;
    RoomPassedBy(n);
  }

  /** 128 or more files, a multiple of 16, are created in the root, the first is unlinked, and then another is created.
      There are free blocks and free inodes, and the first entry of the first block is free; with 128 files there is no
      room nevertheless, with more the call succeeds, but its path leads nowhere. */
  method CreateAgain(n: nat) returns (disk: RamDisk, r: int, ghost up: map<nat, Spot>, ghost run: seq<State>)
    requires 128 <= n <= MOST && n % 16 == 0
    ensures disk.Valid() && Ends(run, disk.View(), up) && |run| == n + 3
    ensures var d := run[n + 1].d; d.freeBlocks > 6000 && d.freeInodes > 300 && FreeAt(Table(d, 0), 0, 0)
    ensures r == if n == 128 then -1 else 0
    ensures Resolve(run[n + 1].d, 0, [NameOf(0)]) == None && Resolve(disk.View(), 0, [NameOf(0)]) == None
    ensures disk.freeInodes == run[n + 1].d.freeInodes - if r == 0 then 1 else 0
  {
    hide NameOf, Run, FsStep, CreateResult, CanCreate, Goal, Needs, Lookup, Resolve, ThroughDirs, Table, PathOf,
         GoodName, IntoDir, Means, OnDirs, Find, DirPart, NamePart, Front, Last, OnlyNewPath, NoNewPath, Neat, FsOk,
         RamDisk.View, Sound, FreeAt, Cleared, Filled, OnlyLostPath;
    disk, up, run := FirstUnlinked(n);
    ghost var d, up0 := disk.View(), up;
    RootPath(d, 0);
    RootCall(d, up, 0);
    NoRoomOrFar(d, up, n);
    ghost var x, w;
    r, x, w, up := RdCreate(disk, "/" + NameOf(0), Reg, FileIo.RW, up, [], NameOf(0));
    ViewCounters(disk);
    NothingNew(d, disk.View(), [NameOf(0)]);
    CreateIsStep(d, up0, disk.View(), up, [], NameOf(0), Reg, FileIo.RW, r == 0, x, w);
    ResultCounts(d, up0, disk.View(), up, NameOf(0), r == 0, x, w);
    OneMore(run, State(disk.View(), up));
    run := run + [State(disk.View(), up)];
  }

  lemma NothingNew(d: Disk, d': Disk, p: seq<string>)
    requires NoNewPath(d, d') && Named(p)
    ensures Resolve(d', 0, p) == Resolve(d, 0, p)
  {
    hide Resolve;
  }

  lemma ResultCounts(d: Disk, up: map<nat, Spot>, d': Disk, up': map<nat, Spot>, c: string, ok: bool, x: nat, w: Where)
    requires CreateResult(d, up, d', up', [], c, Reg, FileIo.RW, ok, x, w)
    ensures d'.freeInodes == d.freeInodes - if ok then 1 else 0
  {
    hide FsOk, Neat, Table, SameTree, NoRows, Balance, Evolves, Resolve, Elsewhere, SameTables, Hung, Put;
  }

  // ---------------------------------------------------------------- the same name twice

  /** The same path is created twice. Both calls return 0; the path leads to the first file, and no path to the
      second. */
  method TwiceCreated() returns (disk: RamDisk, r: int, ghost up: map<nat, Spot>, ghost run: seq<State>)
    ensures disk.Valid() && Ends(run, disk.View(), up) && |run| == 3 && r == 0
    ensures Resolve(disk.View(), 0, [NameOf(0)]) == Some(1)
    ensures disk.View().inodes[2] == EMPTY_FILE && 2 in up && !RunPaths.LedTo(disk.View(), 2)
  {
    hide NameOf, Run, FsStep, CreateResult, CanCreate, Goal, Needs, Lookup, Resolve, ThroughDirs, Table, PathOf,
         GoodName, IntoDir, Means, OnDirs, Find, DirPart, NamePart, Front, Last, OnlyNewPath, NoNewPath, Neat, FsOk,
         RamDisk.View, Sound, Filled, RunPaths.LedTo, Populated;
    disk, up, run := Populate(1);
    ghost var d, up0 := disk.View(), up;
    PopulatedOk(d, up, 1);
    RootPath(d, 0);
    RootCall(d, up, 0);
    RoomForMore(d, up, 1);
    ghost var x, w;
    r, x, w, up := RdCreate(disk, "/" + NameOf(0), Reg, FileIo.RW, up, [], NameOf(0));
    CreateIsStep(d, up0, disk.View(), up, [], NameOf(0), Reg, FileIo.RW, true, x, w);
    TwinLost(d, up0, disk.View(), up, x, w);
    OneMore(run, State(disk.View(), up));
    run := run + [State(disk.View(), up)];
  }

  lemma TwinLost(d: Disk, up: map<nat, Spot>, d': Disk, up': map<nat, Spot>, x: nat, w: Where)
    requires Populated(d, up, 1) && CreateResult(d, up, d', up', [], NameOf(0), Reg, FileIo.RW, true, x, w)
    requires (forall y :: 0 < y < x ==> d.inodes[y].kind != NoFile) && (w.At? ==> w.q == 0)
    ensures Resolve(d', 0, [NameOf(0)]) == Some(1)
    ensures x == 2 && d'.inodes[x] == EMPTY_FILE && x in up' && !RunPaths.LedTo(d', x)
  {
    hide Table, Filled, NameOf, TreeOk, Ledger, Neat, Elsewhere, Hung, NoRows, Put, FirstFree, Lookup, Resolve,
         NameBefore, Sound, Evolves, Balance;
    var c := NameOf(0);
    SoundOwned(d);
    SoundOwned(d');
    RootPath(d, 0);
    RootPath(d', 0);
    FirstThere(d, up, 1);
    assert x == 2 by { assert d.inodes[2] == NO_INODE && d.inodes[x].kind == NoFile; }
    CreatedResolves(d, up, d', 0, c, x, Reg, FileIo.RW, w, []);
    if w.At? {
      RunPaths.CreatedDir(d, d', 0, c, x, Reg, FileIo.RW, w);
      TwinBehind(w.j);
      PutThere(Table(d, 0), w.q, w.j, Entry(c, x));
    }
    if RunPaths.LedTo(d', x) {
      var m := RunPaths.LedEntry(d', up', x);
    }
  }

  lemma TwinBehind(j: nat)
    requires FirstFree(BlockOf(Filled(1)[0]), j)
    ensures j < ENTRIES && NameBefore(Filled(1), NameOf(0), 0, j)
  {
    hide Filled, NameOf, LeafLookup;
    FilledPut(1, j);
    FilledAt(1, 0, 0);
  }
}
