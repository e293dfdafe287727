/** Whole runs of the file system: what holds after any sequence of writes, creations and removals. */
module Runs {
  import opened Options
  import opened Bitmap
  import opened Disk
  import opened Moves
  import FileData
  import opened FileSteps
  import opened Directory
  import opened DirTree
  import opened RamDisks
  import opened Tree
  import DirGrow
  import DirShrink
  import opened Ledgers
  import Creating
  import opened Create
  import opened Unlinking
  import Unlink
  import opened Losses
  import ClearInode
  import FdTable
  import FileWrite

  datatype State = State(d: Disk, up: map<nat, Spot>)

  /** What init_file_sys leaves behind: see RamDisk's constructor. */
  ghost function Fresh(): Disk {
    Disk(DATA_BLOCKS_NUM, INODES - 1, {}, seq(1024, _ => NO_INODE)[0 := NO_INODE.(kind := Dir)], seq(7931, _ => Zeroed),
        map[])
  }

  /** rd_write into regular file ino, however far it got. */
  ghost predicate WriteStep(s: State, s': State, ino: nat) {
    s'.up == s.up && ino < INODES && s.d.inodes[ino].kind == Reg && Kept(s.d, s'.d, ino)
  }

  /** rd_create or rd_mkdir that failed. */
  ghost predicate FailStep(s: State, s': State) {
    s'.up == s.up && Quiet(s.d, s'.d)
  }

  /** rd_create or rd_mkdir that succeeded. */
  ghost predicate CreateStep(s: State, s': State, dir: nat, c: string, x: nat, kind: Kind, mode: nat,
          w: DirGrow.Where) {
    Creating.Created(s.d, s'.d, dir, c, x, kind, mode, w) && s'.up == s.up[x := Creating.NewSpot(dir, w)]
  }

  /** rd_unlink that succeeded. */
  ghost predicate UnlinkStep(s: State, s': State, dir: nat, c: string, x: nat) {
    && Unlinked(s.d, s'.d, dir, c, x) && s'.up == s.up - {x}
    && Lookup(Table(s.d, dir), c) == Some(x) && (s.d.inodes[x].kind == Dir ==> s.d.inodes[x].size == 0)
  }

  ghost predicate FsStep(s: State, s': State) {
    || (exists ino :: WriteStep(s, s', ino))
    || FailStep(s, s')
    || (exists dir, c, x, kind, mode, w :: CreateStep(s, s', dir, c, x, kind, mode, w))
    || (exists dir, c, x :: UnlinkStep(s, s', dir, c, x))
  }

  ghost predicate Run(run: seq<State>) {
    && run != [] && run[0] == State(Fresh(), map[])
    && forall k :: 0 <= k < |run| - 1 ==> FsStep(run[k], run[k + 1])
  }

  // ---------------------------------------------------------------- the start

  lemma FreshNoPtr(i: nat, t: Slot)
    ensures PtrAt(Fresh(), i, t) == None
  {
  }

  lemma FreshTable(i: nat, q: nat)
    requires q < LEAVES
    ensures Table(Fresh(), i)[q] == None
  {
    hide PtrAt, Fresh;
    FreshNoPtr(i, FileData.LeafSlot(q));
  }

  lemma FreshOk()
    ensures FsOk(Fresh(), map[]) && Neat(Fresh()) && Balance(Fresh()) == DATA_BLOCKS_NUM
  {
    var d := Fresh();
    assert Sound(d) by {
      hide PtrAt, Fresh;
      forall i, t ensures PtrAt(Fresh(), i, t) == None { FreshNoPtr(i, t); }
      FreshFields();
    }
    assert TreeOk(d, map[]) by {
      hide PtrAt, Fresh, Table;
      forall i, q | 0 <= q < LEAVES ensures Table(Fresh(), i)[q] == None { FreshTable(i, q); }
      forall i, t ensures PtrAt(Fresh(), i, t) == None { FreshNoPtr(i, t); }
      FreshFields();
    }
    assert Neat(d) by {
      hide PtrAt, Fresh, Table;
      forall i, q | 0 <= q < LEAVES ensures Table(Fresh(), i)[q] == None { FreshTable(i, q); }
    }
    assert Kids(map[], 0) == {};
  }

  lemma FreshFields()
    ensures Fresh().used == {} && Fresh().owner == map[] && Fresh().freeBlocks == DATA_BLOCKS_NUM
            && Fresh().inodes[0].kind == Dir
  {
  }

  // ---------------------------------------------------------------- ownership

  /** Each elementary change, made under its guard, keeps block ownership and the bound on the counter. */
  lemma MovedSound(d: Disk, m: Move)
    requires Sound(d) && CanMove(d, m)
    ensures Sound(Moved(d, m))
  {
    hide Owned, PtrAt, RoleOk, Removed, Dropped, Attached, Taken, SetSize, WithInode;
    match m
    case Hang(ino, s, b) => AttachedSound(d, ino, s, b);
    case Take(b) => TakenCounted(d, b);
    case Fill(b, blk) => SetBlockOwned(d, b, blk);
    case Resize(ino, size) => SetSizeSame(d, ino, size, ino);
    case Cut(ino, s, b) => DirShrink.DroppedSound(d, ino, s, b);
    case Occupy(x, n) => WithInodeSound(d, x, n, x);
    case Remove(ino) => ClearInode.RemovedSound(d, ino);
  }

  lemma {:induction false} ThroughSound(d: Disk, ms: seq<Move>, d': Disk)
    requires Sound(d) && Through(d, ms, d')
    ensures Sound(d')
    decreases |ms|
  {
    hide Sound, CanMove, Moved;
    if ms != [] {
      MovedSound(d, ms[0]);
      ThroughSound(Moved(d, ms[0]), ms[1..], d');
    }
  }

  lemma EvolvesSound(d: Disk, d': Disk)
    requires Sound(d) && Evolves(d, d')
    ensures Sound(d')
  {
    hide Sound, Through;
    var ms :| Through(d, ms, d');
    ThroughSound(d, ms, d');
  }

  lemma StepSound(s: State, s': State)
    requires Sound(s.d) && FsStep(s, s')
    ensures Sound(s'.d)
  {
    hide Sound, Evolves, Others, Elsewhere, Table, SameTables, SameTree, NoRows, Creating.Hung, DirShrink.IndexesLeft,
         Lookup, PtrAt;
    assert Evolves(s.d, s'.d);
    EvolvesSound(s.d, s'.d);
  }

  // ---------------------------------------------------------------- the steps

  lemma WriteKeeps(s: State, s': State, ino: nat)
    requires FsOk(s.d, s.up) && Sound(s'.d) && WriteStep(s, s', ino)
    ensures FsOk(s'.d, s'.up) && Balance(s'.d) == Balance(s.d)
  {
    hide PtrAt, Table, NoRows, Sound, Ledger, Others, TidyTable;
    SoundOwned(s.d);
    forall i | 0 <= i < INODES && s'.d.inodes[i].kind == Dir ensures DirOk(s'.d, s'.up, i) {
      KeptKinds(s.d, s'.d, ino);
      assert DirOk(s.d, s.up, i);
      OthersSameTree(s.d, s'.d, ino, i);
      SameTreeTable(s.d, s'.d, i);
    }
    KeptKinds(s.d, s'.d, ino);
    WriteLedger(s, s', ino);
  }

  lemma KeptKinds(d: Disk, d': Disk, ino: nat)
    requires Kept(d, d', ino)
    ensures forall i :: 0 <= i < INODES ==>
            d'.inodes[i].kind == d.inodes[i].kind
            && (i != ino ==> d'.inodes[i] == d.inodes[i])
  {
  }

  lemma WriteLedger(s: State, s': State, ino: nat)
    requires Ledger(s.d, s.up) && WriteStep(s, s', ino)
    ensures Ledger(s'.d, s'.up)
  {
    hide Kids, Others, Balance;
    KeptKinds(s.d, s'.d, ino);
    assert Entered(s'.d, s'.up) by {
      forall x: nat ensures x in s'.up <==> InUse(s'.d, x) { assert x in s.up <==> InUse(s.d, x); }
    }
  }

  /** Writing into a file changes no name in any directory. */
  lemma WriteLookup(s: State, s': State, ino: nat, i: nat, name: string)
    requires Owned(s.d) && Owned(s'.d) && WriteStep(s, s', ino) && name != ""
    ensures Lookup(Table(s'.d, i), name) == Lookup(Table(s.d, i), name)
  {
    hide Owned, Table, Lookup, Others;
    KeptKinds(s.d, s'.d, ino);
    if i == ino {
      OnlyDirsHaveNames(s.d, i, name);
      OnlyDirsHaveNames(s'.d, i, name);
    } else {
      OtherTable(s.d, s'.d, ino, i);
    }
  }

  /** Writing changes what no path leads to. */
  lemma {:induction false} WritePaths(s: State, s': State, ino: nat, cur: nat, cs: seq<string>)
    requires Owned(s.d) && Owned(s'.d) && WriteStep(s, s', ino) && Named(cs)
    ensures Resolve(s'.d, cur, cs) == Resolve(s.d, cur, cs)
    decreases |cs|
  {
    hide Owned, WriteStep, Table, Lookup;
    if cs != [] {
      WriteLookup(s, s', ino, cur, cs[0]);
      match Lookup(Table(s.d, cur), cs[0]) {
        case None =>
        case Some(x) => WritePaths(s, s', ino, x, cs[1..]);
      }
    }
  }

  lemma WriteNeat(s: State, s': State, ino: nat)
    requires Owned(s.d) && WriteStep(s, s', ino) && Neat(s.d)
    ensures Neat(s'.d)
  {
    hide Owned, Table, Others, UniqueNames, NoEmptyLeaf;
    KeptKinds(s.d, s'.d, ino);
    forall i | 0 <= i < INODES && s'.d.inodes[i].kind == Dir
           ensures UniqueNames(Table(s'.d, i)) && NoEmptyLeaf(Table(s'.d, i)) {
      OtherTable(s.d, s'.d, ino, i);
    }
  }

  /** Each step keeps the invariant, and the number of blocks that are either counted as free or marked as used never
      grows. */
  lemma StepKeeps(s: State, s': State)
    requires FsOk(s.d, s.up) && FsStep(s, s')
    ensures FsOk(s'.d, s'.up) && Balance(s'.d) <= Balance(s.d)
  {
    hide FsOk, WriteStep, FailStep, CreateStep, UnlinkStep, Sound, Balance;
    assert Sound(s'.d) by { FsSound(s.d, s.up); StepSound(s, s'); }
    if ino :| WriteStep(s, s', ino) {
      WriteKeeps(s, s', ino);
    } else if FailStep(s, s') {
      FailKeeps(s, s');
    } else if dir, c, x, kind, mode, w :| CreateStep(s, s', dir, c, x, kind, mode, w) {
      CreateKeeps(s, s', dir, c, x, kind, mode, w);
    } else {
      var dir, c, x :| UnlinkStep(s, s', dir, c, x);
      UnlinkKeeps(s, s', dir, c, x);
    }
  }

  lemma FsSound(d: Disk, up: map<nat, Spot>)
    requires FsOk(d, up)
    ensures Sound(d)
  {
    hide Sound, TreeOk, Ledger;
  }

  lemma FailKeeps(s: State, s': State)
    requires FsOk(s.d, s.up) && Sound(s'.d) && FailStep(s, s')
    ensures FsOk(s'.d, s'.up) && Balance(s'.d) == Balance(s.d)
  {
    hide Sound, TreeOk, Ledger, NoRows, SameTables, SameTree, Balance, Neat;
    QuietTree(s.d, s.up, s'.d);
    QuietLedger(s.d, s.up, s'.d);
  }

  lemma CreateKeeps(s: State, s': State, dir: nat, c: string, x: nat, kind: Kind, mode: nat, w: DirGrow.Where)
    requires FsOk(s.d, s.up) && Sound(s'.d) && CreateStep(s, s', dir, c, x, kind, mode, w)
    ensures FsOk(s'.d, s'.up) && Balance(s'.d) == Balance(s.d)
  {
    hide Sound, TreeOk, Ledger, Table, Elsewhere, Creating.Hung, NoRows, Balance;
    CreatedBoth(s.d, s.up, s'.d, dir, c, x, kind, mode, w);
  }

  /** Unlinking loses count of exactly the blocks it takes from the directory. */
  lemma UnlinkKeeps(s: State, s': State, dir: nat, c: string, x: nat)
    requires FsOk(s.d, s.up) && Sound(s'.d) && UnlinkStep(s, s', dir, c, x)
    ensures FsOk(s'.d, s'.up) && Balance(s'.d) + Lost(Table(s.d, dir), c) == Balance(s.d)
  {
    hide TreeOk, Ledger, Table, Unlinked, Owned, Lookup, Lost, Balance;
    UnlinkedBounds(s.d, s'.d, dir, c, x);
    SoundOwned(s.d);
    SoundOwned(s'.d);
    TargetEntered(s.d, s.up, dir, c, x);
    UnlinkedTree(s.d, s.up, s'.d, dir, c, x);
    UnlinkedLedger(s.d, s.up, s'.d, dir, c, x);
    UnlinkBalance(s.d, s'.d, dir, c, x);
  }

  /** The blocks a step loses count of. */
  ghost function LossOf(s: State, s': State): nat {
    if exists dir, c, x :: UnlinkStep(s, s', dir, c, x) then
      var dir, c, x :| UnlinkStep(s, s', dir, c, x);
      Lost(Table(s.d, dir), c)
    else 0
  }

  /** The step is an unlink in whose directory some block, from the match to the end of its level, has exactly one
      entry. */
  ghost predicate Releases(s: State, s': State) {
    exists dir, c, x :: UnlinkStep(s, s', dir, c, x) && !NothingDropped(Table(s.d, dir), c)
  }

  lemma StepLoss(s: State, s': State)
    requires FsOk(s.d, s.up) && FsStep(s, s')
    ensures Balance(s'.d) + LossOf(s, s') == Balance(s.d)
    ensures LossOf(s, s') == 0 <==> !Releases(s, s')
  {
    hide FsOk, WriteStep, FailStep, CreateStep, UnlinkStep, Sound, Balance, Lost, Table, NothingDropped;
    FsSound(s.d, s.up);
    StepSound(s, s');
    if exists dir, c, x :: UnlinkStep(s, s', dir, c, x) {
      forall dir, c, x | UnlinkStep(s, s', dir, c, x)
        ensures Balance(s'.d) + Lost(Table(s.d, dir), c) == Balance(s.d)
                && (Lost(Table(s.d, dir), c) == 0 <==> NothingDropped(Table(s.d, dir), c))
      {
        UnlinkKeeps(s, s', dir, c, x);
        LostNone(Table(s.d, dir), c);
      }
    } else if ino :| WriteStep(s, s', ino) {
      WriteKeeps(s, s', ino);
    } else if FailStep(s, s') {
      FailKeeps(s, s');
    } else {
      var dir, c, x, kind, mode, w :| CreateStep(s, s', dir, c, x, kind, mode, w);
      CreateKeeps(s, s', dir, c, x, kind, mode, w);
    }
  }

  // ---------------------------------------------------------------- the run

  lemma {:induction false} RunKeeps(run: seq<State>, k: nat)
    requires Run(run) && k < |run|
    ensures FsOk(run[k].d, run[k].up) && Balance(run[k].d) <= DATA_BLOCKS_NUM
    decreases k
  {
    hide FsOk, FsStep, Balance, Fresh;
    if k == 0 {
      FreshOk();
    } else {
      RunKeeps(run, k - 1);
      assert FsStep(run[k - 1], run[k - 1 + 1]);
      StepKeeps(run[k - 1], run[k]);
    }
  }

  /** After any run: no two pointers lead to the same block, every block a pointer leads to is marked, there are never
      more blocks counted as free than are unmarked, and the count of free inodes is exact. */
  lemma RunSafe(run: seq<State>, k: nat)
    requires Run(run) && k < |run|
    ensures var d := run[k].d;
            && (forall p: Place, q: Place ::
                  PtrAt(d, p.ino, p.slot).Some? && PtrAt(d, p.ino, p.slot) == PtrAt(d, q.ino, q.slot) ==> p == q)
            && (forall p: Place :: PtrAt(d, p.ino, p.slot).Some? ==> PtrAt(d, p.ino, p.slot).value in d.used)
            && d.freeBlocks + |d.used| <= DATA_BLOCKS_NUM
            && d.freeInodes == |FreeInodes(d)|
  {
    hide FsStep, TreeOk, Ledger, PtrAt, Owned, FreeInodes;
    RunKeeps(run, k);
    var d := run[k].d;
    SoundOwned(d);
    forall p: Place, q: Place | PtrAt(d, p.ino, p.slot).Some? && PtrAt(d, p.ino, p.slot) == PtrAt(d, q.ino, q.slot)
      ensures p == q && PtrAt(d, p.ino, p.slot).value in d.used
    {
      NoSharing(d, p, q);
    }
    assert d.inodes[0].kind == Dir by { assert TreeOk(d, run[k].up); RootIsDir(d, run[k].up); }
    FreeInodesExact(d, run[k].up);
  }

  lemma RootIsDir(d: Disk, up: map<nat, Spot>)
    requires TreeOk(d, up)
    ensures d.inodes[0].kind == Dir
  {
  }

  /** The blocks lost in the first k steps. */
  ghost function TotalLoss(run: seq<State>, k: nat): nat
    requires k < |run|
  {
    if k == 0 then 0 else LossOf(run[k - 1], run[k]) + TotalLoss(run, k - 1)
  }

  /** After any run the blocks counted as free, those marked as used and those lost by unlinks make up all blocks. */
  lemma {:induction false} RunBalance(run: seq<State>, k: nat)
    requires Run(run) && k < |run|
    ensures run[k].d.freeBlocks + |run[k].d.used| + TotalLoss(run, k) == DATA_BLOCKS_NUM
    ensures TotalLoss(run, k) == 0 <==> forall j :: 0 <= j < k ==> !Releases(run[j], run[j + 1])
    decreases k
  {
    hide FsOk, FsStep, Releases, LossOf, Fresh;
    if k == 0 {
      FreshOk();
    } else {
      RunBalance(run, k - 1);
      RunKeeps(run, k - 1);
      assert FsStep(run[k - 1], run[k - 1 + 1]);
      StepLoss(run[k - 1], run[k]);
      assert Releases(run[k - 1], run[k]) ==> Releases(run[k - 1], run[k - 1 + 1]);
    }
  }

  /** Every block is either counted as free or marked as used if and only if no unlink so far met a block with exactly
      one entry between the match and the end of its level. */
  lemma RunExact(run: seq<State>, k: nat)
    requires Run(run) && k < |run|
    ensures run[k].d.freeBlocks + |run[k].d.used| == DATA_BLOCKS_NUM <==>
            forall j :: 0 <= j < k ==> !Releases(run[j], run[j + 1])
  {
    hide Run, Releases, TotalLoss;
    RunBalance(run, k);
  }

  // ---------------------------------------------------------------- the calls are steps

  lemma CreateIsStep(d: Disk, up: map<nat, Spot>, d': Disk, up': map<nat, Spot>, cs: seq<string>, c: string,
          kind: Kind, mode: nat,
                     ok: bool, x: nat, w: DirGrow.Where)
    requires CreateResult(d, up, d', up', cs, c, kind, mode, ok, x, w)
    ensures FsStep(State(d, up), State(d', up'))
  {
    hide Sound, TreeOk, Ledger, Creating.Created, Quiet, Resolve;
    if ok {
      assert CreateStep(State(d, up), State(d', up'), Resolve(d, 0, cs).value, c, x, kind, mode, w);
    } else {
      assert FailStep(State(d, up), State(d', up'));
    }
  }

  lemma UnlinkIsStep(d: Disk, up: map<nat, Spot>, d': Disk, cs: seq<string>, c: string, dir: nat, x: nat)
    requires Unlinked(d, d', dir, c, x) && Unlink.CanUnlink(d, cs + [c])
    requires Resolve(d, 0, cs) == Some(dir) && Resolve(d, 0, cs + [c]) == Some(x)
    ensures FsStep(State(d, up), State(d', up - {x}))
  {
    hide Sound, Unlinked, Resolve, Lookup, Table;
    ResolveSnoc(d, 0, cs, c);
    UnlinkedBounds(d, d', dir, c, x);
    assert UnlinkStep(State(d, up), State(d', up - {x}), dir, c, x);
  }

  lemma WriteIsStep(d: Disk, up: map<nat, Spot>, d': Disk, os: seq<FdTable.FileObj>, os': seq<FdTable.FileObj>,
          h: nat, ino: nat, k: nat)
    requires ino < INODES && d.inodes[ino].kind == Reg && FileWrite.Went(d, os, d', os', h, ino, k)
    ensures FsStep(State(d, up), State(d', up))
  {
    hide Sound, Kept, FileWrite.Advanced;
    assert WriteStep(State(d, up), State(d', up), ino);
  }
}
