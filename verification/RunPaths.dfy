/** Whole runs, seen through the paths: names stay unique, and every file in use can be found, until exactly when. */
module RunPaths {
  import opened Options
  import opened Disk
  import opened Directory
  import opened DirTree
  import opened RamDisks
  import opened Tree
  import opened DirGrow
  import opened Ledgers
  import opened Creating
  import opened Create
  import opened Unlinking
  import opened Runs

  /** If the step is a successful create, the name was absent. */
  ghost predicate AbsentName(s: State, s': State) {
    forall dir, c, x, kind, mode, w :: CreateStep(s, s', dir, c, x, kind, mode, w) ==>
           Lookup(Table(s.d, dir), c) == None
  }

  lemma StepNeat(s: State, s': State)
    requires FsOk(s.d, s.up) && Neat(s.d) && FsStep(s, s') && AbsentName(s, s')
    ensures Neat(s'.d)
  {
    hide Sound, TreeOk, Ledger, Neat, WriteStep, FailStep, CreateStep, UnlinkStep;
    SoundOwned(s.d);
    if ino :| WriteStep(s, s', ino) {
      WriteNeat(s, s', ino);
    } else if FailStep(s, s') {
      FailNeat(s, s');
    } else if dir, c, x, kind, mode, w :| CreateStep(s, s', dir, c, x, kind, mode, w) {
      NeatCreate(s, s', dir, c, x, kind, mode, w);
    } else {
      var dir, c, x :| UnlinkStep(s, s', dir, c, x);
      NeatUnlink(s, s', dir, c, x);
    }
  }

  lemma FailNeat(s: State, s': State)
    requires TreeOk(s.d, s.up) && Neat(s.d) && FailStep(s, s')
    ensures Neat(s'.d)
  {
    hide TreeOk, Neat, Quiet;
    QuietTree(s.d, s.up, s'.d);
  }

  lemma NeatCreate(s: State, s': State, dir: nat, c: string, x: nat, kind: Kind, mode: nat, w: Where)
    requires TreeOk(s.d, s.up) && Neat(s.d) && CreateStep(s, s', dir, c, x, kind, mode, w)
             && Lookup(Table(s.d, dir), c) == None
    ensures Neat(s'.d)
  {
    hide TreeOk, Neat, Created, Lookup, Table;
    NewInodeFree(s.d, s'.d, dir, c, x, kind, mode, w);
    CreatedNeat(s.d, s.up, s'.d, dir, c, x, kind, mode, w);
  }

  lemma NeatUnlink(s: State, s': State, dir: nat, c: string, x: nat)
    requires Neat(s.d) && UnlinkStep(s, s', dir, c, x)
    ensures Neat(s'.d)
  {
    hide Neat, Unlinked, Lookup, Table;
    UnlinkedNeat(s.d, s.up, s'.d, dir, c, x);
  }

  /** As long as only absent names are created, no directory has a name twice or a block without entries. */
  lemma {:induction false} RunNeat(run: seq<State>, k: nat)
    requires Run(run) && k < |run| && forall j :: 0 <= j < k ==> AbsentName(run[j], run[j + 1])
    ensures Neat(run[k].d)
    decreases k
  {
    hide FsOk, FsStep, AbsentName, Neat, Fresh;
    if k == 0 {
      FreshOk();
    } else {
      RunNeat(run, k - 1);
      RunKeeps(run, k - 1);
      assert FsStep(run[k - 1], run[k - 1 + 1]) && AbsentName(run[k - 1], run[k - 1 + 1]);
      StepNeat(run[k - 1], run[k]);
    }
  }

  // ---------------------------------------------------------------- every file can be found

  ghost predicate LedTo(d: Disk, x: nat) { exists cs :: Named(cs) && Resolve(d, 0, cs) == Some(x) }

  /** Every inode in use is where some path leads. */
  ghost predicate Reached(d: Disk, up: map<nat, Spot>) { forall x :: x in up ==> LedTo(d, x) }

  /** The search for room in the directory settles on a leaf in front of the double-indirect level. */
  predicate LowRoom(d: Disk, dir: nat) { dir < INODES && Goal(d, dir) < FIRST_ROW }

  /** The step creates no name twice, none in a directory whose room lies in the double-indirect level, and drops no
      later single-entry block. All three are conditions on the state before it. */
  ghost predicate Gentle(s: State, s': State) {
    && AbsentName(s, s')
    && (forall dir, c, x, kind, mode, w :: CreateStep(s, s', dir, c, x, kind, mode, w) ==> LowRoom(s.d, dir))
    && (forall dir, c, x :: UnlinkStep(s, s', dir, c, x) ==> NoLaterSingleton(Table(s.d, dir), c))
  }

  lemma DirLedTo(d: Disk, up: map<nat, Spot>, dir: nat) returns (cs: seq<string>)
    requires Ledger(d, up) && Reached(d, up) && dir < INODES && d.inodes[dir].kind == Dir
    ensures Named(cs) && Resolve(d, 0, cs) == Some(dir)
  {
    if dir == 0 {
      cs := [];
    } else {
      assert InUse(d, dir);
      assert LedTo(d, dir);
      cs :| Named(cs) && Resolve(d, 0, cs) == Some(dir);
    }
  }

  lemma ReachedAfter(d: Disk, up: map<nat, Spot>, d': Disk, y: nat, p: seq<string>)
    requires LedTo(d, y) && Resolve(d, 0, p) != Some(y)
    requires forall ds :: Named(ds) && ds != p ==> Resolve(d', 0, ds) == Resolve(d, 0, ds)
    ensures LedTo(d', y)
  {
    hide Resolve;
    var cs :| Named(cs) && Resolve(d, 0, cs) == Some(y);
    assert Resolve(d', 0, cs) == Some(y);
  }

  lemma CreateReached(s: State, s': State, dir: nat, c: string, x: nat, kind: Kind, mode: nat, w: Where)
    requires FsOk(s.d, s.up) && Reached(s.d, s.up) && CreateStep(s, s', dir, c, x, kind, mode, w)
    requires Lookup(Table(s.d, dir), c) == None && w.At?
    ensures Reached(s'.d, s'.up)
  {
    hide Sound, TreeOk, Ledger, Created, Lookup, Table, Resolve, LedTo, NameBefore;
    SoundOwned(s.d);
    NewInodeFree(s.d, s'.d, dir, c, x, kind, mode, w);
    CreatedDir(s.d, s'.d, dir, c, x, kind, mode, w);
    var cs := DirLedTo(s.d, s.up, dir);
    ResolveSnoc(s.d, 0, cs, c);
    forall ds | Named(ds) && ds != cs + [c] ensures Resolve(s'.d, 0, ds) == Resolve(s.d, 0, ds) {
      CreatedFrameAbsent(s.d, s.up, s'.d, dir, c, x, kind, mode, w, cs, ds);
    }
    CreatedResolves(s.d, s.up, s'.d, dir, c, x, kind, mode, w, cs);
    AbsentNotBefore(Table(s.d, dir), c, w.q, w.j);
    forall y | y in s'.up ensures LedTo(s'.d, y) {
      if y == x { LedBy(s'.d, cs + [c], x); } else { ReachedAfter(s.d, s.up, s'.d, y, cs + [c]); }
    }
  }

  lemma LedBy(d: Disk, cs: seq<string>, x: nat)
    requires Named(cs) && Resolve(d, 0, cs) == Some(x)
    ensures LedTo(d, x)
  {
  }

  lemma CreatedDir(d: Disk, d': Disk, dir: nat, c: string, x: nat, kind: Kind, mode: nat, w: Where)
    requires Created(d, d', dir, c, x, kind, mode, w)
    ensures dir < INODES && d.inodes[dir].kind == Dir && c != "" && (w.At? || w.Leaked?)
    ensures w.At? ==> w.q < LEAVES && FirstFree(BlockOf(Table(d, dir)[w.q]), w.j)
                      && Table(d', dir) == Put(Table(d, dir), w.q, w.j, Entry(c, x))
  {
  }

  lemma UnlinkReached(s: State, s': State, dir: nat, c: string, x: nat)
    requires FsOk(s.d, s.up) && Neat(s.d) && Reached(s.d, s.up) && UnlinkStep(s, s', dir, c, x)
    requires NoLaterSingleton(Table(s.d, dir), c)
    ensures Reached(s'.d, s'.up)
  {
    hide Sound, TreeOk, Ledger, Unlinked, Lookup, Table, Resolve, LedTo, NoLaterSingleton, UniqueNames, NoEmptyLeaf;
    SoundOwned(s.d);
    UnlinkedBounds(s.d, s'.d, dir, c, x);
    var cs := DirLedTo(s.d, s.up, dir);
    ResolveSnoc(s.d, 0, cs, c);
    Childless(s.d, s.up, x);
    UnlinkedPathsIff(s.d, s.up, s'.d, dir, c, x, cs);
    forall y | y in s'.up ensures LedTo(s'.d, y) { ReachedAfter(s.d, s.up, s'.d, y, cs + [c]); }
  }

  lemma QuietReached(s: State, s': State)
    requires Reached(s.d, s.up) && s'.up == s.up && forall ds :: Named(ds) ==>
             Resolve(s'.d, 0, ds) == Resolve(s.d, 0, ds)
    ensures Reached(s'.d, s'.up)
  {
    hide Resolve, LedTo;
    forall y | y in s'.up ensures LedTo(s'.d, y) { ReachedSame(s.d, s'.d, y); }
  }

  lemma ReachedSame(d: Disk, d': Disk, y: nat)
    requires LedTo(d, y) && forall ds :: Named(ds) ==> Resolve(d', 0, ds) == Resolve(d, 0, ds)
    ensures LedTo(d', y)
  {
    hide Resolve;
    var cs :| Named(cs) && Resolve(d, 0, cs) == Some(y);
    assert Resolve(d', 0, cs) == Some(y);
  }

  // ---------------------------------------------------------------- and when one cannot

  /** What a path leads to lies where up says, under the last name of the path. */
  lemma LedEntry(d: Disk, up: map<nat, Spot>, y: nat) returns (c: string)
    requires Owned(d) && TreeOk(d, up) && LedTo(d, y) && y != 0
    ensures c != "" && y in up && up[y].q < LEAVES && up[y].j < ENTRIES && Table(d, up[y].dir)[up[y].q].Some?
    ensures Table(d, up[y].dir)[up[y].q].value[up[y].j].name == c && Lookup(Table(d, up[y].dir), c) == Some(y)
  {
    hide Owned, TreeOk, Lookup, Table;
    var cs :| Named(cs) && Resolve(d, 0, cs) == Some(y);
    assert cs != [];
    var a := cs[..|cs| - 1];
    c := cs[|cs| - 1];
    assert cs == a + [c];
    var s := LastStep(d, up, a, c);
    ResolveSnoc(d, 0, a, c);
  }

  lemma LinkedIff(s: State, s': State, dir: nat, c: string, x: nat, kind: Kind, mode: nat, w: Where)
    requires CreateStep(s, s', dir, c, x, kind, mode, w)
    ensures w.At? <==> LowRoom(s.d, dir)
  {
    hide Elsewhere, NoRows, Hung, Table, FirstFree, Goal;
  }

  /** A leaked entry makes the new file unreachable. */
  lemma LeakOrphan(s: State, s': State, dir: nat, c: string, x: nat, kind: Kind, mode: nat, w: Where)
    requires FsOk(s'.d, s'.up) && CreateStep(s, s', dir, c, x, kind, mode, w) && !w.At?
    ensures !Reached(s'.d, s'.up)
  {
    hide Sound, TreeOk, Ledger, Created, LedTo;
    SoundOwned(s'.d);
    NewInodeFree(s.d, s'.d, dir, c, x, kind, mode, w);
    if Reached(s'.d, s'.up) {
      assert LedTo(s'.d, x);
      var m := LedEntry(s'.d, s'.up, x);
    }
  }

  /** A name that was there already makes the new file or the old one unreachable. */
  lemma TwinOrphan(s: State, s': State, dir: nat, c: string, x: nat, kind: Kind, mode: nat, w: Where)
    requires FsOk(s.d, s.up) && FsOk(s'.d, s'.up) && CreateStep(s, s', dir, c, x, kind, mode, w) && w.At?
    requires Lookup(Table(s.d, dir), c) != None
    ensures !Reached(s'.d, s'.up)
  {
    hide Sound, TreeOk, Ledger, Created, LedTo, Lookup, Table, Put, NameBefore, FirstFree;
    SoundOwned(s'.d);
    NewInodeFree(s.d, s'.d, dir, c, x, kind, mode, w);
    CreatedDir(s.d, s'.d, dir, c, x, kind, mode, w);
    var t := Table(s.d, dir);
    assert FreeAt(t, w.q, w.j) by { DirIsOk(s.d, s.up, dir); FreeIsZeroed(t, w.q, w.j); }
    PutFound(t, w.q, w.j, Entry(c, x));
    var first := Found(s.d, s.up, dir, c);
    var y := Lookup(t, c).value;
    assert y != x;
    if Reached(s'.d, s'.up) {
      assert LedTo(s'.d, x) && LedTo(s'.d, y);
      var m := LedEntry(s'.d, s'.up, x);
      var n := LedEntry(s'.d, s'.up, y);
      PutNames(t, w.q, w.j, Entry(c, x), first.q, first.j);
    }
  }

  /** The names at the new place and at an old one. */
  lemma PutNames(t: DirTable, q: nat, j: nat, e: Entry, r: nat, i: nat)
    requires FreeAt(t, q, j) && r < LEAVES && i < ENTRIES && t[r].Some? && t[r].value[i] != NO_ENTRY
    ensures Put(t, q, j, e)[q].Some? && Put(t, q, j, e)[q].value[j] == e
    ensures Put(t, q, j, e)[r].Some? && Put(t, q, j, e)[r].value[i] == t[r].value[i]
  {
  }

  /** A single-entry block that is dropped makes the file it names unreachable. */
  lemma DropOrphan(s: State, s': State, dir: nat, c: string, x: nat)
    requires FsOk(s.d, s.up) && FsOk(s'.d, s'.up) && UnlinkStep(s, s', dir, c, x)
             && !NoLaterSingleton(Table(s.d, dir), c)
    ensures !Reached(s'.d, s'.up)
  {
    hide Sound, TreeOk, Ledger, Unlinked, LedTo, Lookup, Table, CountFrom, LevelLo, LevelHi, Cleared, TidyTable, NoRows;
    SoundOwned(s'.d);
    UnlinkedBounds(s.d, s'.d, dir, c, x);
    var t := Table(s.d, dir);
    LevelStart(t, c);
    var q :| LevelLo(t, c) < q < LevelHi(t, c) && t[q].Some? && Count(t[q].value) == 1;
    CountZero(t[q].value, 0);
    var k :| 0 <= k < ENTRIES && t[q].value[k].ino != 0;
    var y := t[q].value[k].ino;
    DirIsOk(s.d, s.up, dir);
    assert EntryOk(s.d, s.up, y, Spot(dir, q, k));
    TargetPlace(s.d, s.up, dir, c, x);
    if Reached(s'.d, s'.up) {
      assert LedTo(s'.d, y);
      var m := LedEntry(s'.d, s'.up, y);
      ClearedLeaf(t, c, q);
    }
  }

  /** The file that is unlinked is entered in the first leaf that is cleared. */
  lemma TargetPlace(d: Disk, up: map<nat, Spot>, dir: nat, c: string, x: nat)
    requires TreeOk(d, up) && dir < INODES && d.inodes[dir].kind == Dir && c != ""
             && Lookup(Table(d, dir), c) == Some(x)
    ensures x in up && up[x].q == LevelLo(Table(d, dir), c)
  {
    hide Table, LevelLo, LevelHi, FindFrom, LookupFrom;
    var t := Table(d, dir);
    assert DirOk(d, up, dir);
    var q := LookupAt(t, c, 0);
    var k := HasWhere(t[q], c);
    NoRowsNoDouble(d, dir);
    FirstInLevel(t, c, q);
    assert Tidy(t[q].value);
    assert EntryOk(d, up, x, Spot(dir, q, k));
  }

  // ---------------------------------------------------------------- steps and runs

  lemma StepReachedIff(s: State, s': State)
    requires FsOk(s.d, s.up) && Neat(s.d) && Reached(s.d, s.up) && FsStep(s, s')
    ensures Reached(s'.d, s'.up) <==> Gentle(s, s')
  {
    hide FsOk, Sound, Neat, Reached, WriteStep, FailStep, CreateStep, UnlinkStep, Lookup, Table, NoLaterSingleton,
         LowRoom;
    StepKeeps(s, s');
    if Gentle(s, s') {
      StepReached(s, s');
    } else if dir, c, x, kind, mode, w :|
        CreateStep(s, s', dir, c, x, kind, mode, w) && !(LowRoom(s.d, dir) && Lookup(Table(s.d, dir), c) == None) {
      LinkedIff(s, s', dir, c, x, kind, mode, w);
      if w.At? { TwinOrphan(s, s', dir, c, x, kind, mode, w); } else { LeakOrphan(s, s', dir, c, x, kind, mode, w); }
    } else {
      var dir, c, x :| UnlinkStep(s, s', dir, c, x) && !NoLaterSingleton(Table(s.d, dir), c);
      DropOrphan(s, s', dir, c, x);
    }
  }

  lemma StepReached(s: State, s': State)
    requires FsOk(s.d, s.up) && Neat(s.d) && Reached(s.d, s.up) && FsStep(s, s') && Gentle(s, s')
    ensures Reached(s'.d, s'.up)
  {
    hide FsOk, Sound, Neat, Reached, WriteStep, FailStep, CreateStep, UnlinkStep, Lookup, Table, NoLaterSingleton,
         LowRoom;
    if ino :| WriteStep(s, s', ino) {
      WriteReached(s, s', ino);
    } else if FailStep(s, s') {
      FailReached(s, s');
    } else if dir, c, x, kind, mode, w :| CreateStep(s, s', dir, c, x, kind, mode, w) {
      LinkedIff(s, s', dir, c, x, kind, mode, w);
      CreateReached(s, s', dir, c, x, kind, mode, w);
    } else {
      var dir, c, x :| UnlinkStep(s, s', dir, c, x);
      UnlinkReached(s, s', dir, c, x);
    }
  }

  lemma WriteReached(s: State, s': State, ino: nat)
    requires FsOk(s.d, s.up) && Reached(s.d, s.up) && WriteStep(s, s', ino)
    ensures Reached(s'.d, s'.up)
  {
    hide Sound, TreeOk, Ledger, Reached, Resolve;
    assert FsStep(s, s');
    StepSound(s, s');
    SoundOwned(s.d);
    SoundOwned(s'.d);
    forall ds | Named(ds) ensures Resolve(s'.d, 0, ds) == Resolve(s.d, 0, ds) { WritePaths(s, s', ino, 0, ds); }
    QuietReached(s, s');
  }

  lemma FailReached(s: State, s': State)
    requires Reached(s.d, s.up) && FailStep(s, s')
    ensures Reached(s'.d, s'.up)
  {
    hide Reached, Quiet, Resolve;
    QuietPaths(s.d, s'.d);
    QuietReached(s, s');
  }

  /** Every inode in use is where some path leads, throughout a run, if and only if the run creates no name twice, none
      in a directory whose room lies in the double-indirect level, and drops no later single-entry block. */
  lemma {:induction false} RunReachedIff(run: seq<State>, k: nat)
    requires Run(run) && k < |run|
    ensures (forall i :: 0 <= i <= k ==> Reached(run[i].d, run[i].up)) <==> forall j :: 0 <= j < k ==>
            Gentle(run[j], run[j + 1])
    decreases k
  {
    hide FsOk, FsStep, AbsentName, Neat, Fresh, Reached, Gentle;
    if k == 0 {
      assert Reached(run[0].d, run[0].up) by { NothingToReach(run[0].d); }
    } else {
      RunReachedIff(run, k - 1);
      if forall j :: 0 <= j < k - 1 ==> Gentle(run[j], run[j + 1]) {
        forall j | 0 <= j < k - 1 ensures AbsentName(run[j], run[j + 1]) { GentleAbsent(run[j], run[j + 1]); }
        RunNeat(run, k - 1);
        RunKeeps(run, k - 1);
        assert FsStep(run[k - 1], run[k - 1 + 1]);
        StepReachedIff(run[k - 1], run[k]);
        assert Gentle(run[k - 1], run[k]) <==> Gentle(run[k - 1], run[k - 1 + 1]);
      }
    }
  }

  lemma NothingToReach(d: Disk)
    ensures Reached(d, map[])
  {
  }

  lemma GentleAbsent(s: State, s': State)
    requires Gentle(s, s')
    ensures AbsentName(s, s')
  {
    hide AbsentName;
  }
}
