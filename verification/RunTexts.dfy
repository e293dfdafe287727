/** Whole runs, seen through the contents of one file: what is done to other files never shows in it. */
module RunTexts {
  import opened Disk
  import FileData
  import FileSteps
  import DirGrow
  import opened Ledgers
  import opened Creating
  import Create
  import opened Unlinking
  import opened Runs

  /** The step can be one that is not about inode x: a call that failed, or one that wrote, created or removed another
      file. */
  ghost predicate Spares(s: State, s': State, x: nat) {
    || (exists ino :: ino != x && WriteStep(s, s', ino))
    || FailStep(s, s')
    || (exists dir, c, y, kind, mode, w :: y != x && CreateStep(s, s', dir, c, y, kind, mode, w))
    || (exists dir, c, y :: y != x && UnlinkStep(s, s', dir, c, y))
  }

  ghost predicate Untouched(d: Disk, d': Disk, x: nat)
    requires x < INODES
  {
    d'.inodes[x] == d.inodes[x] && SameTree(d, d', x)
  }

  lemma CreateSpares(s: State, s': State, dir: nat, c: string, y: nat, kind: Kind, mode: nat, w: DirGrow.Where, x: nat)
    requires CreateStep(s, s', dir, c, y, kind, mode, w) && x != y && x < INODES && s.d.inodes[x].kind == Reg
    ensures Untouched(s.d, s'.d, x)
  {
    hide SameTree;
  }

  lemma UnlinkSpares(s: State, s': State, dir: nat, c: string, y: nat, x: nat)
    requires UnlinkStep(s, s', dir, c, y) && x != y && x < INODES && s.d.inodes[x].kind == Reg
    ensures Untouched(s.d, s'.d, x)
  {
    hide SameTree;
  }

  lemma FailSpares(s: State, s': State, x: nat)
    requires FailStep(s, s') && x < INODES && s.d.inodes[x].kind == Reg
    ensures Untouched(s.d, s'.d, x)
  {
    hide SameTree;
  }

  /** Such a step leaves a regular file alone: its inode, its tree, and every block of it. */
  lemma StepSpares(s: State, s': State, x: nat)
    requires Owned(s.d) && x < INODES && s.d.inodes[x].kind == Reg && Spares(s, s', x)
    ensures Untouched(s.d, s'.d, x)
  {
    hide Owned, Untouched, WriteStep, FailStep, CreateStep, UnlinkStep;
    if ino :| ino != x && WriteStep(s, s', ino) {
      assert FileSteps.Others(s.d, s'.d, ino) by { WriteOthers(s, s', ino); }
      OthersSameTree(s.d, s'.d, ino, x);
      assert Untouched(s.d, s'.d, x) by { ItIs(s.d, s'.d, x); }
    } else if FailStep(s, s') {
      FailSpares(s, s', x);
    } else if dir, c, y, kind, mode, w :| y != x && CreateStep(s, s', dir, c, y, kind, mode, w) {
      CreateSpares(s, s', dir, c, y, kind, mode, w, x);
    } else {
      var dir, c, y :| y != x && UnlinkStep(s, s', dir, c, y);
      UnlinkSpares(s, s', dir, c, y, x);
    }
  }

  lemma WriteOthers(s: State, s': State, ino: nat)
    requires WriteStep(s, s', ino)
    ensures FileSteps.Others(s.d, s'.d, ino)
  {
  }

  lemma ItIs(d: Disk, d': Disk, x: nat)
    requires x < INODES && d'.inodes[x] == d.inodes[x] && SameTree(d, d', x)
    ensures Untouched(d, d', x)
  {
  }

  /** In every run from the initial disk, a regular file shows the same text for as long as no step writes to it,
      creates it or removes it, whatever else the steps do. */
  lemma {:induction false} RunKeepsText(run: seq<State>, i: nat, k: nat, x: nat, text: seq<Byte>)
    requires Run(run) && i <= k < |run| && FileData.Shows(run[i].d, x, text)
    requires forall j :: i <= j < k ==> Spares(run[j], run[j + 1], x)
    ensures FileData.Shows(run[k].d, x, text) && run[k].d.inodes[x] == run[i].d.inodes[x]
    decreases k
  {
    hide FsStep, Spares, Fresh, FileData.FByte, FsOk, SameTree;
    if i < k {
      RunKeepsText(run, i, k - 1, x, text);
      RunKeeps(run, k - 1);
      FsSound(run[k - 1].d, run[k - 1].up);
      Create.SoundOwned(run[k - 1].d);
      assert Spares(run[k - 1], run[k - 1 + 1], x);
      StepSpares(run[k - 1], run[k], x);
      SameTreeShows(run[k - 1].d, run[k].d, x, text);
    }
  }
}
