/** The accounts of the file system: which inodes are in use, where each is entered, and how large directories are. */
module Ledgers {
  import opened Options
  import opened Disk
  import opened FileData
  import FileSteps
  import Directory
  import opened DirTree
  import opened RamDisks
  import opened Tree

  /** The inodes that were entered in directory i. */
  ghost function Kids(up: map<nat, Spot>, i: nat): set<nat> {
    set x | x in up && up[x].dir == i
  }

  predicate InUse(d: Disk, x: nat) { 0 < x < INODES && d.inodes[x].kind != NoFile }

  /** Exactly the inodes in use, but the root, have a place. */
  ghost predicate Entered(d: Disk, up: map<nat, Spot>) {
    forall x: nat :: x in up <==> InUse(d, x)
  }

  /** Inodes not in use are zeroed. */
  predicate Zeroes(d: Disk) {
    forall x :: 0 <= x < INODES && d.inodes[x].kind == NoFile ==> d.inodes[x] == NO_INODE
  }

  /** The places are in directories. */
  ghost predicate InDirs(d: Disk, up: map<nat, Spot>) {
    forall x :: x in up ==> up[x].dir < INODES && d.inodes[up[x].dir].kind == Dir && up[x].dir != x
  }

  /** A directory's size is 16 for each inode entered there. */
  ghost predicate Sizes(d: Disk, up: map<nat, Spot>) {
    forall i :: 0 <= i < INODES && d.inodes[i].kind == Dir ==> d.inodes[i].size == 16 * |Kids(up, i)|
  }

  ghost predicate Ledger(d: Disk, up: map<nat, Spot>) {
    && Entered(d, up) && Zeroes(d) && InDirs(d, up) && Sizes(d, up)
    && d.freeInodes + |up.Keys| == INODES - 1
  }

  /** The invariant of the file system. */
  ghost predicate FsOk(d: Disk, up: map<nat, Spot>) {
    Sound(d) && TreeOk(d, up) && Ledger(d, up)
  }

  /** What it takes for unlink to be exact: no directory has a name twice, or a block without entries. */
  ghost predicate Neat(d: Disk) {
    forall i :: 0 <= i < INODES && d.inodes[i].kind == Dir ==>
                Directory.UniqueNames(Table(d, i)) && Directory.NoEmptyLeaf(Table(d, i))
  }

  lemma {:induction false} BelowSize(s: set<nat>, n: nat)
    requires forall x: nat :: x in s <==> x < n
    ensures |s| == n
    decreases n
  {
    if n > 0 {
      BelowSize(s - {n - 1}, n - 1);
    } else {
      assert s == {};
    }
  }

  lemma SubsetSize(s: set<nat>, t: set<nat>)
    requires s <= t
    ensures |s| <= |t|
  {
    assert t == s + (t - s);
  }

  /** Sizes of directories stay far below the range of an unsigned int. */
  lemma KidsBound(d: Disk, up: map<nat, Spot>, i: nat)
    requires Ledger(d, up)
    ensures |Kids(up, i)| <= |up.Keys| < INODES
  {
    SubsetSize(Kids(up, i), up.Keys);
  }

  ghost function FreeInodes(d: Disk): set<nat> { set x: nat | x < INODES && d.inodes[x].kind == NoFile }

  lemma SplitSize(free: set<nat>, used: set<nat>, n: nat)
    requires n > 0 && free !! used && 0 !in free && 0 !in used
    requires forall x: nat :: x in free || x in used || x == 0 <==> x < n
    ensures |free| + |used| + 1 == n
  {
    BelowSize(free + used + {0}, n);
  }

  /** free_inodes is always the number of inodes whose type is empty. */
  lemma FreeInodesExact(d: Disk, up: map<nat, Spot>)
    requires Ledger(d, up) && d.inodes[0].kind == Dir
    ensures d.freeInodes == |FreeInodes(d)|
  {
    hide Kids;
    assert forall x: nat :: x in up.Keys <==> InUse(d, x) by { assert Entered(d, up); }
    assert d.freeInodes + |up.Keys| == INODES - 1;
    hide Ledger;
    SplitSize(FreeInodes(d), up.Keys, INODES);
  }

  /** As long as the counter is positive, get_free_inode_num finds one. */
  lemma FreeInodeThere(d: Disk, up: map<nat, Spot>)
    requires FsOk(d, up) && d.freeInodes > 0
    ensures exists x :: 0 < x < INODES && d.inodes[x].kind == NoFile
  {
    hide Sound, DirOk;
    FreeInodesExact(d, up);
    var x :| x in FreeInodes(d);
    assert x != 0;
  }

  /** get_free_inode_num: the lowest one, never 0. */
  method GetFreeInodeNum(disk: RamDisk) returns (r: int)
    requires disk.Shape()
    ensures r == -1 || 0 < r < INODES
    ensures r == -1 <==> disk.freeInodes == 0 || forall x :: 0 < x < INODES ==> disk.inodes[x].kind != NoFile
    ensures r != -1 ==> disk.inodes[r].kind == NoFile && forall x :: 0 < x < r ==> disk.inodes[x].kind != NoFile
  {
    if disk.freeInodes <= 0 {
      return -1;
    }
    var i := 1;
    while i < INODES
      invariant 1 <= i <= INODES && forall x :: 0 < x < i ==> disk.inodes[x].kind != NoFile
    {
      if disk.inodes[i].kind == NoFile {
        return i;
      }
      i := i + 1;
    }
    r := -1;
  }

  /** The tree of an inode is as before, down to the contents of its leaves. */
  ghost predicate SameTree(d: Disk, d': Disk, i: nat) {
    forall t :: PtrAt(d', i, t) == PtrAt(d, i, t)
                && (PtrAt(d, i, t).Some? ==> BlockAt(d', PtrAt(d, i, t).value) == BlockAt(d, PtrAt(d, i, t).value))
  }

  /** Nothing has happened but in the trees of dir and x. */
  ghost predicate Elsewhere(d: Disk, d': Disk, dir: nat, x: nat) {
    forall i: nat :: i < INODES && i != dir && i != x ==> d'.inodes[i] == d.inodes[i] && SameTree(d, d', i)
  }

  lemma OthersSameTree(d: Disk, d': Disk, ino: nat, i: nat)
    requires Owned(d) && FileSteps.Others(d, d', ino) && i < INODES && i != ino
    ensures d'.inodes[i] == d.inodes[i] && SameTree(d, d', i)
  {
    hide PtrAt, Owned, FileSteps.Others;
    FileSteps.KeptInode(d, d', ino, i);
    forall t ensures PtrAt(d', i, t) == PtrAt(d, i, t)
                     && (PtrAt(d, i, t).Some? ==> BlockAt(d', PtrAt(d, i, t).value) == BlockAt(d, PtrAt(d, i, t).value))
    {
      FileSteps.OthersMean(d, d', ino, i, t);
    }
  }

  lemma SameTreeTwice(d: Disk, d1: Disk, d2: Disk, i: nat)
    requires SameTree(d, d1, i) && SameTree(d1, d2, i)
    ensures SameTree(d, d2, i)
  {
    hide PtrAt;
    forall t ensures PtrAt(d2, i, t) == PtrAt(d, i, t)
                     && (PtrAt(d, i, t).Some? ==> BlockAt(d2, PtrAt(d, i, t).value) == BlockAt(d, PtrAt(d, i, t).value))
    {
      assert PtrAt(d2, i, t) == PtrAt(d1, i, t);
    }
  }

  lemma SameTreeTable(d: Disk, d': Disk, i: nat)
    requires SameTree(d, d', i)
    ensures Table(d', i) == Table(d, i) && (NoRows(d, i) ==> NoRows(d', i))
  {
    hide PtrAt, LeafSlot;
    forall q | 0 <= q < LEAVES ensures LeafOf(d', i, q) == Table(d, i)[q] {
      assert PtrAt(d', i, LeafSlot(q)) == PtrAt(d, i, LeafSlot(q));
    }
    SameTable(d', i, Table(d, i));
    forall k | 0 <= k < PTRS && NoRows(d, i) ensures PtrAt(d', i, RowIx(k)) == None {
      assert PtrAt(d', i, RowIx(k)) == PtrAt(d, i, RowIx(k));
    }
  }

  /** Files elsewhere keep their contents. */
  lemma SameTreeShows(d: Disk, d': Disk, i: nat, text: seq<Byte>)
    requires SameTree(d, d', i) && i < INODES && d'.inodes[i] == d.inodes[i] && Shows(d, i, text)
    ensures Shows(d', i, text)
  {
    hide PtrAt, LeafSlot, NoZero;
    forall q, j | 0 <= q < LEAVES && 0 <= j < BLOCK_SIZE ensures FByte(d', i, q, j) == FByte(d, i, q, j) {
      assert PtrAt(d', i, LeafSlot(q)) == PtrAt(d, i, LeafSlot(q));
    }
    hide FByte;
  }

  lemma NoFileOwnsNone(d: Disk, x: nat, b: nat)
    requires Owned(d) && x < INODES && d.inodes[x].kind == NoFile && b in d.owner
    ensures d.owner[b].ino != x
  {
    hide PtrAt;
    assert RoleOk(d, b, d.owner[b]);
  }

  /** An inode not in use has no blocks. */
  lemma NoFileNoPtr(d: Disk, x: nat, t: Slot)
    requires Owned(d) && x < INODES && d.inodes[x].kind == NoFile
    ensures PtrAt(d, x, t) == None
  {
    hide PtrAt, Owned;
    if PtrAt(d, x, t).Some? {
      OwnerOf(d, x, t);
      NoFileOwnsNone(d, x, PtrAt(d, x, t).value);
    }
  }
}
