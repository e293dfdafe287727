/** rd_unlink, and creating and removing the same file. */
module Unlink {
  import opened Options
  import Bitmap
  import opened Disk
  import opened Moves
  import FileData
  import FileSteps
  import opened Directory
  import opened DirTree
  import opened RamDisks
  import opened Paths
  import opened Tree
  import opened PathWalks
  import opened DirShrink
  import opened Ledgers
  import opened Create
  import opened Unlinking
  import ClearInode

  /** rd_unlink is done in three steps: the file, the entry, the size of the directory. */
  lemma UnlinkSteps(d: Disk, d1: Disk, d2: Disk, dir: nat, c: string, x: nat)
    requires Sound(d) && dir < INODES && d.inodes[dir].kind == Dir && 0 < x < INODES && x != dir && c != ""
    requires d1 == Removed(d, x) && Sound(d1) && Sound(d2)
    requires Shrinks(d1, d2, dir) && Table(d2, dir) == Cleared(Table(d1, dir), c) && IndexesLeft(d1, d2, dir, c)
    ensures Sound(SetSize(d2, dir, Less16(d.inodes[dir].size)))
    ensures Unlinked(d, SetSize(d2, dir, Less16(d.inodes[dir].size)), dir, c, x)
    ensures SetSize(d2, dir, Less16(d.inodes[dir].size)).inodes
            == d2.inodes[dir := d2.inodes[dir].(size := Less16(d.inodes[dir].size))]
  {
    hide Owned, PtrAt, Table, SameTree, Elsewhere, Cleared, Sound, FileSteps.Others, IndexesLeft, Removed, Evolves;
    SoundOwned(d);
    SoundOwned(d1);
    var d3 := SetSize(d2, dir, Less16(d.inodes[dir].size));
    ClearInode.RemovedFields(d, x);
    ClearInode.RemovedOthers(d, x);
    OtherTable(d, d1, x, dir);
    OthersElsewhere(d, d1, x, dir);
    OthersElsewhere(d1, d2, dir, x);
    SetSizeSame(d2, dir, Less16(d.inodes[dir].size), x);
    SameTreeTable(d2, d3, dir);
    ElsewhereTwice(d, d1, d2, dir, x);
    ElsewhereTwice(d, d2, d3, dir, x);
    FileSteps.KeptInode(d1, d2, dir, x);
    RemovedStrays(d, x);
    PointersOf(d, d1, d2, d3, dir, c, x);
    EvolvesBy(d, Remove(x));
    EvolvesBy(d2, Resize(dir, Less16(d.inodes[dir].size)));
    EvolvesTwice(d, d1, d2);
    EvolvesTwice(d, d2, d3);
    SizeFields(d2, dir, Less16(d.inodes[dir].size));
  }

  lemma SizeFields(d: Disk, dir: nat, size: U32)
    requires dir < INODES
    ensures var d' := SetSize(d, dir, size);
            && d'.inodes == d.inodes[dir := d.inodes[dir].(size := size)]
            && d'.used == d.used && d'.owner == d.owner && d'.freeBlocks == d.freeBlocks
               && d'.freeInodes == d.freeInodes
  {
  }

  lemma RemovedStrays(d: Disk, x: nat)
    requires x < INODES
    ensures Strays(Removed(d, x)) == Strays(d)
  {
  }

  /** The directory's own pointers through the three steps. */
  lemma PointersOf(d: Disk, d1: Disk, d2: Disk, d3: Disk, dir: nat, c: string, x: nat)
    requires Owned(d) && dir < INODES && x < INODES && x != dir && d1 == Removed(d, x)
    requires Table(d1, dir) == Table(d, dir) && Shrinks(d1, d2, dir) && IndexesLeft(d1, d2, dir, c)
             && SameTree(d2, d3, dir)
    ensures IndexesLeft(d, d3, dir, c)
    ensures forall t :: PtrAt(d3, dir, t) == PtrAt(d, dir, t) || PtrAt(d3, dir, t) == None
  {
    hide Owned, PtrAt, Table, FileSteps.Others, Removed, SingleGoes;
    forall t ensures PtrAt(d1, dir, t) == PtrAt(d, dir, t) { ClearInode.RemovedPtr(d, x, dir, t); }
    forall t ensures PtrAt(d3, dir, t) == PtrAt(d2, dir, t) {}
  }

  /** What rd_unlink needs: a path that leads somewhere, not the root, and not a directory that has entries. */
  predicate CanUnlink(d: Disk, p: seq<string>) {
    && p != [] && Resolve(d, 0, p).Some?
    && (Resolve(d, 0, p).value < INODES && d.inodes[Resolve(d, 0, p).value].kind == Dir ==>
       d.inodes[Resolve(d, 0, p).value].size == 0)
  }

  /** The last part of rd_unlink: file x, and its entry c in directory dir. */
  method RemoveEntry(disk: RamDisk, dir: nat, c: string, x: nat)
    requires disk.Valid() && dir < INODES && disk.inodes[dir].kind == Dir && 0 < x < INODES && x != dir && c != ""
    modifies disk`freeBlocks, disk`freeInodes, disk`owner, disk.bitmap, disk.inodes, disk.blocks
    ensures disk.Valid() && Unlinked(old(disk.View()), disk.View(), dir, c, x)
  {
    hide Owned, PtrAt, Table, Cleared, Bitmap.Used, Shrinks, IndexesLeft, Removed, SetSize;
    ghost var d := disk.View();
    ClearInode.RemovedFields(d, x);
    ClearInode.RemoveInode(disk, x);
    ghost var d1 := disk.View();
    ClearEntryInCurrentDir(disk, dir, c);
    ghost var d2 := disk.View();
    ShrinksSize(d1, d2, dir);
    UnlinkSteps(d, d1, d2, dir, c, x);
    ghost var ns := disk.inodes[..];
    disk.inodes[dir] := disk.inodes[dir].(size := Less16(disk.inodes[dir].size));
    assert disk.inodes[..] == ns[dir := ns[dir].(size := Less16(ns[dir].size))];
    SizeFields(d2, dir, Less16(d.inodes[dir].size));
    SizeBlocks(d2, dir, Less16(d.inodes[dir].size));
    assert disk.View() == SetSize(d2, dir, Less16(d.inodes[dir].size));
  }

  lemma SizeBlocks(d: Disk, dir: nat, size: U32)
    requires dir < INODES
    ensures SetSize(d, dir, size).blocks == d.blocks
  {
  }

  lemma ShrinksSize(d: Disk, d': Disk, dir: nat)
    requires Shrinks(d, d', dir)
    ensures d'.inodes[dir].size == d.inodes[dir].size
  {
  }

  /** Unlinking a file gives back the blocks that its contents took. */
  lemma UnlinkReturns(d: Disk, d': Disk, dir: nat, c: string, x: nat, text: seq<Byte>, f: FileData.Frontier)
    requires Owned(d) && Unlinked(d, d', dir, c, x) && FileData.Settled(d, x, text, f)
    ensures d'.freeBlocks == d.freeBlocks + FileData.Blocks(f)
  {
    hide Owned, Table, FileData.Shows, FileData.Shaped, Elsewhere, IndexesLeft, PtrAt;
    ClearInode.OwnsCount(d, x, f);
  }

  /** What is known about the target of a call. */
  lemma TargetKnown(d: Disk, up: map<nat, Spot>, path: string, p: seq<string>)
    requires FsOk(d, up) && OnDirs(d, path) && Means(d, path, p)
    requires path != "/" && DirPart(path) != "" && Find(d, path).Some? && p != []
    ensures Owned(d) && Named(Front(p)) && Last(p) == NamePart(path) != "" && p == Front(p) + [Last(p)]
    ensures OnDirs(d, DirPart(path)) && Find(d, DirPart(path)) == Resolve(d, 0, Front(p))
            && Resolve(d, 0, Front(p)).Some?
    ensures var dir, x := Resolve(d, 0, Front(p)).value, Resolve(d, 0, p).value;
            && dir < INODES && d.inodes[dir].kind == Dir && Lookup(Table(d, dir), Last(p)) == Some(x)
            && 0 < x < INODES && x != dir && x in up && up[x].dir == dir
  {
    hide Owned, TreeOk, Ledger, Table, Lookup, Find, OnDirs, Resolve, DirPart, NamePart;
    SoundOwned(d);
    TargetParts(d, up, path, p);
    assert p == Front(p) + [Last(p)];
    assert DirIfAny(d, Resolve(d, 0, Front(p)));
    ResolveSnoc(d, 0, Front(p), Last(p));
    TargetEntered(d, up, Resolve(d, 0, Front(p)).value, Last(p), Resolve(d, 0, p).value);
  }

  /** A path that means no name at all is "/", or leads to the root, which then is not empty. */
  lemma TargetRoot(d: Disk, up: map<nat, Spot>, path: string)
    requires FsOk(d, up) && OnDirs(d, path) && Means(d, path, []) && path != "/"
    ensures Find(d, path) == Some(0) && d.inodes[0].kind == Dir && d.inodes[0].size > 0
  {
    hide Sound, TreeOk, Ledger, Find, OnDirs;
    RootNotEmpty(d, up, path);
  }

  /** After rd_unlink: the invariant, and what has become of the paths. */
  lemma UnlinkResult(d: Disk, up: map<nat, Spot>, d': Disk, cs: seq<string>, c: string, dir: nat, x: nat)
    requires FsOk(d, up) && Sound(d') && Unlinked(d, d', dir, c, x) && Lookup(Table(d, dir), c) == Some(x) && x in up
             && up[x].dir == dir
    requires d.inodes[x].kind == Dir ==> d.inodes[x].size == 0
    requires Named(cs) && c != "" && Resolve(d, 0, cs) == Some(dir) && Resolve(d, 0, cs + [c]) == Some(x)
    ensures FsOk(d', up - {x})
    ensures Neat(d) ==> Neat(d') && Resolve(d', 0, cs + [c]) == None
                        && (OnlyLostPath(d, d', cs + [c]) <==> NoLaterSingleton(Table(d, dir), c))
  {
    hide Owned, TreeOk, Ledger, Unlinked, Table, Lookup, Kids, NoLaterSingleton, Resolve, OnlyLostPath, UniqueNames,
         NoEmptyLeaf;
    SoundOwned(d);
    UnlinkedBounds(d, d', dir, c, x);
    UnlinkedTree(d, up, d', dir, c, x);
    UnlinkedLedger(d, up, d', dir, c, x);
    if Neat(d) {
      Childless(d, up, x);
      UnlinkedNeat(d, up, d', dir, c, x);
      UnlinkedPathsIff(d, up, d', dir, c, x, cs);
    }
  }

  /** rd_unlink, with a path that means the names p. */
  method RdUnlink(disk: RamDisk, path: string, ghost up: map<nat, Spot>, ghost p: seq<string>)
    returns (r: int, ghost dir: nat, ghost x: nat)
    requires disk.Valid() && FsOk(disk.View(), up)
    requires OnDirs(disk.View(), path) && Means(disk.View(), path, p)
    requires Find(disk.View(), path).Some? ==> DirPart(path) != ""
    modifies disk`freeBlocks, disk`freeInodes, disk`owner, disk.bitmap, disk.inodes, disk.blocks
    ensures disk.Valid() && (r == 0 || r == -1)
    ensures r == 0 <==> path != "/" && CanUnlink(old(disk.View()), p)
    ensures r == -1 ==> disk.View() == old(disk.View())
    ensures r == 0 ==>
            p != [] && Resolve(old(disk.View()), 0, Front(p)) == Some(dir)
            && Resolve(old(disk.View()), 0, p) == Some(x)
                       && Unlinked(old(disk.View()), disk.View(), dir, Last(p), x) && FsOk(disk.View(), up - {x})
    ensures r == 0 && Neat(old(disk.View())) ==>
            && Neat(disk.View()) && Resolve(disk.View(), 0, p) == None
            && (OnlyLostPath(old(disk.View()), disk.View(), p)
               <==> NoLaterSingleton(Table(old(disk.View()), dir), Last(p)))
  {
    hide Sound, TreeOk, Ledger, PtrAt, Table, Lookup, Bitmap.Used, Unlinked, Resolve, Neat, LastSlash, DirPart,
         NamePart, Find, OnDirs, OnlyLostPath, NoLaterSingleton;
    ghost var d := disk.View();
    dir, x := 0, 0;
    if path == "/" {
      return -1, dir, x;
    }
    var file := MyFindInodeNumber(disk, path);
    if file == -1 {
      return -1, dir, x;
    }
    if p == [] { TargetRoot(d, up, path); } else { TargetKnown(d, up, path, p); }
    if disk.inodes[file].kind == Dir {
      if disk.inodes[file].size > 0 {
        return -1, dir, x;
      }
    }
    var dirPath, name := ParseAbsolutePath(path);
    var cur := MyFindInodeNumber(disk, dirPath);
    if cur == -1 {
      assert false;  // a path that leads somewhere has a directory it leads through
    }
    dir, x := cur, file;
    RemoveEntry(disk, cur, name, file);
    UnlinkResult(d, up, disk.View(), Front(p), Last(p), dir, x);
    r := 0;
  }
}
