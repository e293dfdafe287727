/** The life of a file: created, opened, written, read back, closed, unlinked. */
module LifeCycle {
  import opened Options
  import Bitmap
  import opened Disk
  import opened FileData
  import FileSteps
  import Directory
  import opened RamDisks
  import FdTable
  import FileWrite
  import opened FileIo
  import FileRead
  import opened RoundTrip
  import opened Paths
  import opened Tree
  import opened PathWalks
  import opened DirGrow
  import opened Ledgers
  import Creating
  import opened Create
  import Unlinking
  import Unlink
  import CreateUnlink
  import OpenClose
  import opened Runs

  /** The disk after creating regular file x under c in dir, and what is known of it. */
  ghost predicate Made(d: Disk, up: map<nat, Spot>, d1: Disk, up1: map<nat, Spot>, cs: seq<string>, c: string,
          mode: nat, x: nat, w: Where) {
    && FsOk(d, up) && Neat(d) && Named(cs) && c != ""
    && CreateResult(d, up, d1, up1, cs, c, Reg, mode, true, x, w) && OnlyNewPath(d, d1, cs + [c], x) && Neat(d1)
  }

  lemma MadeFacts(d: Disk, up: map<nat, Spot>, d1: Disk, up1: map<nat, Spot>, cs: seq<string>, c: string, mode: nat,
          x: nat, w: Where)
    requires Made(d, up, d1, up1, cs, c, mode, x, w)
    ensures FsOk(d1, up1) && Resolve(d1, 0, cs + [c]) == Some(x) && 0 < x < INODES
    ensures d1.inodes[x] == NO_INODE.(kind := Reg, access := mode)
    ensures Resolve(d, 0, cs).Some? && Resolve(d1, 0, cs) == Resolve(d, 0, cs) && up1 - {x} == up
    ensures forall y :: 0 <= y < INODES && d.inodes[y].kind != NoFile ==> d1.inodes[y].kind != NoFile
  {
    hide Sound, TreeOk, Neat, Resolve, Creating.Created, Entered, Zeroes, InDirs, Sizes;
    var dir := Resolve(d, 0, cs).value;
    Creating.CreatedKinds(d, d1, dir, c, x, Reg, mode, w);
    Creating.NewInodeFree(d, d1, dir, c, x, Reg, mode, w);
    MadeInode(d, d1, dir, c, mode, x, w);
    Creating.NotEntered(d, up, x);
    assert up1 - {x} == up;
    assert cs != cs + [c];
  }

  lemma MadeInode(d: Disk, d1: Disk, dir: nat, c: string, mode: nat, x: nat, w: Where)
    requires Creating.Created(d, d1, dir, c, x, Reg, mode, w)
    ensures d1.inodes[x] == NO_INODE.(kind := Reg, access := mode)
  {
  }

  /** The new file is empty text. */
  lemma MadeEmpty(d: Disk, x: nat, mode: nat)
    requires x < INODES && d.inodes[x] == NO_INODE.(kind := Reg, access := mode)
    ensures Settled(d, x, [], Needed(0))
  {
    hide PtrAt;
    forall t ensures PtrAt(d, x, t) == None { BlankNoPtr(d, x, t); }
    EmptyFile(d, x);
  }

  /** After the file was written: the tree, the paths and the invariant are as before. */
  lemma Written(d1: Disk, up1: map<nat, Spot>, d2: Disk, x: nat, p: seq<string>)
    requires FsOk(d1, up1) && Neat(d1) && Sound(d2) && x < INODES && d1.inodes[x].kind == Reg
             && FileSteps.Kept(d1, d2, x)
    requires Named(p) && Resolve(d1, 0, p) == Some(x) && ThroughDirs(d1, 0, p)
    ensures FsOk(d2, up1) && Neat(d2) && ThroughDirs(d2, 0, p) && d2.inodes[x].kind == Reg
    ensures forall cs :: Named(cs) ==> Resolve(d2, 0, cs) == Resolve(d1, 0, cs)
  {
    hide Owned, TreeOk, Ledger, Neat, FileSteps.Kept, Resolve, ThroughDirs, WriteStep, Sound;
    var s, s' := State(d1, up1), State(d2, up1);
    assert WriteStep(s, s', x) by { WroteStep(d1, up1, d2, x); }
    SoundOwned(d1);
    SoundOwned(d2);
    WriteKeeps(s, s', x);
    WriteNeat(s, s', x);
    KeptKinds(d1, d2, x);
    forall cs | Named(cs) ensures Resolve(d2, 0, cs) == Resolve(d1, 0, cs) { WritePaths(s, s', x, 0, cs); }
    ThroughDirsIff(d1, up1, 0, p);
    ThroughDirsIff(d2, up1, 0, p);
    forall k | 0 <= k < |p| ensures DirIfAny(d2, Resolve(d2, 0, p[..k])) {
      assert DirIfAny(d1, Resolve(d1, 0, p[..k])) && Named(p[..k]);
    }
  }

  lemma WroteStep(d1: Disk, up1: map<nat, Spot>, d2: Disk, x: nat)
    requires x < INODES && d1.inodes[x].kind == Reg && FileSteps.Kept(d1, d2, x)
    ensures WriteStep(State(d1, up1), State(d2, up1), x)
  {
  }

  /** The first half: the file is created, with one of the three modes, and nothing is in it; and it is opened, with
      one of the three flags. That succeeds exactly with the flags of the mode, or on mode RW, and rd_write accepts the
      descriptor unless it is for reading only. */
  method CreateAndOpen(disk: RamDisk, fds: FdTable.Table, path: string, mode: nat, flags: nat, ghost up: map<nat, Spot>,
          ghost cs: seq<string>, ghost c: string)
    returns (fd: int, ghost x: nat, ghost w: Where, ghost up1: map<nat, Spot>)
    requires mode in {RD, WR, RW} && flags in {RD, WR, RW}
    requires disk.Valid() && FsOk(disk.View(), up) && Neat(disk.View())
    requires fds.Valid() && FileWrite.Apart(disk, fds) && OpenFilesExist(disk, fds) && OpenClose.SlotLeft(fds.files[..])
    requires GoodNames(cs) && GoodName(c) && path == PathOf(cs + [c]) && ThroughDirs(disk.View(), 0, cs + [c])
    requires Resolve(disk.View(), 0, cs + [c]) == None
    requires Resolve(disk.View(), 0, cs).Some? ==> Resolve(disk.View(), 0, cs).value < INODES
    requires CanCreate(disk.View(), cs) && Goal(disk.View(), Resolve(disk.View(), 0, cs).value) < FIRST_ROW
    modifies disk`freeBlocks, disk`freeInodes, disk`owner, disk.bitmap, disk.inodes, disk.blocks, fds.files
    ensures disk.Valid() && Made(old(disk.View()), up, disk.View(), up1, cs, c, mode, x, w)
            && ThroughDirs(disk.View(), 0, cs + [c])
    ensures fds.Valid() && OpenFilesExist(disk, fds)
    ensures fd != -1 <==> flags == mode || mode == RW
    ensures fd == -1 ==> fds.files[..] == old(fds.files[..])
    ensures fd != -1 ==>
            && 0 <= fd < FdTable.FD_TABLE_SIZE && fds.files[fd].inode == Some(x) && Built(disk, fds, fd, [])
            && (CanWrite(disk, fds, fd) <==> flags != RD)
    ensures var d, dir := old(disk.View()), Resolve(old(disk.View()), 0, cs).value;
            Goal(d, dir) < LEAVES && disk.freeBlocks == d.freeBlocks - Needs(d, dir, Goal(d, dir))
  {
    hide Sound, TreeOk, Ledger, Neat, Resolve, ThroughDirs, CreateResult, OnlyNewPath, Settled, Needed, Bitmap.Used,
         Goal, Needs, CanCreate, PathOf, IntoDir, Means, OnDirs, Find, DirPart, NamePart;
    ghost var d := disk.View();
    CallNamed(d, up, cs, c);
    var r;
    r, x, w, up1 := RdCreate(disk, path, Reg, mode, up, cs, c);
    WhereGot(d, up, disk.View(), up1, cs, c, Reg, mode, x, w);
    MadeFacts(d, up, disk.View(), up1, cs, c, mode, x, w);
    CreateUnlink.StillGood(d, up, disk.View(), up1, cs, c, Reg, mode, x, w);
    CallNamed(disk.View(), up1, cs, c);
    fd := OpenClose.RdOpen(disk, fds, path, flags, up1, cs + [c]);
    MadeEmpty(disk.View(), x, mode);
  }

  /** Unlinking counts the blocks of the contents free again. */
  lemma Over(d1: Disk, d2: Disk, d3: Disk, dir: nat, c: string, x: nat, text: seq<Byte>)
    requires Sound(d2) && Settled(d2, x, text, Needed(|text|))
             && d2.freeBlocks == d1.freeBlocks - Blocks(Needed(|text|))
    requires Unlinking.Unlinked(d2, d3, dir, c, x)
    ensures d3.freeBlocks == d1.freeBlocks
  {
    hide Sound, Settled, Needed, Unlinking.Unlinked, Blocks;
    SoundOwned(d2);
    Unlink.UnlinkReturns(d2, d3, dir, c, x, text, Needed(|text|));
  }

  /** A file is created, opened, written in any pieces that fit, read back in any pieces that fit, closed and unlinked.
      What is read is what was written; in the end the path leads nowhere again, all blocks of the contents are counted
      free again, and the invariant holds for the same places as at the start. */
  method Life(disk: RamDisk, fds: FdTable.Table, path: string, chunks: seq<seq<Byte>>, sizes: seq<nat>,
          dst: array<Byte>,
          buf: array<Byte>,
              ghost up: map<nat, Spot>, ghost cs: seq<string>, ghost c: string)
    returns (out: seq<Byte>, r: int)
    requires disk.Valid() && FsOk(disk.View(), up) && Neat(disk.View())
    requires fds.Valid() && OpenFilesExist(disk, fds) && OpenClose.SlotLeft(fds.files[..])
    requires FileRead.BufferApart(disk, fds, buf) && buf.Length == FileRead.READ_BUFFER
             && dst.Length == FileRead.READ_BUFFER
    requires dst != buf && dst as object != fds.files && dst as object != disk.bitmap && dst as object != disk.inodes
             && dst as object != disk.blocks
    requires GoodNames(cs) && GoodName(c) && path == PathOf(cs + [c]) && ThroughDirs(disk.View(), 0, cs + [c])
    requires Resolve(disk.View(), 0, cs + [c]) == None
    requires Resolve(disk.View(), 0, cs).Some? ==> Resolve(disk.View(), 0, cs).value < INODES
    requires CanCreate(disk.View(), cs) && Goal(disk.View(), Resolve(disk.View(), 0, cs).value) < FIRST_ROW
    requires chunks != [] && ChunksFit(0, chunks) && ReadsFit(0, sizes) && Sum(sizes) == |Flat(chunks)|
    requires var d, dir := disk.View(), Resolve(disk.View(), 0, cs).value;
             d.freeBlocks >= Needs(d, dir, Goal(d, dir)) + Blocks(Needed(|Flat(chunks)|))
    modifies disk`freeBlocks, disk`freeInodes, disk`owner, disk.bitmap, disk.inodes, disk.blocks, fds.files, buf, dst
    ensures out == Flat(chunks) && r == 0
    ensures disk.Valid() && FsOk(disk.View(), up) && Neat(disk.View()) && Resolve(disk.View(), 0, cs + [c]) == None
    ensures var d, dir := old(disk.View()), Resolve(old(disk.View()), 0, cs).value;
            Goal(d, dir) < LEAVES && disk.freeBlocks == d.freeBlocks - Needs(d, dir, Goal(d, dir))
  {
    hide Sound, TreeOk, Ledger, Neat, Resolve, ThroughDirs, OnlyNewPath, Settled, Needed, Blocks, Bitmap.Used, Goal,
         Needs, CanCreate, PathOf, Built, ChunksFit, ReadsFit, Sum, Flat, FileSteps.Kept, Unlinking.Unlinked,
         Unlinking.OnlyLostPath, Made, Unlink.CanUnlink, RamDisk.View, Directory.NoLaterSingleton, IntoDir, Means,
         OnDirs, Find, DirPart, NamePart, Front, Last;
    ghost var d := disk.View();
    ghost var x, w, up1;
    var fd;
    fd, x, w, up1 := CreateAndOpen(disk, fds, path, RW, RW, up, cs, c);
    ghost var d1 := disk.View();
    MadeFacts(d, up, d1, up1, cs, c, RW, x, w);
    MadeGood(d, up, d1, up1, cs, c, RW, x, w);
    ViewCounters(disk);
    out := WriteSeekRead(disk, fds, fd, chunks, sizes, dst, buf);
    ghost var d2 := disk.View();
    Written(d1, up1, d2, x, cs + [c]);
    ViewCounters(disk);
    var closed := OpenClose.RdClose(disk, fds, fd);
    assert disk.View() == d2;
    FileCanGo(d2, cs + [c], x);
    CallNamed(d2, up1, cs, c);
    FrontLast(cs, c);
    ghost var dir, gone;
    r, dir, gone := Unlink.RdUnlink(disk, path, up1, cs + [c]);
    ViewCounters(disk);
    Over(d1, d2, disk.View(), dir, c, x, Flat(chunks));
  }

  lemma MadeGood(d: Disk, up: map<nat, Spot>, d1: Disk, up1: map<nat, Spot>, cs: seq<string>, c: string, mode: nat,
          x: nat, w: Where)
    requires Made(d, up, d1, up1, cs, c, mode, x, w)
    ensures Neat(d1) && Named(cs + [c])
  {
    hide FsOk, Neat, CreateResult, OnlyNewPath;
  }

  lemma FileCanGo(d: Disk, p: seq<string>, x: nat)
    requires Resolve(d, 0, p) == Some(x) && p != [] && x < INODES && d.inodes[x].kind == Reg
    ensures Unlink.CanUnlink(d, p)
  {
    hide Resolve;
  }
}
