/** Transfers outside the domain of the loops, reached: calls from the constructor on that do not write, or not read,
    the bytes they report. */
module Astray {
  import opened Options
  import opened Disk
  import opened FileData
  import opened RamDisks
  import opened FdTable
  import FileWrite
  import opened FileIo
  import opened ReadPath
  import FileRead
  import ReadTape
  import opened RoundTrip
  import opened WritePath
  import BlockTour
  import opened Overwriting
  import FileSteps
  import Paths
  import opened Tree
  import PathWalks
  import DirGrow
  import opened Ledgers
  import Create
  import Unlinking
  import Unlink
  import opened Filling
  import opened Scenarios
  import LifeCycle
  import opened Pieces

  /** On a new disk, the open file "/aa", with nothing in it. */
  method NewFile() returns (disk: RamDisk, fds: Table, fd: nat)
    ensures fresh(disk) && fresh(disk.bitmap) && fresh(disk.inodes) && fresh(disk.blocks) && fresh(fds.files)
    ensures disk.Valid() && fds.Valid() && OpenFilesExist(disk, fds) && FileWrite.Apart(disk, fds)
    ensures CanWrite(disk, fds, fd) && CanRead(disk, fds, fd) && Built(disk, fds, fd, [])
    ensures disk.freeBlocks == 7930
  {
    hide NameOf, Populated, Create.CanCreate, DirGrow.Needs, DirGrow.Goal, Resolve, ThroughDirs, Paths.PathOf,
         Paths.GoodName, FsOk, Neat, RamDisk.View, Sound, LifeCycle.Made, Settled, Needed;
    ghost var up, run;
    disk, up, run := Populate(0);
    fds := new Table();
    assert fds.files[..][0].usable != 1;
    ghost var d := disk.View();
    PopulatedOk(d, up, 0);
    RootPath(d, 0);
    RoomForMore(d, up, 0);
    AllFree(d, up);
    ghost var x, w, up1;
    fd, x, w, up1 := LifeCycle.CreateAndOpen(disk, fds, "/" + NameOf(0), RW, RW, up, [], NameOf(0));
    BuiltFacts(disk, fds, fd, []);
  }

  lemma AllFree(d: Disk, up: map<nat, Spot>)
    requires Populated(d, up, 0)
    ensures d.freeBlocks == 7931
  {
    hide FsOk, Neat;
  }

  /** The same with the given text, which one call of rd_write can write. */
  method FileWith(text: seq<Byte>) returns (disk: RamDisk, fds: Table, fd: nat)
    requires text != [] && NoZero(text) && |text| <= 18432
    ensures fresh(disk) && fresh(disk.bitmap) && fresh(disk.inodes) && fresh(disk.blocks) && fresh(fds.files)
    ensures disk.Valid() && fds.Valid() && OpenFilesExist(disk, fds) && FileWrite.Apart(disk, fds)
    ensures CanWrite(disk, fds, fd) && CanRead(disk, fds, fd) && Built(disk, fds, fd, text)
    ensures disk.freeBlocks >= 7857
  {
    hide RamDisk.View, Sound, Settled, Blocks, Needed;
    disk, fds, fd := NewFile();
    FewBlocks(text);
    WriteAll(disk, fds, fd, [text]);
  }

  lemma FewBlocks(text: seq<Byte>)
    requires text != [] && NoZero(text) && |text| <= 18432
    ensures ChunksFit(0, [text]) && Flat([text]) == text && Blocks(Needed(|text|)) <= 73
  {
    FootprintIs(|text|);
    assert text[..|text|] == text;
    assert [text][1..] == [];
  }

  /** A file is unlinked while it is open: the call returns 0, and the descriptor is open still, on an inode of no
      kind. d is the disk before the call, and os the descriptors. */
  method UnlinkedWhileOpen()
    returns (disk: RamDisk, fds: Table, fd: nat, r: int, ghost d: Disk, ghost os: seq<FileObj>)
    ensures disk.Valid() && fds.Valid() && fd < FD_TABLE_SIZE && fds.files[fd].usable == 1 && fds.files[..] == os
    ensures var x := fds.files[fd].inode.value;
            && Resolve(d, 0, [NameOf(0)]) == Some(x) && d.inodes[x].kind == Reg
            && Unlinking.Unlinked(d, disk.View(), 0, NameOf(0), x) && r == 0
            && disk.inodes[x].kind == NoFile
  {
    hide NameOf, Populated, Create.CanCreate, DirGrow.Needs, DirGrow.Goal, Resolve, ThroughDirs, Paths.PathOf,
         Paths.GoodName, FsOk, Neat, RamDisk.View, Sound, LifeCycle.Made, Settled, Unlink.CanUnlink, Unlinking.Unlinked,
         PathWalks.IntoDir, PathWalks.Means, OnDirs, Find, Paths.DirPart, Paths.NamePart, PathWalks.Front,
         PathWalks.Last, Unlinking.OnlyLostPath;
    ghost var up, run;
    disk, up, run := Populate(0);
    fds := new Table();
    assert fds.files[..][0].usable != 1;
    ghost var d0 := disk.View();
    PopulatedOk(d0, up, 0);
    RootPath(d0, 0);
    RoomForMore(d0, up, 0);
    ghost var x, w, up1;
    fd, x, w, up1 := LifeCycle.CreateAndOpen(disk, fds, "/" + NameOf(0), RW, RW, up, [], NameOf(0));
    d, os := disk.View(), fds.files[..];
    LifeCycle.MadeFacts(d0, up, d, up1, [], NameOf(0), RW, x, w);
    OkRoot(d, up1);
    RootCall(d, up1, 0);
    RootPath(d, 0);
    LifeCycle.FileCanGo(d, [NameOf(0)], x);
    ghost var dir, gone;
    r, dir, gone := Unlink.RdUnlink(disk, "/" + NameOf(0), up1, [NameOf(0)]);
    Unlinking.UnlinkedBounds(d, disk.View(), dir, NameOf(0), x);
    Create.ViewCounters(disk);
  }

  lemma OkRoot(d: Disk, up: map<nat, Spot>)
    requires FsOk(d, up)
    ensures d.inodes[0].kind == Dir
  {
    hide Sound, Ledger, DirOk;
  }

  // ---------------------------------------------------------------- writing

  /** The second block is entered at position 1, as the first one was. */
  lemma SecondBlockFrom1(size: nat)
    requires 512 <= size <= MAX_FILE_SIZE
    ensures Stretch(0, DIRECT, 1, 256, size) == Span(1, 255) + [257]
  {
    hide Stretch, Span;
    var k := StretchOnce(0, DIRECT, 1, 256, size);
    assert k == 255;
    var k' := StretchOnce(1, DIRECT, 1, 1, size);
    assert k' == 1;
    NothingToStretch(2, DIRECT, 1, 0, size);
    OneSpan(257);
    assert [257] + [] == [257];
  }

  lemma OneSpan(p: nat)
    ensures Span(p, 1) == [p]
  {
  }

  lemma AstrayLands()
    ensures Lands(1, 1, 256) == Span(1, 255) + [257] && |DirectLands(1, 256)| == 256
  {
    hide Stretch;
    SecondBlockFrom1(MAX_FILE_SIZE);
    var a := DirectLands(1, 256);
    assert |a| == 256;
    NoneLeft(Plus32(1, 256));
    assert a + [] == a;
  }

  lemma AstrayTour(d: Disk, x: nat)
    ensures |BlockTour.Lacking(d, x, BlockTour.WriteTour(1, 1, 256, true))| <= DIRECT
  {
    hide DirectLands, BlockTour.Lacking, BlockTour.WriteTour, BlockTour.DirectTour;
    AstrayLands();
    BlockTour.DirectTourEnds(1, 1, 256);
    BlockTour.LackingShort(d, x, BlockTour.WriteTour(1, 1, 256, true));
  }

  /** After one byte was written, 256 more are written. The call reports all of them written, but the last one lies one
      position too far, behind a zero byte, and the file shows no text any more. d is the disk before that call, and os
      the descriptors. */
  method WriteAstray(more: seq<Byte>)
    returns (disk: RamDisk, fds: Table, fd: nat, r: int, ghost d: Disk, ghost os: seq<FileObj>)
    requires |more| == 256 && NoZero(more)
    ensures disk.Valid() && fds.Valid() && fd < FD_TABLE_SIZE && fds.files[fd].usable == 1
    ensures var x := fds.files[fd].inode.value;
            && Shows(d, x, [1]) && |os| == FD_TABLE_SIZE && os[fd].cursor == 1 && d.freeBlocks >= 7857
            && FileWrite.Went(d, os, disk.View(), fds.files[..], fd, x, 256)
            && Scattered(d, os, disk.View(), fd, x, more, 256, r, 256)
            && r == 256 && !ShowsSome(disk.View(), x)
            && ByteOf(disk.View(), x, 256) == 0 && ByteOf(disk.View(), x, 257) == more[255]
  {
    hide AtEnd, FileWrite.Went, Shows, Missing, Needed, Join, Sound, RamDisk.View, Settled, Scattered, ByteOf,
         ShowsSome, Lands, Solid;
    disk, fds, fd := FileWith([1]);
    ghost var x := fds.files[fd].inode.value;
    d, os := disk.View(), fds.files[..];
    BuiltFacts(disk, fds, fd, [1]);
    ghost var k, g;
    r, k, g := RdWrite(disk, fds, fd, more, 256, [1], Needed(1));
    AstrayOutcome(d, os, disk.View(), fds.files[..], fd, x, more, r, k);
    WentSlot(d, os, disk.View(), fds.files[..], fd, x, k);
  }

  lemma BuiltFacts(disk: RamDisk, fds: Table, fd: nat, text: seq<Byte>)
    requires disk.Shape() && fds.Valid() && fd < FD_TABLE_SIZE && fds.files[fd].inode.Some?
             && Built(disk, fds, fd, text)
    ensures Shows(disk.View(), fds.files[fd].inode.value, text) && fds.files[fd].cursor == |text|
    ensures disk.View().freeBlocks == disk.freeBlocks
    ensures disk.View().inodes == disk.inodes[..] && fds.files[fd].inode.value < INODES
    ensures disk.inodes[fds.files[fd].inode.value].kind == Reg
  {
    hide Shaped, FByte, Needed;
  }

  lemma WentSlot(d: Disk, os: seq<FileObj>, d': Disk, os': seq<FileObj>, h: nat, ino: nat, k: nat)
    requires FileWrite.Went(d, os, d', os', h, ino, k)
    ensures |os'| == |os| && os'[h].inode == os[h].inode && os'[h].usable == os[h].usable
  {
    hide FileSteps.Kept, Plus32;
  }

  lemma AstrayOutcome(d: Disk, os: seq<FileObj>, d': Disk, os': seq<FileObj>, h: nat, x: nat, more: seq<Byte>, r: int,
          k: nat)
    requires |more| == 256 && NoZero(more) && Shows(d, x, [1]) && x < INODES && h < |os| && os[h].cursor == 1
    requires d.freeBlocks >= DIRECT
    requires FileWrite.Went(d, os, d', os', h, x, k) && Scattered(d, os, d', h, x, more, 256, r, k)
    ensures k == 256 && r == 256 && !ShowsSome(d', x) && ByteOf(d', x, 256) == 0 && ByteOf(d', x, 257) == more[255]
  {
    hide Shows, Laid, FileWrite.Went, ByteOf, ShowsSome, Lands, Solid, LowLands, BlockTour.WriteTour,
         BlockTour.DirectTour, BlockTour.Lacking, PtrAt, NextMissing, DirectLands;
    ShownFacts(d, x, [1]);
    SolidAll(more, 256);
    assert more[..256] == more;
    AstrayLands();
    AstrayTour(d, x);
    var ps := Lands(1, 1, 256);
    assert ps[..256] == ps && more[0..256] == more;
    ShownBytes(d, x, [1], 256);
    InSpan(1, 255);
    assert ps[255] == 257 && Span(1, 256)[255] == 256 && 256 !in ps;
    assert Laid(d, d', x, ps, more);
    LaidAt(d, d', x, ps, more, 255, 256);
    WriteShowsIff(d, os, d', os', h, x, more, 256, r, k, [1]);
  }

  lemma LaidAt(d: Disk, d': Disk, ino: nat, ps: seq<nat>, bs: seq<Byte>, i: nat, p: nat)
    requires Laid(d, d', ino, ps, bs) && i < |ps| && p < MAX_FILE_SIZE && p !in ps
    ensures ps[i] < MAX_FILE_SIZE && ByteOf(d', ino, ps[i]) == bs[i] && ByteOf(d', ino, p) == ByteOf(d, ino, p)
  {
    hide ByteOf;
  }

  lemma ZeroAtEnd(text: seq<Byte>)
    requires NoZero(text)
    ensures Solid(text + [0], |text| + 1) == |text| && (text + [0])[..|text|] == text
  {
    hide ZeroAt;
    var data := text + [0];
    var m := Solid(data, |text| + 1);
    assert forall i :: 0 <= i < |text| ==> data[i] == text[i];
    assert data[0..m] == data[..m];
    NoneZero(data, 0, m);
    assert data[|text|] == 0;
  }

  /** A new file has no blocks. */
  lemma EmptyLacks(d: Disk, x: nat)
    requires Settled(d, x, [], Needed(0))
    ensures |BlockTour.Lacking(d, x, BlockTour.RunTour(0, DIRECT))| == DIRECT
  {
    hide PtrAt, Shows;
    var tour := BlockTour.RunTour(0, DIRECT);
    forall t | t in tour ensures PtrAt(d, x, t) == None {
      var i :| 0 <= i < |tour| && tour[i] == t;
      assert t == LeafSlot(i);
    }
    BlockTour.LackingAll(d, x, tour);
  }

  lemma ZeroOutcome(d: Disk, os: seq<FileObj>, d': Disk, os': seq<FileObj>, h: nat, x: nat, text: seq<Byte>, r: int,
          k: nat)
    requires text != [] && NoZero(text) && |text| < BLOCK_SIZE
    requires Settled(d, x, [], Needed(0)) && x < INODES && h < |os| && os[h].cursor == 0 && d.freeBlocks >= DIRECT
    requires FileWrite.Went(d, os, d', os', h, x, k)
    requires Scattered(d, os, d', h, x, text + [0], |text| + 1, r, k)
    ensures r == 0 && d'.freeBlocks == d.freeBlocks - DIRECT && Shows(d', x, text)
  {
    hide Shows, Shaped, Laid, FileWrite.Went, ShowsSome, Lands, Solid, LowLands, BlockTour.WriteTour, BlockTour.RunTour,
         BlockTour.Lacking, PtrAt, NextMissing, DirectLands, ReadDomain;
    var m := |text|;
    ShownFacts(d, x, []);
    ZeroAtEnd(text);
    LandsIff(0, m);
    assert ReadDomain(0, m) by { AtTheStart(m); }
    assert |Lands(0, 0, m)| == m;
    DirectBound(m);
    BlockTour.ZeroTour(0, 0, m);
    EmptyLacks(d, x);
    assert Lands(0, 0, m)[..m] == Lands(0, 0, m);
    WriteShowsIff(d, os, d', os', h, x, text + [0], m + 1, r, k, []);
    assert [] + text == text;
  }

  lemma AtTheStart(m: nat)
    ensures ReadDomain(0, m)
  {
  }

  lemma DirectBound(m: nat)
    requires m < BLOCK_SIZE
    ensures Plus32(0, |DirectLands(0, m)|) / BLOCK_SIZE < DIRECT && Plus32(0, |LowLands(0, 0, m)|) / BLOCK_SIZE < LEAVES
  {
    hide Stretch;
    LandsApart(0, 0, m);
  }

  /** Some bytes and then a zero byte are written to a new file. The call returns 0, although the bytes before the zero
      were written; the loop stops at the zero byte in every direct block, and takes all eight of them. d is the disk
      before. */
  method ZeroByteWritten(text: seq<Byte>) returns (disk: RamDisk, fds: Table, fd: nat, r: int, ghost d: Disk)
    requires text != [] && NoZero(text) && |text| < BLOCK_SIZE
    ensures disk.Valid() && fds.Valid() && fd < FD_TABLE_SIZE && fds.files[fd].usable == 1
    ensures var x := fds.files[fd].inode.value;
            && Settled(d, x, [], Needed(0)) && r == 0 && Shows(disk.View(), x, text)
            && d.freeBlocks == 7930 && disk.freeBlocks == 7922
  {
    hide AtEnd, FileWrite.Went, Shows, Missing, Needed, Join, Sound, RamDisk.View, Settled, Scattered, InDomain;
    disk, fds, fd := NewFile();
    ghost var x, os := fds.files[fd].inode.value, fds.files[..];
    d := disk.View();
    BuiltFacts(disk, fds, fd, []);
    assert Settled(d, x, [], Needed(0)) by { BuiltEmpty(disk, fds, fd); }
    ghost var k, g;
    r, k, g := RdWrite(disk, fds, fd, text + [0], |text| + 1, [], Needed(0));
    ZeroOutcome(d, os, disk.View(), fds.files[..], fd, x, text, r, k);
    WentSlot(d, os, disk.View(), fds.files[..], fd, x, k);
    Create.ViewCounters(disk);
  }

  lemma BuiltEmpty(disk: RamDisk, fds: Table, fd: nat)
    requires disk.Shape() && fds.Valid() && fd < FD_TABLE_SIZE && fds.files[fd].inode.Some?
             && Built(disk, fds, fd, [])
    ensures Settled(disk.View(), fds.files[fd].inode.value, [], Needed(0))
  {
    hide Settled, Needed;
  }

  /** On a new disk, the open file "/aa", as large as a file can be. */
  method FullFile() returns (disk: RamDisk, fds: Table, fd: nat)
    ensures fresh(disk) && fresh(disk.bitmap) && fresh(disk.inodes) && fresh(disk.blocks) && fresh(fds.files)
    ensures disk.Valid() && fds.Valid() && FileWrite.Apart(disk, fds) && OpenFilesExist(disk, fds)
    ensures CanWrite(disk, fds, fd) && CanRead(disk, fds, fd) && Built(disk, fds, fd, Ones(MAX_FILE_SIZE))
  {
    hide RamDisk.View, Sound, Settled, Blocks, Needed, ChunksFit, Flat;
    disk, fds, fd := NewFile();
    FullChunks();
    WriteAll(disk, fds, fd, [Ones(2048), Ones(16384), Ones(1048576)]);
  }

  lemma FullChunks()
    ensures var cs := [Ones(2048), Ones(16384), Ones(1048576)];
            ChunksFit(0, cs) && Flat(cs) == Ones(MAX_FILE_SIZE) && Blocks(Needed(MAX_FILE_SIZE)) <= 7930
  {
    var a, b, c := Ones(2048), Ones(16384), Ones(1048576);
    FootprintIs(MAX_FILE_SIZE);
    assert a[..2048] == a && b[..16384] == b && c[..1048576] == c;
    var none: seq<seq<Byte>> := [];
    assert [a, b, c][1..] == [b, c] && [b, c][1..] == [c] && [c][1..] == none;
    assert ChunksFit(18432, [c]);
    assert ChunksFit(2048, [b, c]);
    assert Flat([c]) == c && Flat([b, c]) == b + c && Flat([a, b, c]) == a + (b + c);
  }

  /** A full file overwritten from its start: the bytes fill the direct blocks, and with them the size passes the
      tree. */
  lemma FullLands(n: nat)
    requires 2048 < n <= MAX_FILE_SIZE
    ensures DirectLands(0, n) == LowLands(0, MAX_FILE_SIZE, n) == Lands(0, MAX_FILE_SIZE, n) == Span(0, 2048)
  {
    hide Stretch;
    StretchAligned(0, DIRECT, n, MAX_FILE_SIZE);
    var a := DirectLands(0, n);
    assert Plus32(MAX_FILE_SIZE, 2048) / BLOCK_SIZE >= LEAVES;
    assert a == Span(0, 2048) && a + [] == a;
  }

  /** None of its blocks is missing. */
  lemma FullTour(d: Disk, x: nat, n: nat)
    requires 2048 < n <= MAX_FILE_SIZE && Settled(d, x, Ones(MAX_FILE_SIZE), Needed(MAX_FILE_SIZE))
    ensures BlockTour.Lacking(d, x, BlockTour.WriteTour(0, MAX_FILE_SIZE, n, true)) == []
  {
    hide Shows, PtrAt, LeafSlot, BlockTour.Lacking, BlockTour.PassEnd, DirectLands, LowLands;
    FullLands(n);
    var e := BlockTour.PassEnd(0, DIRECT, 0, n, true);
    var tour := BlockTour.RunTour(0, e);
    assert BlockTour.WriteTour(0, MAX_FILE_SIZE, n, true) == tour;
    forall t | t in tour ensures PtrAt(d, x, t).Some? {
      var i :| 0 <= i < |tour| && tour[i] == t;
      assert t == LeafSlot(i);
    }
    BlockTour.LackingNone(d, x, tour);
  }

  lemma FullOutcome(d: Disk, os: seq<FileObj>, d': Disk, os': seq<FileObj>, h: nat, x: nat, data: seq<Byte>, r: int,
          k: nat)
    requires NoZero(data) && 2048 < |data| <= MAX_FILE_SIZE
    requires Settled(d, x, Ones(MAX_FILE_SIZE), Needed(MAX_FILE_SIZE)) && h < |os| && os[h].cursor == 0
    requires FileWrite.Went(d, os, d', os', h, x, k) && x < INODES && Scattered(d, os, d', h, x, data, |data|, r, k)
    ensures k == r == 2048 && d'.inodes[x].size == MAX_FILE_SIZE + 2048
  {
    hide Shows, Shaped, Laid, Solid, LowLands, Lands, BlockTour.WriteTour, BlockTour.Lacking, PtrAt, NextMissing,
         FileSteps.Kept;
    var n := |data|;
    ShownFacts(d, x, Ones(MAX_FILE_SIZE));
    assert data[..n] == data;
    SolidAll(data, n);
    FullLands(n);
    FullTour(d, x, n);
  }

  /** A file as large as one can be is overwritten from its start, with more bytes than the direct blocks hold. The call
      reports the 2048 that it laid there, and not 0 or -1, because the size has passed the tree; and it has added them
      to the size. */
  method OverfullWrite(data: seq<Byte>) returns (disk: RamDisk, fds: Table, fd: nat, r: int)
    requires NoZero(data) && 2048 < |data| <= MAX_FILE_SIZE
    ensures disk.Valid() && fds.Valid() && fd < FD_TABLE_SIZE && fds.files[fd].usable == 1
    ensures r == 2048 && disk.inodes[fds.files[fd].inode.value].size == 2048 + MAX_FILE_SIZE
  {
    hide AtEnd, FileWrite.Went, Shows, Missing, Needed, Join, Sound, RamDisk.View, Settled, Scattered, InDomain, Built;
    disk, fds, fd := FullFile();
    ghost var x := fds.files[fd].inode.value;
    BuiltFacts(disk, fds, fd, Ones(MAX_FILE_SIZE));
    assert Settled(disk.View(), x, Ones(MAX_FILE_SIZE), Needed(MAX_FILE_SIZE)) by { BuiltSettled(disk, fds, fd); }
    ShownFacts(disk.View(), x, Ones(MAX_FILE_SIZE));
    var at := RdLseek(disk, fds, fd, 0);
    ghost var d, os := disk.View(), fds.files[..];
    ghost var k, g;
    r, k, g := RdWrite(disk, fds, fd, data, |data|, [], Needed(0));
    FullOutcome(d, os, disk.View(), fds.files[..], fd, x, data, r, k);
    WentSlot(d, os, disk.View(), fds.files[..], fd, x, k);
    Create.ViewCounters(disk);
  }

  lemma BuiltSettled(disk: RamDisk, fds: Table, fd: nat)
    requires disk.Shape() && fds.Valid() && fd < FD_TABLE_SIZE && fds.files[fd].inode.Some?
             && Built(disk, fds, fd, Ones(MAX_FILE_SIZE))
    ensures Settled(disk.View(), fds.files[fd].inode.value, Ones(MAX_FILE_SIZE), Needed(MAX_FILE_SIZE))
  {
    hide Settled, Needed;
  }

  // ---------------------------------------------------------------- reading

  /** The 512 bytes of the example: 257 ones, then twos. */
  function OnesAndTwos(): (text: seq<Byte>)
    ensures |text| == 512
  {
    seq(512, i => if i <= 256 then 1 else 2)
  }

  lemma AstrayVisits()
    ensures Visits(1, 256, 512) == Span(1, 255) + [257]
  {
    hide Stretch;
    SecondBlockFrom1(512);
    NothingLeft(1, 256, 256, 512);
    var a := DirectPart(1, 256, 512);
    assert |a| == 256;
    assert a + [] + [] == a;
  }

  /** Of a file of 512 bytes, 256 are read from position 1 on. The call reports 256 bytes read, but the first byte of
      the second block is left out. */
  method ReadAstray() returns (disk: RamDisk, fds: Table, fd: nat, dst: array<Byte>, r: int)
    ensures disk.Valid() && fds.Valid() && fd < FD_TABLE_SIZE && fds.files[fd].usable == 1
            && dst.Length == FileRead.READ_BUFFER
    ensures Shows(disk.View(), fds.files[fd].inode.value, OnesAndTwos()) && fds.files[fd].cursor == 257
    ensures r == 256 && dst[..256] == ReadTape.Pick(OnesAndTwos(), Visits(1, 256, 512))
            && dst[..256] != OnesAndTwos()[1..257]
  {
    hide Visits, Shows, Sound, RamDisk.View, Settled, Needed, ReadDomain, Built, ReadTape.Delivered;
    var text := OnesAndTwos();
    disk, fds, fd := FileWith(text);
    dst := new Byte[FileRead.READ_BUFFER](_ => 0);
    var buf := new Byte[FileRead.READ_BUFFER](_ => 0);
    ghost var x := fds.files[fd].inode.value;
    BuiltFacts(disk, fds, fd, text);
    ShownFacts(disk.View(), x, text);
    var at := RdLseek(disk, fds, fd, 1);
    r := RdRead(disk, fds, fd, dst, 256, buf, text);
    AstrayVisits();
    assert Visits(1, 256, 512)[255] == 257;
    assert ReadTape.Pick(text, Visits(1, 256, 512))[255] == 2 && text[1..257][255] == 1;
  }

  // ---------------------------------------------------------------- pieces

  /** One byte, 256 and one: the second piece lands beyond a hole, and the third on its last byte. */
  lemma SkewedSizes()
    ensures FitsDirect(0, [1, 256, 1]) && !StraightButLast(0, [1, 256, 1])
  {
    hide Stretch, DirectLands;
    AstrayLands();
    assert InDirect(0, 1) by { OneLands(0); }
    assert InDirect(1, 256);
    assert InDirect(257, 1) by { OneLands(257); }
    assert [1, 256, 1][1..] == [256, 1] && [256, 1][1..] == [1] && [1][1..] == [];
  }

  lemma OneLands(c: nat)
    requires c < 512
    ensures |DirectLands(c, 1)| == 1
  {
    StretchFirst(c / BLOCK_SIZE, DIRECT, c % BLOCK_SIZE, 1, MAX_FILE_SIZE);
    hide Stretch;
  }

  /** Pieces of such sizes are written to a new file and read back: they do not come back in order. */
  method OutOfOrder(sizes: seq<nat>) returns (disk: RamDisk, fds: Table, fd: nat, dst: array<Byte>, r: int)
    requires FitsDirect(0, sizes) && !StraightButLast(0, sizes)
    ensures disk.Valid() && fds.Valid()
    ensures var pieces := WrongPieces(0, sizes);
            && Lengths(pieces) == sizes && StaysDirect(0, pieces)
            && 0 <= r <= |Flat(pieces)| <= dst.Length
            && dst[..r] == ReadBack(pieces) && dst[..r] != Flat(pieces)
  {
    hide FitsDirect, StraightButLast, StaysDirect, Flat, Lengths, WrongPieces, Built, Sound, RamDisk.View,
         ReadTape.First, ReadTape.NonZero, ImageOf;
    disk, fds, fd := NewFile();
    dst := new Byte[FileRead.READ_BUFFER](_ => 0);
    var buf := new Byte[FileRead.READ_BUFFER](_ => 0);
    assert Holds(Blank(), Ones(0));
    FallsApart(Blank(), 0, sizes);
    var pieces := WrongPieces(0, sizes);
    assert Ones(0) + Flat(pieces) == Flat(pieces);
    LengthsNone(pieces, sizes);
    r := WriteAndReadBack(disk, fds, fd, pieces, dst, buf);
  }

  lemma LengthsNone(pieces: seq<seq<Byte>>, sizes: seq<nat>)
    requires Lengths(pieces) == sizes && !StraightButLast(0, sizes)
    ensures pieces != []
  {
  }
}
