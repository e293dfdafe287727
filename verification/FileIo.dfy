/** rd_write as a whole: when it appends, and what it does when it does not. */
module FileIo {
  import opened Options
  import Bitmap
  import opened Disk
  import opened FileData
  import FileSteps
  import opened WriteJob
  import opened RamDisks
  import opened FdTable
  import opened FileWrite
  import opened WriteLevels
  import ReadPath
  import opened WritePath
  import opened BlockTour

  /** The transfers of n bytes at the end of a file of the given size that the loops of rd_write place right:
      no zero byte, room in the tree, a start no later than the first double-indirect leaf, and either on
      a block boundary, or inside one block, or in the last block of its level. */
  predicate InDomain(size: nat, data: seq<Byte>, n: nat)
    requires n <= |data|
  {
    var seg, o := size / BLOCK_SIZE, size % BLOCK_SIZE;
    && NoZero(data[..n])
    && size + n <= MAX_FILE_SIZE
    && seg <= FIRST_ROW
    && (o == 0 || o + n <= BLOCK_SIZE || seg == DIRECT - 1 || seg == FIRST_ROW - 1)
  }

  /** A byte of the appended range that rd_write leaves alone when the transfer is not in its domain. */
  function Watched(size: nat, n: nat): nat
    requires n > 0
  {
    var seg, o := size / BLOCK_SIZE, size % BLOCK_SIZE;
    if seg > FIRST_ROW && o + n <= BLOCK_SIZE then size
    else if o != 0 then (seg + 1) * BLOCK_SIZE
    else size + n - 1
  }

  /** The watched byte is out of reach of all three levels. */
  predicate Misses(size: nat, n: nat, wq: nat, wj: nat) {
    var seg, o := size / BLOCK_SIZE, size % BLOCK_SIZE;
    if seg <= FIRST_ROW then wq == seg + 1 && wj < o && seg != DIRECT - 1 && seg != FIRST_ROW - 1
    else
      var start := FIRST_ROW + (seg - FIRST_ROW) / PTRS;
      || (o + n <= BLOCK_SIZE && wq != start)
      || wj < o
      || (o == 0 && wq * BLOCK_SIZE + wj >= start * BLOCK_SIZE + n)
  }

  lemma WatchedMisses(size: nat, data: seq<Byte>, n: nat)
    requires 0 < n <= |data| && !InDomain(size, data, n) && NoZero(data[..n]) && size + n <= MAX_FILE_SIZE
    ensures size <= Watched(size, n) < size + n
    ensures Watched(size, n) / BLOCK_SIZE < LEAVES
    ensures Misses(size, n, Watched(size, n) / BLOCK_SIZE, Watched(size, n) % BLOCK_SIZE)
  {
  }

  /** The byte at position p of an appended text is not zero, so a tree where it still is does not show that text. */
  lemma NotShown(d: Disk, d': Disk, ino: nat, text: seq<Byte>, data: seq<Byte>, n: nat, p: nat)
    requires Shows(d, ino, text) && n <= |data| && NoZero(data[..n]) && |text| <= p < |text| + n <= MAX_FILE_SIZE
    requires FByte(d', ino, p / BLOCK_SIZE, p % BLOCK_SIZE) == FByte(d, ino, p / BLOCK_SIZE, p % BLOCK_SIZE)
    ensures !Shows(d', ino, text + data[..n])
  {
    hide FByte, NoZero;
    var q, j := p / BLOCK_SIZE, p % BLOCK_SIZE;
    assert FByte(d, ino, q, j) == 0;
    NoZeroAt(data, n, p - |text|);
    assert (text + data[..n])[q * BLOCK_SIZE + j] == data[p - |text|];
  }

  lemma StartLevel(lv: Level, d: Disk, ino: nat, g: Frontier)
    requires Plain(lv) && lv.d0 == d && (lv.good ==> OnTrack(d, ino, lv.job, lv.w0, g))
    ensures LevelAt(lv, d, ino, lv.w0, g, lv.start)
  {
  }

  // ---------------------------------------------------------------- the three stages

  /** A call of rd_write on slot h, open on inode ino: the state it found and the job it has. good: the job is in
      rd_write's domain. watched: (wq, wj) is a byte that it misses. */
  datatype Call = Call(d: Disk, os: seq<FileObj>, h: nat, ino: nat, job: Job, good: bool, watched: bool, wq: nat,
      wj: nat)

  ghost predicate CallOk(c: Call) {
    && c.ino < INODES && c.h < |c.os| && 0 < c.job.n <= |c.job.data| && c.wq < LEAVES && c.wj < BLOCK_SIZE
    && (c.good || c.watched ==>
         c.d.inodes[c.ino].size == |c.job.text| && c.os[c.h].cursor == |c.job.text| && NoZero(c.job.data[..c.job.n]))
    && (c.good ==> InDomain(|c.job.text|, c.job.data, c.job.n))
    && (c.watched ==> Misses(|c.job.text|, c.job.n, c.wq, c.wj))
  }

  /** The request is not complete, and the levels up to leaf bound are behind it. */
  ghost predicate Between(c: Call, d: Disk, os: seq<FileObj>, w: nat, g: Frontier, bound: nat)
    requires CallOk(c)
  {
    && w < c.job.n
    && Went(c.d, c.os, d, os, c.h, c.ino, w)
    && (c.good ==>
         && OnTrack(d, c.ino, c.job, w, g)
         && (if |c.job.text| >= bound * BLOCK_SIZE then w == 0 else |c.job.text| + w == bound * BLOCK_SIZE))
    && (c.watched ==>
         && FByte(d, c.ino, c.wq, c.wj) == FByte(c.d, c.ino, c.wq, c.wj)
         && (|c.job.text| >= bound * BLOCK_SIZE ==> w == 0))
  }

  /** The request is complete, or the disk is full. */
  ghost predicate Ended(c: Call, d: Disk, os: seq<FileObj>, w: nat, g: Frontier, st: Status)
    requires CallOk(c)
  {
    && st != More && w <= c.job.n && (st == Done <==> w == c.job.n)
    && (st == NoSpace ==> d.freeBlocks == 0)
    && Went(c.d, c.os, d, os, c.h, c.ino, w)
    && (c.good ==> OnTrack(d, c.ino, c.job, w, g) && (st == NoSpace ==> g != Target(c.job)))
    && (c.watched ==> FByte(d, c.ino, c.wq, c.wj) == FByte(c.d, c.ino, c.wq, c.wj))
  }

  /** The level that stage seg, o of a call runs in. */
  function StageLevel(c: Call, d: Disk, w: nat, start: nat, end: nat, o: nat): Level {
    Level(c.good, c.job, d, w, start, end, o, c.wq, c.wj)
  }

  /** What the end of a level means for the call. */
  lemma StageOver(c: Call, d: Disk, os: seq<FileObj>, w: nat, g: Frontier, from: nat,
                  lv: Level, d1: Disk, os1: seq<FileObj>, w1: nat, g1: Frontier, st: Status)
    requires CallOk(c) && Between(c, d, os, w, g, from)
    requires Plain(lv) && lv == StageLevel(c, d, w, lv.start, lv.end, lv.o) && w <= w1
    requires LevelEnd(lv, d1, c.ino, w1, g1, st) && Went(d, os, d1, os1, c.h, c.ino, w1 - w)
    requires c.watched ==> Spared(lv) && |c.job.text| < lv.end * BLOCK_SIZE
    requires c.good ==> |c.job.text| < lv.end * BLOCK_SIZE
    ensures st == More ==> Between(c, d1, os1, w1, g1, lv.end)
    ensures st != More ==> Ended(c, d1, os1, w1, g1, st)
  {
    hide Went, OnTrack, NoZero, FByte, Spared, Misses, InDomain;
    WentTwice(c.d, c.os, d, os, d1, os1, c.h, c.ino, w, w1 - w);
  }

  lemma CallStart(c: Call, g: Frontier)
    requires CallOk(c)
    requires c.good ==> OnTrack(c.d, c.ino, c.job, 0, g)
    ensures Between(c, c.d, c.os, 0, g, 0)
  {
    WentNone(c.d, c.os, c.h, c.ino);
    hide Went, OnTrack, NoZero, FByte, Misses, InDomain;
  }

  /** A stage that is not entered. */
  lemma StageSkipped(c: Call, d: Disk, os: seq<FileObj>, w: nat, g: Frontier, from: nat, to: nat)
    requires CallOk(c) && Between(c, d, os, w, g, from) && from <= to
    requires c.good ==> |c.job.text| >= to * BLOCK_SIZE
    requires c.watched ==> |c.job.text| < to * BLOCK_SIZE || w == 0
    ensures Between(c, d, os, w, g, to)
  {
    hide Went, OnTrack, NoZero, FByte, Misses, InDomain;
  }

  /** The size and the cursor of the file in the middle of a call. */
  lemma SizeNow(c: Call, d: Disk, os: seq<FileObj>, w: nat)
    requires CallOk(c) && Went(c.d, c.os, d, os, c.h, c.ino, w)
    ensures d.inodes[c.ino].size == Plus32(c.d.inodes[c.ino].size, w)
    ensures c.good && w <= c.job.n ==> d.inodes[c.ino].size == |c.job.text| + w
    ensures c.watched && w == 0 ==> d.inodes[c.ino].size == |c.job.text|
  {
    hide FileSteps.Kept, Advanced, NoZero, Misses;
  }

  ghost predicate InCall(c: Call, disk: RamDisk, fds: Table)
    reads disk, disk.bitmap, disk.inodes, disk.blocks, fds.files
  {
    && disk.Valid() && Apart(disk, fds)
    && CallOk(c) && c.h < fds.files.Length && disk.View().inodes[c.ino].kind == Reg
  }

  lemma DirectSpared(c: Call, d: Disk, seg: nat, o: nat)
    requires CallOk(c) && seg < DIRECT && o < BLOCK_SIZE
    requires c.watched || c.good ==> |c.job.text| == seg * BLOCK_SIZE + o
    ensures Plain(StageLevel(c, d, 0, seg, DIRECT, o))
    ensures c.watched ==> Spared(StageLevel(c, d, 0, seg, DIRECT, o))
  {
    hide NoZero;
  }

  lemma SingleSpared(c: Call, d: Disk, os: seq<FileObj>, w: nat, g: Frontier, seg: nat, o: nat)
    requires CallOk(c) && Between(c, d, os, w, g, DIRECT) && DIRECT <= seg < FIRST_ROW && o < BLOCK_SIZE
    requires c.good || (c.watched && w == 0) ==> |c.job.text| + w == seg * BLOCK_SIZE + o
    ensures Plain(StageLevel(c, d, w, seg, FIRST_ROW, o))
    ensures c.watched ==> Spared(StageLevel(c, d, w, seg, FIRST_ROW, o))
    ensures c.good || c.watched ==> |c.job.text| < FIRST_ROW * BLOCK_SIZE
  {
    hide NoZero, Went, OnTrack, FByte;
  }

  lemma DoubleSpared(c: Call, d: Disk, os: seq<FileObj>, w: nat, g: Frontier, seg: nat, o: nat)
    requires CallOk(c) && Between(c, d, os, w, g, FIRST_ROW) && FIRST_ROW <= seg < LEAVES && o < BLOCK_SIZE
    requires c.good || (c.watched && w == 0) ==> |c.job.text| + w == seg * BLOCK_SIZE + o
    ensures Plain(StageLevel(c, d, w, FIRST_ROW + (seg - FIRST_ROW) / PTRS, LEAVES, o))
    ensures c.watched ==> Spared(StageLevel(c, d, w, FIRST_ROW + (seg - FIRST_ROW) / PTRS, LEAVES, o))
    ensures c.good ==> seg == FIRST_ROW
    ensures c.good || c.watched ==> |c.job.text| < LEAVES * BLOCK_SIZE
  {
    hide NoZero, Went, OnTrack, FByte;
  }

  /** The direct stage. */
  method StageDirect(disk: RamDisk, fds: Table, data: seq<Byte>, h: nat, ino: nat, n: nat, ghost c: Call,
          ghost g0: Frontier)
    returns (w: nat, st: Status, ghost g: Frontier)
    requires InCall(c, disk, fds) && c.h == h && c.ino == ino && c.job.data == data && c.job.n == n
    requires c.d == disk.View() && c.os == fds.files[..] && (c.good ==> OnTrack(c.d, ino, c.job, 0, g0))
    modifies disk`freeBlocks, disk`owner, disk.bitmap, disk.inodes, disk.blocks, fds.files
    ensures InCall(c, disk, fds)
    ensures st == More ==> Between(c, disk.View(), fds.files[..], w, g, DIRECT)
    ensures st != More ==> Ended(c, disk.View(), fds.files[..], w, g, st)
    ensures w <= Solid(data, n)
    ensures Strewn(c.d, disk.View(), ino, DirectLands(old(fds.files[h].cursor), Solid(data, n)), data, 0, w,
                Solid(data, n), st == NoSpace)
    ensures Toured(c.d, disk.View(), ino,
                DirectTour(old(fds.files[h].cursor), Solid(data, n), Solid(data, n) == n), st == NoSpace)
  {
    hide RamDisk.View, Went, OnTrack, LevelAt, LevelEnd, FByte, NoZero, Misses, InDomain, Spared, Plain, Between, Ended,
         Sound, Strewn, Laid, ReadPath.Stretch, Solid, Toured, RunTour, PassEnd;
    var seg, o := fds.files[h].cursor / BLOCK_SIZE, fds.files[h].cursor % BLOCK_SIZE;
    w, st, g := 0, More, g0;
    CallStart(c, g0);
    if seg < DIRECT {
      DirectSpared(c, c.d, seg, o);
      ghost var lv := StageLevel(c, c.d, 0, seg, DIRECT, o);
      StartLevel(lv, c.d, ino, g0);
      w, st, g := WriteDirect(disk, fds, h, ino, seg, o, data, n, lv, g0);
      WentKind(c.d, c.os, disk.View(), fds.files[..], h, ino, w);
      StageOver(c, c.d, c.os, 0, g0, 0, lv, disk.View(), fds.files[..], w, g, st);
    } else {
      StageSkipped(c, c.d, c.os, 0, g0, 0, DIRECT);
      LaidNone(c.d, c.d, ino);
      StrewnNone(c.d, c.d, ino, data, 0, Solid(data, n));
      TouredNone(c.d, c.d, ino);
    }
  }

  /** The single-indirect stage; it goes by the file's size. */
  method StageSingle(disk: RamDisk, fds: Table, data: seq<Byte>, h: nat, ino: nat, w0: nat, n: nat, ghost c: Call,
          ghost g0: Frontier)
    returns (w: nat, st: Status, ghost g: Frontier)
    requires InCall(c, disk, fds) && c.h == h && c.ino == ino && c.job.data == data && c.job.n == n
    requires Between(c, disk.View(), fds.files[..], w0, g0, DIRECT) && w0 <= Solid(data, n)
    modifies disk`freeBlocks, disk`owner, disk.bitmap, disk.inodes, disk.blocks, fds.files
    ensures InCall(c, disk, fds)
    ensures st == More ==> Between(c, disk.View(), fds.files[..], w, g, FIRST_ROW)
    ensures st != More ==> Ended(c, disk.View(), fds.files[..], w, g, st)
    ensures w <= Solid(data, n)
    ensures Strewn(old(disk.View()), disk.View(), ino, SingleLands(old(disk.inodes[ino].size), Solid(data, n) - w0),
                data, w0, w, Solid(data, n), st == NoSpace)
    ensures Toured(old(disk.View()), disk.View(), ino,
                SingleTour(old(disk.inodes[ino].size), Solid(data, n) - w0, Solid(data, n) == n), st == NoSpace)
  {
    hide Went, OnTrack, LevelAt, LevelEnd, FByte, NoZero, Misses, InDomain, Spared, Plain, Ended, Sound, Plus32,
         Bitmap.Used, Strewn, Laid, ReadPath.Stretch, Solid, Toured, RunTour, PassEnd, RowsTour;
    ghost var d, os := disk.View(), fds.files[..];
    SizeNow(c, d, os, w0);
    var seg, o := disk.inodes[ino].size / BLOCK_SIZE, disk.inodes[ino].size % BLOCK_SIZE;
    w, st, g := w0, More, g0;
    if DIRECT <= seg < FIRST_ROW {
      SingleSpared(c, d, os, w0, g0, seg, o);
      ghost var lv := StageLevel(c, d, w0, seg, FIRST_ROW, o);
      StartLevel(lv, d, ino, g0);
      w, st, g := WriteSingle(disk, fds, h, ino, seg, o, data, w0, n, lv, g0);
      WentKind(d, os, disk.View(), fds.files[..], h, ino, w - w0);
      StageOver(c, d, os, w0, g0, DIRECT, lv, disk.View(), fds.files[..], w, g, st);
    } else {
      StageSkipped(c, d, os, w0, g0, DIRECT, FIRST_ROW);
      LaidNone(d, d, ino);
      StrewnNone(d, d, ino, data, w0, Solid(data, n));
      TouredNone(d, d, ino);
    }
  }

  /** The double-indirect stage, and the value of seg that the last test of rd_write sees. */
  method StageDouble(disk: RamDisk, fds: Table, data: seq<Byte>, h: nat, ino: nat, w0: nat, n: nat, ghost c: Call,
          ghost g0: Frontier)
    returns (w: nat, st: Status, left: nat, ghost g: Frontier)
    requires InCall(c, disk, fds) && c.h == h && c.ino == ino && c.job.data == data && c.job.n == n
    requires Between(c, disk.View(), fds.files[..], w0, g0, FIRST_ROW) && w0 <= Solid(data, n)
    modifies disk`freeBlocks, disk`owner, disk.bitmap, disk.inodes, disk.blocks, fds.files
    ensures InCall(c, disk, fds)
    ensures st == More ==> Between(c, disk.View(), fds.files[..], w, g, LEAVES)
    ensures st != More ==> Ended(c, disk.View(), fds.files[..], w, g, st)
    ensures w <= Solid(data, n)
            && (st == More ==> (left >= LEAVES <==> old(disk.inodes[ino].size) / BLOCK_SIZE >= LEAVES))
    ensures Strewn(old(disk.View()), disk.View(), ino, DoubleLands(old(disk.inodes[ino].size), Solid(data, n) - w0),
                data, w0, w, Solid(data, n), st == NoSpace)
    ensures Toured(old(disk.View()), disk.View(), ino,
                DoubleTour(old(disk.inodes[ino].size), Solid(data, n) - w0, Solid(data, n) == n), st == NoSpace)
  {
    hide Went, OnTrack, LevelAt, LevelEnd, FByte, NoZero, Misses, InDomain, Spared, Plain, Ended, Sound, Plus32,
         Bitmap.Used, Strewn, Laid, ReadPath.Stretch, Solid, Toured, RunTour, PassEnd, RowsTour;
    ghost var d, os := disk.View(), fds.files[..];
    SizeNow(c, d, os, w0);
    var seg, o := disk.inodes[ino].size / BLOCK_SIZE, disk.inodes[ino].size % BLOCK_SIZE;
    w, st, left, g := w0, More, seg, g0;
    if FIRST_ROW <= seg < LEAVES {
      DoubleSpared(c, d, os, w0, g0, seg, o);
      ghost var lv := StageLevel(c, d, w0, FIRST_ROW + (seg - FIRST_ROW) / PTRS, LEAVES, o);
      StartLevel(lv, d, ino, g0);
      w, st, left, g := WriteDouble(disk, fds, h, ino, seg, o, data, w0, n, lv, g0);
      WentKind(d, os, disk.View(), fds.files[..], h, ino, w - w0);
      StageOver(c, d, os, w0, g0, FIRST_ROW, lv, disk.View(), fds.files[..], w, g, st);
    } else {
      GoodStaysInside(c, d, os, w0, g0, seg);
      StageSkipped(c, d, os, w0, g0, FIRST_ROW, LEAVES);
      LaidNone(d, d, ino);
      StrewnNone(d, d, ino, data, w0, Solid(data, n));
      TouredNone(d, d, ino);
    }
  }

  /** A job in the domain fits the tree. */
  lemma GoodStaysInside(c: Call, d: Disk, os: seq<FileObj>, w: nat, g: Frontier, seg: nat)
    requires CallOk(c) && Between(c, d, os, w, g, FIRST_ROW)
    requires c.good ==> seg == (|c.job.text| + w) / BLOCK_SIZE
    requires !(FIRST_ROW <= seg < LEAVES)
    ensures !c.good
  {
    hide Went, OnTrack, FByte, NoZero, Misses;
  }

  /** A file whose contents are text and whose cursor is at its end. */
  ghost predicate AtEnd(d: Disk, os: seq<FileObj>, h: nat, ino: nat, text: seq<Byte>, f: Frontier) {
    Settled(d, ino, text, f) && h < |os| && os[h].cursor == |text|
  }

  function MakeCall(d: Disk, os: seq<FileObj>, h: nat, ino: nat, text: seq<Byte>, f: Frontier, data: seq<Byte>,
          n: nat, atEnd: bool): Call
    requires 0 < n <= |data|
  {
    var good := atEnd && InDomain(|text|, data, n);
    var watched := atEnd && !good && NoZero(data[..n]) && |text| + n <= MAX_FILE_SIZE;
    var p := if watched then Watched(|text|, n) else 0;
    Call(d, os, h, ino, Job(text, f, data, n, d.freeBlocks + Blocks(f)), good, watched,
         if p / BLOCK_SIZE < LEAVES then p / BLOCK_SIZE else 0, p % BLOCK_SIZE)
  }

  lemma MakeCallOk(d: Disk, os: seq<FileObj>, h: nat, ino: nat, text: seq<Byte>, f: Frontier, data: seq<Byte>, n: nat,
          atEnd: bool)
    requires 0 < n <= |data| && ino < INODES && h < |os| && (atEnd ==> AtEnd(d, os, h, ino, text, f))
    ensures var c := MakeCall(d, os, h, ino, text, f, data, n, atEnd);
            && c.d == d && c.os == os && c.h == h && c.ino == ino && c.job.data == data && c.job.n == n
            && c.job.f == f && c.job.total == d.freeBlocks + Blocks(f)
            && CallOk(c) && (c.good ==> OnTrack(d, ino, c.job, 0, f))
            && (c.watched ==>
               c.wq * BLOCK_SIZE + c.wj == Watched(|text|, n)
               && |text| <= Watched(|text|, n) < |text| + n)
  {
    hide Shaped, FByte, NoZero, Misses, Watched;
    if atEnd && !InDomain(|text|, data, n) && NoZero(data[..n]) && |text| + n <= MAX_FILE_SIZE {
      WatchedMisses(|text|, data, n);
    }
    assert text + data[..0] == text;
  }

  /** The result of a call whose job was in the domain. */
  ghost predicate GoodResult(c: Call, d: Disk, os: seq<FileObj>, r: int, k: nat, g: Frontier)
    requires CallOk(c)
  {
    var price := Missing(c.job.f, EndSize(c.job));
    && k <= c.job.n
    && Settled(d, c.ino, c.job.text + c.job.data[..k], g)
    && |os| == |c.os| && os[c.h].cursor == |c.job.text| + k
    && (if c.d.freeBlocks >= price
        then r == c.job.n && k == c.job.n && d.freeBlocks == c.d.freeBlocks - price && g == Target(c.job)
        else r == -1 && k < c.job.n && d.freeBlocks == 0)
  }

  lemma GoodEnd(c: Call, d: Disk, os: seq<FileObj>, w: nat, g: Frontier, st: Status)
    requires CallOk(c) && Ended(c, d, os, w, g, st) && c.good
    requires c.job.total == c.d.freeBlocks + Blocks(c.job.f)
    ensures GoodResult(c, d, os, if st == Done then w else -1, w, g)
  {
    hide Settled, FileSteps.Kept, NoZero, FByte, Needed, Join;
    if st == Done { JobFinished(d, c.ino, c.job, g); } else { Unpayable(d, c.ino, c.job, w, g); }
  }

  /** Past the last level there is nothing left of a job in the domain. */
  lemma GoodNeverOverflows(c: Call, d: Disk, os: seq<FileObj>, w: nat, g: Frontier)
    requires CallOk(c) && Between(c, d, os, w, g, LEAVES)
    ensures !c.good
  {
    hide Went, OnTrack, FByte, NoZero, Misses;
  }

  /** Outside the domain the file does not end up showing the old text and the data behind it. */
  lemma BadNeverAppends(d: Disk, d': Disk, ino: nat, text: seq<Byte>, data: seq<Byte>, n: nat, p: nat, watched: bool)
    requires 0 < n <= |data| && Shows(d, ino, text) && !InDomain(|text|, data, n)
    requires watched == (NoZero(data[..n]) && |text| + n <= MAX_FILE_SIZE)
    requires watched ==>
             |text| <= p < |text| + n
             && FByte(d', ino, p / BLOCK_SIZE, p % BLOCK_SIZE) == FByte(d, ino, p / BLOCK_SIZE, p % BLOCK_SIZE)
    ensures !Shows(d', ino, text + data[..n])
  {
    if watched {
      NotShown(d, d', ino, text, data, n, p);
    } else if !NoZero(data[..n]) {
      var i :| 0 <= i < n && data[..n][i] == 0;
      assert (text + data[..n])[|text| + i] == 0;
    }
  }

  /** What rd_write does with the n bytes of data, whatever they are, wherever the cursor is, and whatever the file
      holds. The bytes before the first zero byte land at Lands, and the file asks for the slots of WriteTour, one after
      the other; those it lacked take a block each, and the result is -1 if and only if these are more than are counted
      free. Then as many bytes were laid as there are leaves for. Otherwise the result is the number of bytes if that is
      n or the size has passed the tree, and 0 if not. */
  ghost predicate Scattered(d: Disk, os: seq<FileObj>, d': Disk, h: nat, ino: nat, data: seq<Byte>, n: nat, r: int,
          k: nat)
    requires h < |os| && ino < INODES && n <= |data|
  {
    var m, c, size := Solid(data, n), os[h].cursor, d.inodes[ino].size;
    && k <= m && Strewn(d, d', ino, Lands(c, size, m), data, 0, k, m, r == -1)
    && Toured(d, d', ino, WriteTour(c, size, m, m == n), r == -1)
    && (r == -1 ==> k < n)
    && (r != -1 ==>
         r == if k == n || Plus32(size, |LowLands(c, size, m)|) / BLOCK_SIZE >= LEAVES then k else 0)
  }

  /** rd_write past its tests, on the file object h of the regular file ino.

      If the file shows text and the cursor is at its end, then the bytes are appended and their number returned
      exactly when the transfer is in the domain of the loops and the free blocks cover what the tree still misses. */
  method WriteFile(disk: RamDisk, fds: Table, h: nat, ino: nat, data: seq<Byte>, n: nat, ghost text: seq<Byte>,
          ghost f: Frontier)
    returns (r: int, ghost k: nat, ghost g: Frontier)
    requires disk.Valid() && Apart(disk, fds) && h < fds.files.Length
    requires ino < INODES && disk.View().inodes[ino].kind == Reg && 0 < n <= |data|
    modifies disk`freeBlocks, disk`owner, disk.bitmap, disk.inodes, disk.blocks, fds.files
    ensures disk.Valid() && Went(old(disk.View()), old(fds.files[..]), disk.View(), fds.files[..], h, ino, k)
    ensures Scattered(old(disk.View()), old(fds.files[..]), disk.View(), h, ino, data, n, r, k)
    ensures old(AtEnd(disk.View(), fds.files[..], h, ino, text, f)) ==>
            (r == n && Shows(disk.View(), ino, text + data[..n])
             <==> InDomain(|text|, data, n) && old(disk.freeBlocks) >= Missing(f, |text| + n))
    ensures old(AtEnd(disk.View(), fds.files[..], h, ino, text, f)) && InDomain(|text|, data, n) ==>
            k <= n && AtEnd(disk.View(), fds.files[..], h, ino, text + data[..k], g)
    ensures old(AtEnd(disk.View(), fds.files[..], h, ino, text, f)) && InDomain(|text|, data, n) ==>
            if old(disk.freeBlocks) >= Missing(f, |text| + n)
            then r == n && k == n && disk.freeBlocks == old(disk.freeBlocks) - Missing(f, |text| + n)
                && g == Join(f, Needed(|text| + n))
            else r == -1 && k < n && disk.freeBlocks == 0
  {
    hide Went, OnTrack, FByte, NoZero, Misses, InDomain, Ended, Between, Sound, Settled, Bitmap.Used, MakeCall,
         GoodResult, Watched, Missing, Shows, CallOk, Scattered;
    ghost var d, os := disk.View(), fds.files[..];
    ghost var atEnd := AtEnd(d, os, h, ino, text, f);
    ghost var c := MakeCall(d, os, h, ino, text, f, data, n, atEnd);
    MakeCallOk(d, os, h, ino, text, f, data, n, atEnd);
    r, k, g := RunStages(disk, fds, h, ino, data, n, c, f);
    CallMeans(d, os, h, ino, text, f, data, n, atEnd, disk.View(), fds.files[..], r, k, g);
  }

  /** The stages, one after the other, and the tests behind them. */
  method RunStages(disk: RamDisk, fds: Table, h: nat, ino: nat, data: seq<Byte>, n: nat, ghost c: Call,
          ghost f: Frontier)
    returns (r: int, ghost k: nat, ghost g: Frontier)
    requires InCall(c, disk, fds) && c.h == h && c.ino == ino && c.job.data == data && c.job.n == n
    requires c.d == disk.View() && c.os == fds.files[..] && (c.good ==> OnTrack(c.d, ino, c.job, 0, f))
    requires c.job.total == c.d.freeBlocks + Blocks(c.job.f)
    modifies disk`freeBlocks, disk`owner, disk.bitmap, disk.inodes, disk.blocks, fds.files
    ensures disk.Valid() && Went(c.d, c.os, disk.View(), fds.files[..], h, ino, k)
    ensures c.good ==> GoodResult(c, disk.View(), fds.files[..], r, k, g)
    ensures c.watched ==> FByte(disk.View(), ino, c.wq, c.wj) == FByte(c.d, ino, c.wq, c.wj)
    ensures Scattered(c.d, c.os, disk.View(), h, ino, data, n, r, k)
  {
    hide Went, OnTrack, FByte, NoZero, Misses, InDomain, Ended, Between, Sound, GoodResult, CallOk, Bitmap.Used,
         RamDisk.View, Strewn, Laid, ReadPath.Stretch, Solid, DirectLands, SingleLands, DoubleLands, LowLands, Lands,
         Plus32, Scattered, Toured, DirectTour, SingleTour, DoubleTour, WriteTour;
    CallFacts(disk, c, fds);
    ghost var cur, size := c.os[h].cursor, c.d.inodes[ino].size;
    var w, st;
    w, st, g := StageDirect(disk, fds, data, h, ino, n, c, f);
    ghost var d1, w1, st1 := disk.View(), w, st;
    if st == More {
      BetweenFacts(c, disk.View(), fds.files[..], w, g, DIRECT);
      SizeThen(disk, c, fds, w);
      w, st, g := StageSingle(disk, fds, data, h, ino, w, n, c, g);
    }
    ghost var d2, w2, st2 := disk.View(), w, st;
    var seg := 0;
    if st == More {
      BetweenFacts(c, disk.View(), fds.files[..], w, g, FIRST_ROW);
      SizeThen(disk, c, fds, w);
      w, st, seg, g := StageDouble(disk, fds, data, h, ino, w, n, c, g);
    }
    k := w;
    if st == More {
      GoodNeverOverflows(c, disk.View(), fds.files[..], w, g);
      BetweenFacts(c, disk.View(), fds.files[..], w, g, LEAVES);
      r := if seg >= LEAVES then w else 0;
    } else {
      r := if st == Done then w else -1;
      EndedFacts(c, disk.View(), fds.files[..], w, g, st);
      if c.good { GoodEnd(c, disk.View(), fds.files[..], w, g, st); }
    }
    StagesLand(c.d, d1, d2, disk.View(), ino, cur, size, data, n, w1, st1, w2, st2, w, st);
    StagesTour(c.d, d1, d2, disk.View(), ino, cur, size, Solid(data, n), n, w1, st1, w2, st2, st);
    StagesMean(c.d, c.os, disk.View(), h, ino, data, n, r, k, w2, st2, st, seg);
  }

  lemma CallFacts(disk: RamDisk, c: Call, fds: Table)
    requires disk.Shape() && CallOk(c) && c.d == disk.View() && c.os == fds.files[..]
    ensures c.ino < INODES && c.h < |c.os| && 0 < c.job.n <= |c.job.data|
    ensures disk.inodes[c.ino].size == c.d.inodes[c.ino].size && fds.files[c.h].cursor == c.os[c.h].cursor
  {
  }

  lemma SizeThen(disk: RamDisk, c: Call, fds: Table, w: nat)
    requires disk.Shape() && CallOk(c) && Went(c.d, c.os, disk.View(), fds.files[..], c.h, c.ino, w)
    ensures disk.inodes[c.ino].size == Plus32(c.d.inodes[c.ino].size, w)
  {
    hide FileSteps.Kept, Advanced, Plus32;
  }

  /** What the three stages laid, together. */
  lemma StagesLand(d: Disk, d1: Disk, d2: Disk, d3: Disk, ino: nat, c: nat, size: U32, data: seq<Byte>, n: nat, w1: nat,
          st1: Status, w2: nat, st2: Status, w: nat, st: Status)
    requires n <= |data| && w1 <= Solid(data, n) && w2 <= Solid(data, n) && w <= Solid(data, n)
    requires Strewn(d, d1, ino, DirectLands(c, Solid(data, n)), data, 0, w1, Solid(data, n), st1 == NoSpace)
    requires if st1 == More
             then Strewn(d1, d2, ino, SingleLands(Plus32(size, w1), Solid(data, n) - w1), data, w1, w2,
                 Solid(data, n), st2 == NoSpace)
             else d2 == d1 && w2 == w1 && st2 == st1
    requires if st2 == More
             then Strewn(d2, d3, ino, DoubleLands(Plus32(size, w2), Solid(data, n) - w2), data, w2, w, Solid(data, n),
                 st == NoSpace)
             else d3 == d2 && w == w2 && st == st2
    requires (st1 == Done ==> w1 == n) && (st2 == Done ==> w2 == n)
    ensures Strewn(d, d3, ino, Lands(c, size, Solid(data, n)), data, 0, w, Solid(data, n), st == NoSpace)
    ensures st1 != NoSpace ==> w1 == |DirectLands(c, Solid(data, n))|
    ensures st2 != NoSpace ==> w2 == |LowLands(c, size, Solid(data, n))|
  {
    hide ReadPath.Stretch, Strewn, Laid, Solid, Plus32, DirectLands, SingleLands, DoubleLands;
    var m := Solid(data, n);
    LandsApart(c, size, m);
    var ps := DirectLands(c, m);
    var qs, rs := SingleLands(Plus32(size, |ps|), m - |ps|), DoubleLands(Plus32(size, |LowLands(c, size, m)|),
        m - |LowLands(c, size, m)|);
    assert Lands(c, size, m) == ps + qs + rs && ps + (qs + rs) == ps + qs + rs;
    if st1 == NoSpace {
      StrewnLonger(d, d1, ino, ps, qs + rs, data, 0, w, m);
      return;
    }
    StrewnAll(d, d1, ino, ps, data, 0, w1, m);
    if st1 == Done {
      NoneLeft(Plus32(size, |ps|));
      assert ps + [] == ps;
      NoneLeft(Plus32(size, |ps + qs|));
      return;
    }
    StrewnTwice(d, d1, d2, ino, ps, qs, data, 0, w1, w2, m, st2 == NoSpace, 2048);
    if st2 == NoSpace {
      StrewnLonger(d, d2, ino, ps + qs, rs, data, 0, w, m);
      return;
    }
    StrewnAll(d, d2, ino, ps + qs, data, 0, w2, m);
    if st2 == Done {
      NoneLeft(Plus32(size, |ps + qs|));
      assert ps + qs + [] == ps + qs;
      return;
    }
    StrewnTwice(d, d2, d3, ino, ps + qs, rs, data, 0, w2, w, m, st == NoSpace, 18432);
  }

  /** The blocks that the three stages asked for, together. */
  lemma StagesTour(d: Disk, d1: Disk, d2: Disk, d3: Disk, ino: nat, c: nat, size: U32, m: nat, n: nat, w1: nat,
          st1: Status, w2: nat, st2: Status, st: Status)
    requires m <= n && w1 <= m && w2 <= m
    requires Toured(d, d1, ino, DirectTour(c, m, m == n), st1 == NoSpace)
    requires if st1 == More then Toured(d1, d2, ino, SingleTour(Plus32(size, w1), m - w1, m == n), st2 == NoSpace)
             else d2 == d1 && w2 == w1 && st2 == st1
    requires if st2 == More then Toured(d2, d3, ino, DoubleTour(Plus32(size, w2), m - w2, m == n), st == NoSpace)
             else d3 == d2 && st == st2
    requires (st1 == Done ==> w1 == n) && (st2 == Done ==> w2 == n)
    requires (st1 != NoSpace ==> w1 == |DirectLands(c, m)|) && (st2 != NoSpace ==> w2 == |LowLands(c, size, m)|)
    ensures Toured(d, d3, ino, WriteTour(c, size, m, m == n), st == NoSpace)
  {
    hide Toured, DirectTour, SingleTour, DoubleTour, Plus32, DirectLands, LowLands, Order;
    var s1, s2 := Plus32(size, |DirectLands(c, m)|), Plus32(size, |LowLands(c, size, m)|);
    LandsApart(c, size, m);
    var low := |LowLands(c, size, m)|;
    var a := DirectTour(c, m, m == n);
    var b, e := SingleTour(s1, m - |DirectLands(c, m)|, m == n), DoubleTour(s2, m - low, m == n);
    DirectAmid(c, m, m == n);
    SingleAmid(s1, m - |DirectLands(c, m)|, m == n);
    DoubleAmid(s2, m - low, m == n);
    AmidDisjoint(a, b, 0, 3 * DIRECT, 3 * FIRST_ROW);
    AmidJoin(a, b, 0, 3 * DIRECT, 3 * FIRST_ROW);
    AmidDisjoint(a + b, e, 0, 3 * FIRST_ROW, 3 * LEAVES + 1);
    assert a + (b + e) == a + b + e;
    if st1 == NoSpace {
      TouredLonger(d, d1, ino, a, b + e);
    } else if st1 == Done {
      NoTour(s1);
      NoTour(s2);
      assert a + [] + [] == a;
    } else {
      TouredTwice(d, d1, d2, ino, a, b, st2 == NoSpace);
      if st2 == NoSpace {
        TouredLonger(d, d2, ino, a + b, e);
      } else if st2 == Done {
        NoTour(s2);
        assert a + b + [] == a + b;
      } else {
        TouredTwice(d, d2, d3, ino, a + b, e, st == NoSpace);
      }
    }
  }

  lemma NoTour(size: nat)
    ensures SingleTour(size, 0, true) == [] && DoubleTour(size, 0, true) == []
  {
  }

  lemma NoneLeft(size: nat)
    ensures SingleLands(size, 0) == [] && DoubleLands(size, 0) == []
  {
    hide ReadPath.Stretch;
    var seg, o := size / BLOCK_SIZE, size % BLOCK_SIZE;
    NothingToStretch(seg, FIRST_ROW, o, 0, MAX_FILE_SIZE);
    if FIRST_ROW <= seg < LEAVES {
      NothingToStretch(FIRST_ROW + (seg - FIRST_ROW) / PTRS, LEAVES, o, 0, MAX_FILE_SIZE);
    }
  }

  /** What the result tells. */
  lemma StagesMean(d: Disk, os: seq<FileObj>, d': Disk, h: nat, ino: nat, data: seq<Byte>, n: nat, r: int, k: nat,
          w2: nat, st2: Status, st: Status, seg: nat)
    requires h < |os| && ino < INODES && 0 < n <= |data| && k <= Solid(data, n)
    requires Strewn(d, d', ino, Lands(os[h].cursor, d.inodes[ino].size, Solid(data, n)), data, 0, k, Solid(data, n),
                 st == NoSpace)
    requires Toured(d, d', ino, WriteTour(os[h].cursor, d.inodes[ino].size, Solid(data, n), Solid(data, n) == n),
                 st == NoSpace)
    requires st == Done <==> k == n
    requires st == More ==>
             && st2 == More && w2 == |LowLands(os[h].cursor, d.inodes[ino].size, Solid(data, n))|
             && (seg >= LEAVES <==> Plus32(d.inodes[ino].size, w2) / BLOCK_SIZE >= LEAVES)
    requires r == match st case Done => k case NoSpace => -1 case More => if seg >= LEAVES then k else 0
    ensures Scattered(d, os, d', h, ino, data, n, r, k)
  {
    hide Strewn, Solid, Lands, LowLands, Plus32, Toured, WriteTour;
  }

  lemma BetweenFacts(c: Call, d: Disk, os: seq<FileObj>, w: nat, g: Frontier, bound: nat)
    requires CallOk(c) && Between(c, d, os, w, g, bound)
    ensures Went(c.d, c.os, d, os, c.h, c.ino, w) && w < c.job.n
    ensures c.watched ==> FByte(d, c.ino, c.wq, c.wj) == FByte(c.d, c.ino, c.wq, c.wj)
  {
  }

  lemma EndedFacts(c: Call, d: Disk, os: seq<FileObj>, w: nat, g: Frontier, st: Status)
    requires CallOk(c) && Ended(c, d, os, w, g, st)
    ensures Went(c.d, c.os, d, os, c.h, c.ino, w) && st != More && (st == Done <==> w == c.job.n)
    ensures c.watched ==> FByte(d, c.ino, c.wq, c.wj) == FByte(c.d, c.ino, c.wq, c.wj)
  {
  }

  /** From the call's bookkeeping to the contract of rd_write. */
  lemma CallMeans(d: Disk, os: seq<FileObj>, h: nat, ino: nat, text: seq<Byte>, f: Frontier, data: seq<Byte>, n: nat,
          atEnd: bool,
                  d': Disk, os': seq<FileObj>, r: int, k: nat, g: Frontier)
    requires 0 < n <= |data| && ino < INODES && h < |os| && atEnd == AtEnd(d, os, h, ino, text, f)
    requires CallOk(MakeCall(d, os, h, ino, text, f, data, n, atEnd))
    requires var c := MakeCall(d, os, h, ino, text, f, data, n, atEnd);
             && (c.good ==> GoodResult(c, d', os', r, k, g))
             && (c.watched ==> FByte(d', ino, c.wq, c.wj) == FByte(d, ino, c.wq, c.wj))
    ensures atEnd ==>
            (r == n && Shows(d', ino, text + data[..n]) <==>
            InDomain(|text|, data, n)
            && d.freeBlocks >= Missing(f, |text| + n))
    ensures atEnd && InDomain(|text|, data, n) ==> k <= n && AtEnd(d', os', h, ino, text + data[..k], g)
    ensures atEnd && InDomain(|text|, data, n) ==>
            if d.freeBlocks >= Missing(f, |text| + n)
            then r == n && k == n && d'.freeBlocks == d.freeBlocks - Missing(f, |text| + n)
                && g == Join(f, Needed(|text| + n))
            else r == -1 && k < n && d'.freeBlocks == 0
  {
    hide Misses, InDomain, FByte, NoZero, Shaped, Missing, Shows;
    var c := MakeCall(d, os, h, ino, text, f, data, n, atEnd);
    if atEnd && !c.good {
      MakeCallOk(d, os, h, ino, text, f, data, n, atEnd);
      BadNeverAppends(d, d', ino, text, data, n, Watched(|text|, n), c.watched);
    }
  }

  // ---------------------------------------------------------------- the exact footprint

  /** A tree that had only what m bytes need has, after growing to n bytes, only what n bytes need. */
  lemma FootprintGrows(m: nat, n: nat)
    requires m <= n
    ensures Join(Needed(m), Needed(n)) == Needed(n)
  {
  }

  /** n bytes take ceil(n / 256) data blocks, one index block beyond 2048 bytes, and beyond 18432 bytes the
      double-indirect block and one row for each 16384 bytes begun. */
  lemma FootprintIs(n: nat)
    ensures Blocks(Needed(n)) == (n + 255) / 256 + (if n > 2048 then 1 else 0)
                                 + (if n > 18432 then 1 + (n - 18432 + 16383) / 16384 else 0)
  {
  }

  /** What a write costs a file that was built by successful writes: the growth of the footprint. */
  lemma PriceOfGrowth(m: nat, n: nat)
    requires m <= n
    ensures Missing(Needed(m), n) == Blocks(Needed(n)) - Blocks(Needed(m))
  {
    FootprintGrows(m, n);
  }

  /** A regular file without blocks is empty text, with nothing allocated. */
  lemma EmptyFile(d: Disk, ino: nat)
    requires ino < INODES && d.inodes[ino].kind == Reg && d.inodes[ino].size == 0
    requires forall t :: PtrAt(d, ino, t) == None
    ensures Settled(d, ino, [], Needed(0))
  {
  }

  const RD: nat := 292   // 0444
  const RW: nat := 420   // 0644
  const WR: nat := 164   // 0244

  /** Every open file object refers to an inode in use. */
  ghost predicate OpenFilesExist(disk: RamDisk, fds: Table)
    reads disk, disk.inodes, fds.files
    requires disk.Shape()
  {
    forall i :: 0 <= i < fds.files.Length && fds.files[i].inode.Some? && fds.files[i].inode.value < INODES ==>
      disk.inodes[fds.files[i].inode.value].kind != NoFile
  }

  /** rd_write accepts descriptor fd. */
  predicate CanWrite(disk: RamDisk, fds: Table, fd: int)
    reads disk, disk.inodes, fds.files
    requires disk.Shape() && fds.Valid()
  {
    && 0 <= fd < FD_TABLE_SIZE && fds.files[fd].usable == 1
    && var n := disk.inodes[fds.files[fd].inode.value];
       n.kind != Dir && n.access != RD && fds.files[fd].status != RD
  }

  /** The caller has the bytes it announces, or bytes up to a zero byte if it announces none. */
  predicate Announced(data: seq<Byte>, num: int) {
    num <= |data| && (num <= 0 ==> 0 in data)
  }

  /** The count the loops end at. One that is not positive is never reached, and no loop passes a zero byte: the loops
      then run as for a count just behind the first zero byte. */
  function EndCount(data: seq<Byte>, num: int): (n: nat)
    requires Announced(data, num)
    ensures 0 < n <= |data| && (num > 0 ==> n == num) && (num <= 0 ==> !NoZero(data[..n]))
  {
    if num > 0 then num
    else
      var z := ZeroAt(data);
      assert data[..z + 1][z] == 0;
      z + 1
  }

  /** rd_write. */
  method RdWrite(disk: RamDisk, fds: Table, fd: int, data: seq<Byte>, num: int, ghost text: seq<Byte>,
          ghost f: Frontier)
    returns (r: int, ghost k: nat, ghost g: Frontier)
    requires disk.Valid() && fds.Valid() && Apart(disk, fds)
    requires CanWrite(disk, fds, fd) ==> disk.inodes[fds.files[fd].inode.value].kind != NoFile && Announced(data, num)
    modifies disk`freeBlocks, disk`owner, disk.bitmap, disk.inodes, disk.blocks, fds.files
    ensures disk.Valid() && fds.Valid() && (old(OpenFilesExist(disk, fds)) ==> OpenFilesExist(disk, fds))
    ensures old(!CanWrite(disk, fds, fd)) ==>
            r == -1 && disk.View() == old(disk.View())
            && fds.files[..] == old(fds.files[..])
    ensures old(CanWrite(disk, fds, fd)) ==>
            var ino, n := old(fds.files[fd].inode.value), EndCount(data, num);
            && Went(old(disk.View()), old(fds.files[..]), disk.View(), fds.files[..], fd, ino, k)
            && Scattered(old(disk.View()), old(fds.files[..]), disk.View(), fd, ino, data, n, r, k)
            && (old(AtEnd(disk.View(), fds.files[..], fd, ino, text, f)) ==>
                 && (r == n && Shows(disk.View(), ino, text + data[..n])
                     <==> InDomain(|text|, data, n) && old(disk.freeBlocks) >= Missing(f, |text| + n))
                 && (InDomain(|text|, data, n) ==>
                      && k <= n && AtEnd(disk.View(), fds.files[..], fd, ino, text + data[..k], g)
                      && if old(disk.freeBlocks) >= Missing(f, |text| + n)
                         then r == n && k == n && disk.freeBlocks == old(disk.freeBlocks) - Missing(f, |text| + n)
                              && g == Join(f, Needed(|text| + n))
                         else r == -1 && k < n && disk.freeBlocks == 0))
  {
    hide AtEnd, Went, Shows, InDomain, Missing, Needed, Join, Sound, Bitmap.Used, EndCount, Announced, ZeroAt,
         Scattered;
    k, g := 0, f;
    var h := fds.Lookup(fd);
    if h == None {
      return -1, k, g;
    }
    var o := fds.files[h.value];
    assert SlotOk(o, h.value);
    var ino := o.inode.value;
    if disk.inodes[ino].kind == Dir {
      return -1, k, g;
    }
    if disk.inodes[ino].access == RD || o.status == RD {
      return -1, k, g;
    }
    ghost var d, os := disk.View(), fds.files[..];
    r, k, g := WriteFile(disk, fds, h.value, ino, data, EndCount(data, num), text, f);
    WentKeepsTable(d, os, disk.View(), fds.files[..], h.value, ino, k);
  }

  lemma WentKeepsTable(d: Disk, os: seq<FileObj>, d': Disk, os': seq<FileObj>, h: nat, ino: nat, k: nat)
    requires Went(d, os, d', os', h, ino, k)
    ensures |os'| == |os|
    ensures forall i :: 0 <= i < |os| ==> os'[i].(cursor := 0) == os[i].(cursor := 0)
    ensures forall i :: 0 <= i < INODES ==> d'.inodes[i].kind == d.inodes[i].kind
  {
    hide Plus32;
  }
}
