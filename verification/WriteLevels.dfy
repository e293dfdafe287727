/** The three levels of rd_write's block tree. */
module WriteLevels {
  import opened Options
  import Bitmap
  import opened Disk
  import opened FileData
  import opened FileSteps
  import opened WriteJob
  import opened RamDisks
  import opened FdTable
  import opened FileWrite
  import opened ReadPath
  import opened WritePath
  import opened BlockTour

  /** How one level of the tree ended: the request is complete, the disk is full, or the level is used up. */
  datatype Status = Done | NoSpace | More

  /** One level of a write: it started on disk d0 with w0 bytes done, at position o of leaf start, and has the
      leaves below end. good: this is where the text ends. (wq, wj) is some byte of the file that is being watched. */
  datatype Level = Level(good: bool, job: Job, d0: Disk, w0: nat, start: nat, end: nat, o: nat, wq: nat, wj: nat)

  /** Either the level starts on a block boundary, or the request ends in its first block, or that block is its last. */
  predicate OnBoundary(start: nat, end: nat, o: nat, left: nat) {
    o == 0 || o + left <= BLOCK_SIZE || start + 1 == end
  }

  predicate Plain(lv: Level) {
    && lv.o < BLOCK_SIZE && lv.wq < LEAVES && lv.wj < BLOCK_SIZE && lv.start <= lv.end <= LEAVES
    && lv.w0 < lv.job.n <= |lv.job.data|
    && (lv.good ==>
         && lv.start < lv.end && |lv.job.text| + lv.w0 == lv.start * BLOCK_SIZE + lv.o
         && NoZero(lv.job.data[..lv.job.n])
         && OnBoundary(lv.start, lv.end, lv.o, lv.job.n - lv.w0))
  }

  /** The watched byte is one that this level cannot reach. */
  predicate Spared(lv: Level)
  {
    || lv.wq < lv.start || lv.wq >= lv.end || lv.wj < lv.o
    || (lv.o + lv.job.n <= BLOCK_SIZE + lv.w0 && lv.wq != lv.start)
    || (lv.o == 0 && lv.wq * BLOCK_SIZE + lv.wj + lv.w0 >= lv.start * BLOCK_SIZE + lv.job.n)
  }

  /** The level is about to deal with leaf q, with w bytes done: the text, the blocks, and the watched byte. */
  ghost predicate LevelAt(lv: Level, d: Disk, ino: nat, w: nat, g: Frontier, q: nat)
    requires Plain(lv)
  {
    && lv.w0 <= w < lv.job.n && lv.start <= q <= lv.end
    && (lv.good ==>
         && OnTrack(d, ino, lv.job, w, g)
         && (q == lv.start ==> w == lv.w0)
         && (q > lv.start ==> |lv.job.text| + w == q * BLOCK_SIZE && (lv.o == 0 || q == lv.end)))
    && (NoZero(lv.job.data[..lv.job.n]) ==>
         && (lv.o == 0 ==> (q - lv.start) * BLOCK_SIZE == w - lv.w0)
         && (lv.o + lv.job.n <= BLOCK_SIZE + lv.w0 ==> q == lv.start)
         && (Spared(lv) ==> FByte(d, ino, lv.wq, lv.wj) == FByte(lv.d0, ino, lv.wq, lv.wj)))
  }

  /** What a level leaves behind. */
  ghost predicate LevelEnd(lv: Level, d: Disk, ino: nat, w: nat, g: Frontier, st: Status)
    requires Plain(lv)
  {
    && lv.w0 <= w <= lv.job.n && (st == Done <==> w == lv.job.n)
    && (st == NoSpace ==> d.freeBlocks == 0)
    && (lv.good ==>
         && OnTrack(d, ino, lv.job, w, g)
         && (st == NoSpace ==> g != Target(lv.job))
         && (st == More ==> |lv.job.text| + w == lv.end * BLOCK_SIZE))
    && (NoZero(lv.job.data[..lv.job.n]) && Spared(lv) ==>
       FByte(d, ino, lv.wq, lv.wj) == FByte(lv.d0, ino, lv.wq, lv.wj))
  }

  lemma NoZeroAt(data: seq<Byte>, n: nat, w: nat)
    requires w < n <= |data| && NoZero(data[..n])
    ensures data[w] != 0
  {
    assert data[..n][w] == data[w];
  }

  /** Leaf q of the level was filled from position o on, up to byte w' of the request. */
  lemma LevelStep(lv: Level, d: Disk, d': Disk, ino: nat, w: nat, w': nat, g: Frontier, q: nat)
    requires Plain(lv) && LevelAt(lv, d, ino, w, g, q) && q < lv.end
    requires w <= w' <= lv.job.n && LeafWritten(d, d', ino, q, lv.o, lv.job.data[w..w']) && NoZero(lv.job.data[w..w'])
    requires w' == lv.job.n || w' - w == BLOCK_SIZE - lv.o || lv.job.data[w'] == 0
    ensures w' < lv.job.n ==> LevelAt(lv, d', ino, w', g.(leaves := q + 1), q + 1)
    ensures w' == lv.job.n ==> LevelEnd(lv, d', ino, w', g.(leaves := q + 1), Done)
  {
    hide OnTrack, LeafWritten, FByte, NoZero;
    if NoZero(lv.job.data[..lv.job.n]) {
      NoZeroAt(lv.job.data, lv.job.n, w);
      if w' < lv.job.n { NoZeroAt(lv.job.data, lv.job.n, w'); }
      if Spared(lv) { WatchStep(lv, d, d', ino, w, w', g, q); }
    }
    if lv.good {
      TrackLeaf(d, d', ino, lv.job, w, w', g, q, lv.o);
    }
  }

  lemma WatchStep(lv: Level, d: Disk, d': Disk, ino: nat, w: nat, w': nat, g: Frontier, q: nat)
    requires Plain(lv) && LevelAt(lv, d, ino, w, g, q) && q < lv.end
    requires w <= w' <= lv.job.n && LeafWritten(d, d', ino, q, lv.o, lv.job.data[w..w'])
    requires NoZero(lv.job.data[..lv.job.n]) && Spared(lv)
    ensures FByte(d', ino, lv.wq, lv.wj) == FByte(lv.d0, ino, lv.wq, lv.wj)
  {
    hide OnTrack, FByte, NoZero;
  }

  /** The leaf could not be had. */
  lemma LevelStuck(lv: Level, d: Disk, ino: nat, w: nat, g: Frontier, q: nat)
    requires Plain(lv) && LevelAt(lv, d, ino, w, g, q) && q < lv.end
    requires d.freeBlocks == 0 && PtrAt(d, ino, LeafSlot(q)) == None
    ensures LevelEnd(lv, d, ino, w, g, NoSpace)
  {
    if lv.good { LeafMissing(d, ino, lv.job, w, g, q); }
    hide OnTrack, FByte, NoZero, PtrAt;
  }

  /** The index blocks above the leaves lo..hi are there. */
  ghost predicate Reachable(d: Disk, ino: nat, lo: nat, hi: nat)
    requires hi <= LEAVES
  {
    forall q :: lo <= q < hi ==> HasParent(d, ino, LeafSlot(q))
  }

  lemma ReachableStep(d: Disk, d': Disk, ino: nat, q: nat, o: nat, bytes: seq<Byte>, lo: nat, hi: nat)
    requires hi <= LEAVES && Reachable(d, ino, lo, hi) && LeafWritten(d, d', ino, q, o, bytes)
    ensures Reachable(d', ino, lo, hi)
  {
    hide PtrAt, FByte, LeafSlot;
  }

  /** The leaves lo..hi of a level, one after the other. */
  method WriteRun(disk: RamDisk, fds: Table, h: nat, ino: nat, lo: nat, hi: nat, o: nat, data: seq<Byte>, w0: nat,
          n: nat,
                  ghost lv: Level, ghost g0: Frontier)
    returns (w: nat, st: Status, ghost g: Frontier)
    requires disk.Valid() && Apart(disk, fds) && h < fds.files.Length
    requires ino < INODES && disk.View().inodes[ino].kind == Reg
    requires lo <= hi <= LEAVES && Reachable(disk.View(), ino, lo, hi)
    requires Plain(lv) && lv.job.data == data && lv.job.n == n && lv.o == o && hi <= lv.end
    requires w0 < n && LevelAt(lv, disk.View(), ino, w0, g0, lo) && o < BLOCK_SIZE && w0 <= Solid(data, n)
    modifies disk`freeBlocks, disk`owner, disk.bitmap, disk.inodes, disk.blocks, fds.files
    ensures disk.Valid() && w0 <= w
            && Went(old(disk.View()), old(fds.files[..]), disk.View(), fds.files[..], h, ino, w - w0)
    ensures st == More ==> LevelAt(lv, disk.View(), ino, w, g, hi)
    ensures st != More ==> LevelEnd(lv, disk.View(), ino, w, g, st)
    ensures forall t :: PtrAt(old(disk.View()), ino, t).Some? ==> PtrAt(disk.View(), ino, t).Some?
    ensures lv.good ==> g == g0.(leaves := g.leaves)
    ensures w <= Solid(data, n) && (st == Done <==> w == n)
    ensures Strewn(old(disk.View()), disk.View(), ino, Stretch(lo, hi, o, Solid(data, n) - w0, MAX_FILE_SIZE), data,
                w0, w, Solid(data, n), st == NoSpace)
    ensures Toured(old(disk.View()), disk.View(), ino,
                RunTour(lo, PassEnd(lo, hi, o, Solid(data, n) - w0, Solid(data, n) == n)), st == NoSpace)
  {
    hide Owned, PtrAt, LeafSlot, HasParent, Kept, Advanced, Went, Sound, LevelAt, LevelEnd, LeafWritten, FByte, NoZero,
         Bitmap.Used, Plus32, Laid, Strewn, SoFar, Stretch, Solid, Passing, Toured, RunTour, PassEnd;
    ghost var d, os := disk.View(), fds.files[..];
    ghost var m := Solid(data, n);
    ghost var ps: seq<nat> := [];
    w, g := w0, g0;
    var i := lo;
    WentNone(d, os, h, ino);
    LaidNone(d, d, ino);
    SoFarNone(d, d, ino, data, w0, lo, hi, o, m);
    PassingStart(d, ino, lo, hi, o, m - w0, m == n);
    while i < hi
      invariant lo <= i <= hi && w0 <= w < n
      invariant disk.Valid() && disk.View().inodes[ino].kind == Reg && Reachable(disk.View(), ino, lo, hi)
      invariant Went(d, os, disk.View(), fds.files[..], h, ino, w - w0)
      invariant LevelAt(lv, disk.View(), ino, w, g, i)
      invariant forall t :: PtrAt(d, ino, t).Some? ==> PtrAt(disk.View(), ino, t).Some?
      invariant lv.good ==> g == g0.(leaves := g.leaves)
      invariant w <= m && SoFar(d, disk.View(), ino, ps, data, w0, w, lo, i, hi, o, m)
      invariant Passing(d, disk.View(), ino, lo, i, hi, o, m - w0, m - w, m == n)
    {
      ghost var d1, os1 := disk.View(), fds.files[..];
      var ok, w1 := WriteLeaf(disk, fds, h, ino, i, o, data, w, n);
      WentTwice(d, os, d1, os1, disk.View(), fds.files[..], h, ino, w - w0, w1 - w);
      if !ok {
        LevelStuck(lv, disk.View(), ino, w, g, i);
        SoFarStuck(d, disk.View(), ino, ps, data, w0, w, lo, i, hi, o, m);
        PassingStuck(d, disk.View(), ino, lo, i, hi, o, m - w0, m - w, m == n);
        st := NoSpace;
        return;
      }
      LeafStrewn(d1, disk.View(), ino, data, n, w, w1, i, o);
      SoFarMore(d, d1, disk.View(), ino, ps, data, w0, w, w1, lo, i, i + 1, hi, o, m, false);
      PassingMore(d, d1, disk.View(), ino, lo, i, hi, o, m - w0, m - w, m == n, data[w..w1]);
      ps := ps + Stretch(i, i + 1, o, m - w, MAX_FILE_SIZE);
      LevelStep(lv, d1, disk.View(), ino, w, w1, g, i);
      ReachableStep(d1, disk.View(), ino, i, o, data[w..w1], lo, hi);
      LeafKind(d1, disk.View(), ino, i, o, data[w..w1]);
      w, g := w1, g.(leaves := i + 1);
      if w == n {
        SoFarDone(d, disk.View(), ino, ps, data, w0, w, lo, i + 1, hi, o, m);
        PassingDone(d, disk.View(), ino, lo, i + 1, hi, o, m - w0, m - w, m == n);
        st := Done;
        return;
      }
      i := i + 1;
    }
    SoFarDone(d, disk.View(), ino, ps, data, w0, w, lo, i, hi, o, m);
    PassingDone(d, disk.View(), ino, lo, i, hi, o, m - w0, m - w, m == n);
    st := More;
  }

  lemma LeafKind(d: Disk, d': Disk, ino: nat, q: nat, o: nat, bytes: seq<Byte>)
    requires LeafWritten(d, d', ino, q, o, bytes) && ino < INODES
    ensures d'.inodes[ino].kind == d.inodes[ino].kind
    ensures forall t :: PtrAt(d, ino, t).Some? ==> PtrAt(d', ino, t).Some?
  {
  }

  // ---------------------------------------------------------------- index blocks

  function Grown(d: Disk, ino: nat, s: Slot, g: Frontier): Frontier
    requires IsIndex(s)
  {
    if PtrAt(d, ino, s) == None then WithIndex(g, s) else g
  }

  method EnsureIndex(disk: RamDisk, ino: nat, s: Slot, ghost lv: Level, ghost w: nat, ghost g: Frontier, ghost q: nat)
    returns (ok: bool)
    requires disk.Valid()
    requires ino < INODES && disk.View().inodes[ino].kind == Reg && IsIndex(s) && ValidSlot(s)
             && HasParent(disk.View(), ino, s)
    requires Plain(lv) && LevelAt(lv, disk.View(), ino, w, g, q)
    requires lv.good && PtrAt(disk.View(), ino, s) == None ==> NeedsIndex(lv.job, g, w, s)
    modifies disk`freeBlocks, disk`owner, disk.bitmap, disk.inodes, disk.blocks
    ensures disk.Valid() && disk.View().inodes[ino].kind == Reg
    ensures Kept(old(disk.View()), disk.View(), ino)
    ensures disk.View().inodes[ino].size == old(disk.View()).inodes[ino].size
    ensures !ok ==> disk.View() == old(disk.View()) && LevelEnd(lv, disk.View(), ino, w, g, NoSpace)
    ensures ok ==>
            PtrAt(disk.View(), ino, s).Some?
            && LevelAt(lv, disk.View(), ino, w, Grown(old(disk.View()), ino, s, g), q)
    ensures forall t :: PtrAt(old(disk.View()), ino, t).Some? ==> PtrAt(disk.View(), ino, t).Some?
    ensures ok ==> forall t :: PtrAt(disk.View(), ino, t).Some? <==> t == s || PtrAt(old(disk.View()), ino, t).Some?
    ensures !ok ==> PtrAt(disk.View(), ino, s) == None
    ensures Laid(old(disk.View()), disk.View(), ino, [], [])
    ensures Toured(old(disk.View()), disk.View(), ino, [s], !ok)
  {
    hide Owned, PtrAt, HasParent, Attached, Taken, LevelAt, LevelEnd, FByte, NoZero, Bitmap.Used, Kept, CanAttach,
         WithIndex, Laid, Toured;
    ghost var d := disk.View();
    KeptSame(d, ino);
    LaidNone(d, d, ino);
    var p := disk.GetPtr(ino, s);
    ok := true;
    if p == None {
      var b;
      ok, b := disk.NewBlockAt(ino, s);
      if ok {
        IndexTaken(lv, d, ino, w, g, q, s, b);
      } else {
        IndexStuck(lv, d, ino, w, g, q, s);
        TouredStop(d, ino, s);
      }
    } else {
      TouredHere(d, d, ino, s);
    }
  }

  lemma IndexTaken(lv: Level, d: Disk, ino: nat, w: nat, g: Frontier, q: nat, s: Slot, b: nat)
    requires Sound(d) && CanAttach(d, ino, s, b) && IsIndex(s) && Plain(lv) && LevelAt(lv, d, ino, w, g, q)
    requires lv.good ==> NeedsIndex(lv.job, g, w, s)
    ensures HasParent(Taken(d, b), ino, s)
    ensures var d' := Attached(d, ino, s, b);
            && LevelAt(lv, d', ino, w, WithIndex(g, s), q) && Kept(d, d', ino)
            && d'.inodes[ino].kind == d.inodes[ino].kind && d'.inodes[ino].size == d.inodes[ino].size
            && PtrAt(d', ino, s).Some? && PtrAt(d, ino, s) == None
            && (forall t :: PtrAt(d', ino, t).Some? <==> t == s || PtrAt(d, ino, t).Some?)
            && Laid(d, d', ino, [], []) && Toured(d, d', ino, [s], false)
  {
    hide Owned, PtrAt, HasParent, Attached, Taken, FByte, NoZero, Kept, OnTrack, WithIndex, Toured;
    AttachedKept(d, ino, s, b);
    AttachedFrame(d, ino, s, b, ino);
    forall t ensures PtrAt(Attached(d, ino, s, b), ino, t) == if t == s then Some(b) else PtrAt(d, ino, t) {
      AttachedPtr(d, ino, s, b, ino, t);
    }
    forall r, j | 0 <= r < LEAVES && 0 <= j < BLOCK_SIZE
      ensures FByte(Attached(d, ino, s, b), ino, r, j) == FByte(d, ino, r, j)
    {
      AttachedFByte(d, ino, s, b, r, j);
    }
    LaidNone(d, Attached(d, ino, s, b), ino);
    TouredHere(d, Attached(d, ino, s, b), ino, s);
    hide Laid;
    if lv.good { TrackIndex(d, ino, lv.job, w, g, s, b); }
  }

  lemma IndexStuck(lv: Level, d: Disk, ino: nat, w: nat, g: Frontier, q: nat, s: Slot)
    requires Plain(lv) && LevelAt(lv, d, ino, w, g, q) && IsIndex(s) && ValidSlot(s)
    requires d.freeBlocks == 0 && PtrAt(d, ino, s) == None
    requires lv.good ==> NeedsIndex(lv.job, g, w, s)
    ensures LevelEnd(lv, d, ino, w, g, NoSpace)
  {
    if lv.good { IndexMissing(d, ino, lv.job, w, g, s); }
    hide OnTrack, FByte, NoZero, PtrAt;
  }

  // ---------------------------------------------------------------- the levels

  lemma LevelOver(lv: Level, d: Disk, ino: nat, w: nat, g: Frontier)
    requires Plain(lv) && LevelAt(lv, d, ino, w, g, lv.end)
    ensures LevelEnd(lv, d, ino, w, g, More)
  {
  }

  lemma IndexWent(d: Disk, os: seq<FileObj>, d': Disk, h: nat, ino: nat)
    requires ino < INODES && h < |os| && Kept(d, d', ino) && d'.inodes[ino].size == d.inodes[ino].size
    ensures Went(d, os, d', os, h, ino, 0)
  {
    hide Kept, Advanced, Plus32;
    AdvancedNone(os, h);
    PlusNone(d.inodes[ino].size);
  }

  /** The eight direct blocks, from leaf seg on. */
  method WriteDirect(disk: RamDisk, fds: Table, h: nat, ino: nat, seg: nat, o: nat, data: seq<Byte>, n: nat,
                     ghost lv: Level, ghost g0: Frontier)
    returns (w: nat, st: Status, ghost g: Frontier)
    requires disk.Valid() && Apart(disk, fds) && h < fds.files.Length
    requires ino < INODES && disk.View().inodes[ino].kind == Reg
    requires Plain(lv) && lv.job.data == data && lv.job.n == n && lv.o == o && lv.w0 == 0
    requires lv.end == DIRECT && lv.start == seg < DIRECT
    requires LevelAt(lv, disk.View(), ino, 0, g0, seg)
    modifies disk`freeBlocks, disk`owner, disk.bitmap, disk.inodes, disk.blocks, fds.files
    ensures disk.Valid() && Went(old(disk.View()), old(fds.files[..]), disk.View(), fds.files[..], h, ino, w)
    ensures LevelEnd(lv, disk.View(), ino, w, g, st)
    ensures w <= Solid(data, n)
    ensures Strewn(old(disk.View()), disk.View(), ino, Stretch(seg, DIRECT, o, Solid(data, n), MAX_FILE_SIZE), data,
                0, w, Solid(data, n), st == NoSpace)
    ensures Toured(old(disk.View()), disk.View(), ino,
                RunTour(seg, PassEnd(seg, DIRECT, o, Solid(data, n), Solid(data, n) == n)), st == NoSpace)
  {
    hide Owned, PtrAt, Kept, Advanced, Went, Sound, LevelAt, LevelEnd, FByte, NoZero, Bitmap.Used, Plus32, Strewn,
         Stretch, Solid, Toured, RunTour, PassEnd;
    assert Reachable(disk.View(), ino, seg, DIRECT);
    w, st, g := WriteRun(disk, fds, h, ino, seg, DIRECT, o, data, 0, n, lv, g0);
    if st == More { LevelOver(lv, disk.View(), ino, w, g); }
  }

  lemma SingleReachable(d: Disk, ino: nat)
    requires PtrAt(d, ino, SingleIx).Some?
    ensures Reachable(d, ino, DIRECT, FIRST_ROW)
  {
    hide PtrAt;
  }

  lemma SingleNeeded(lv: Level, d: Disk, ino: nat, w: nat, g: Frontier)
    requires Plain(lv) && LevelAt(lv, d, ino, w, g, lv.start) && lv.start >= DIRECT && lv.good
    ensures NeedsIndex(lv.job, g, w, SingleIx)
  {
  }

  lemma SingleMissing(d: Disk, ino: nat, seg: nat)
    requires PtrAt(d, ino, SingleIx) == None && DIRECT <= seg < FIRST_ROW
    ensures PtrAt(d, ino, LeafSlot(seg)) == None
  {
  }

  lemma RowMissing(d: Disk, ino: nat, k: nat, j: nat)
    requires PtrAt(d, ino, RowIx(k)) == None && k < PTRS && j < PTRS
    ensures PtrAt(d, ino, LeafSlot(FIRST_ROW + PTRS * k + j)) == None
  {
    RowLeaf(k, j);
  }

  lemma DoubleMissing(d: Disk, ino: nat, q: nat)
    requires PtrAt(d, ino, DoubleIx) == None && FIRST_ROW <= q < LEAVES
    ensures PtrAt(d, ino, LeafSlot(q)) == None
  {
  }

  lemma IndexFirst(s: Slot, lo: nat, e: nat)
    requires IsIndex(s) && lo <= e <= LEAVES
    ensures Disjoint([s], RunTour(lo, e))
  {
    hide LeafSlot;
    forall t | t in RunTour(lo, e) ensures t != s {
      var i :| 0 <= i < |RunTour(lo, e)| && RunTour(lo, e)[i] == t;
      assert t == LeafSlot(lo + i);
    }
  }

  /** The leaves of the single-indirect block, from leaf seg on. */
  method WriteSingle(disk: RamDisk, fds: Table, h: nat, ino: nat, seg: nat, o: nat, data: seq<Byte>, w0: nat, n: nat,
                     ghost lv: Level, ghost g0: Frontier)
    returns (w: nat, st: Status, ghost g: Frontier)
    requires disk.Valid() && Apart(disk, fds) && h < fds.files.Length
    requires ino < INODES && disk.View().inodes[ino].kind == Reg && DIRECT <= seg < FIRST_ROW
    requires Plain(lv) && lv.job.data == data && lv.job.n == n && lv.o == o && lv.w0 == w0
    requires lv.start == seg && lv.end == FIRST_ROW
    requires LevelAt(lv, disk.View(), ino, w0, g0, seg) && w0 <= Solid(data, n)
    modifies disk`freeBlocks, disk`owner, disk.bitmap, disk.inodes, disk.blocks, fds.files
    ensures disk.Valid() && w0 <= w
            && Went(old(disk.View()), old(fds.files[..]), disk.View(), fds.files[..], h, ino, w - w0)
    ensures LevelEnd(lv, disk.View(), ino, w, g, st)
    ensures w <= Solid(data, n)
    ensures Strewn(old(disk.View()), disk.View(), ino, Stretch(seg, FIRST_ROW, o, Solid(data, n) - w0, MAX_FILE_SIZE),
                data, w0, w, Solid(data, n), st == NoSpace)
    ensures Toured(old(disk.View()), disk.View(), ino,
                [SingleIx] + RunTour(seg, PassEnd(seg, FIRST_ROW, o, Solid(data, n) - w0, Solid(data, n) == n)),
                st == NoSpace)
  {
    hide Owned, PtrAt, Kept, Advanced, Went, Sound, LevelAt, LevelEnd, FByte, NoZero, Bitmap.Used, Plus32, Grown,
         Reachable, NeedsIndex, RamDisk.View, LeafSlot, Spared, Strewn, Laid, Stretch, Solid, Toured, RunTour, PassEnd;
    ghost var m := Solid(data, n);
    ghost var tour := RunTour(seg, PassEnd(seg, FIRST_ROW, o, m - w0, m == n));
    ghost var ps := Stretch(seg, FIRST_ROW, o, Solid(data, n) - w0, MAX_FILE_SIZE);
    ghost var d, os := disk.View(), fds.files[..];
    if lv.good { SingleNeeded(lv, d, ino, w0, g0); }
    w, g := w0, g0;
    var ok := EnsureIndex(disk, ino, SingleIx, lv, w0, g0, seg);
    IndexWent(d, os, disk.View(), h, ino);
    if !ok {
      SingleMissing(d, ino, seg);
      FirstMissing(d, ino, seg, FIRST_ROW, o, m - w0);
      NothingStrewn(d, ino, ps, data, w0, m);
      TouredLonger(d, d, ino, [SingleIx], tour);
      st := NoSpace;
      return;
    }
    ghost var d1 := disk.View();
    SingleReachable(d1, ino);
    assert Reachable(d1, ino, seg, FIRST_ROW) by { FewerReachable(d1, ino, DIRECT, seg, FIRST_ROW); }
    w, st, g := WriteRun(disk, fds, h, ino, seg, FIRST_ROW, o, data, w0, n, lv, Grown(d, ino, SingleIx, g0));
    WentTwice(d, os, d1, os, disk.View(), fds.files[..], h, ino, 0, w - w0);
    LaidFirst(d, d1, disk.View(), ino, ps, data, w0, w, m, st == NoSpace);
    IndexFirst(SingleIx, seg, PassEnd(seg, FIRST_ROW, o, m - w0, m == n));
    TouredTwice(d, d1, disk.View(), ino, [SingleIx], tour, st == NoSpace);
    if st == More { LevelOver(lv, disk.View(), ino, w, g); }
  }

  lemma FewerReachable(d: Disk, ino: nat, lo: nat, mid: nat, hi: nat)
    requires lo <= mid <= hi <= LEAVES && Reachable(d, ino, lo, hi)
    ensures Reachable(d, ino, mid, hi)
  {
  }

  lemma RowReachable(d: Disk, ino: nat, k: nat)
    requires k < PTRS && PtrAt(d, ino, RowIx(k)).Some?
    ensures Reachable(d, ino, FIRST_ROW + PTRS * k, FIRST_ROW + PTRS * (k + 1))
  {
    hide PtrAt;
    forall q | FIRST_ROW + PTRS * k <= q < FIRST_ROW + PTRS * (k + 1) ensures HasParent(d, ino, LeafSlot(q)) {
      RowLeaf(k, q - FIRST_ROW - PTRS * k);
    }
  }

  lemma DoubleNeeded(lv: Level, d: Disk, ino: nat, w: nat, g: Frontier)
    requires Plain(lv) && LevelAt(lv, d, ino, w, g, lv.start) && lv.start >= FIRST_ROW && lv.good
    ensures NeedsIndex(lv.job, g, w, DoubleIx)
  {
  }

  /** A row is first missed where the text has filled all rows before it. */
  lemma RowNeeded(lv: Level, d: Disk, ino: nat, w: nat, g: Frontier, k: nat)
    requires Plain(lv) && lv.good && lv.start == FIRST_ROW && k < PTRS
    requires LevelAt(lv, d, ino, w, g, FIRST_ROW + PTRS * k) && PtrAt(d, ino, RowIx(k)) == None
    ensures NeedsIndex(lv.job, g, w, RowIx(k))
  {
    hide PtrAt, FByte, NoZero, LeafSlot;
    ClosedUp(d, ino, g);
    assert |lv.job.text| + w >= (FIRST_ROW + PTRS * k) * BLOCK_SIZE;
    if k > 0 { assert g.leaves > FIRST_ROW + PTRS * (k - 1); }
  }

  /** One row of the double-indirect level, from its entry j on. */
  method WriteRow(disk: RamDisk, fds: Table, h: nat, ino: nat, k: nat, j: nat, o: nat, data: seq<Byte>, w0: nat, n: nat,
                  ghost lv: Level, ghost g0: Frontier)
    returns (w: nat, st: Status, ghost g: Frontier)
    requires disk.Valid() && Apart(disk, fds) && h < fds.files.Length
    requires ino < INODES && disk.View().inodes[ino].kind == Reg && k < PTRS && j < PTRS
    requires PtrAt(disk.View(), ino, DoubleIx).Some?
    requires Plain(lv) && lv.job.data == data && lv.job.n == n && lv.o == o && lv.end == LEAVES
    requires lv.good ==> lv.start == FIRST_ROW && j == 0
    requires w0 < n && LevelAt(lv, disk.View(), ino, w0, g0, FIRST_ROW + PTRS * k + j)
    requires o < BLOCK_SIZE && n <= |data| && w0 <= Solid(data, n)
    modifies disk`freeBlocks, disk`owner, disk.bitmap, disk.inodes, disk.blocks, fds.files
    ensures disk.Valid() && w0 <= w
            && Went(old(disk.View()), old(fds.files[..]), disk.View(), fds.files[..], h, ino, w - w0)
    ensures disk.View().inodes[ino].kind == Reg && PtrAt(disk.View(), ino, DoubleIx).Some?
    ensures st == More ==> LevelAt(lv, disk.View(), ino, w, g, FIRST_ROW + PTRS * (k + 1))
    ensures st != More ==> LevelEnd(lv, disk.View(), ino, w, g, st)
    ensures w <= Solid(data, n) && (st == Done <==> w == n)
    ensures Strewn(old(disk.View()), disk.View(), ino, RowRun(k, j, o, Solid(data, n) - w0), data, w0, w,
                Solid(data, n), st == NoSpace)
    ensures Toured(old(disk.View()), disk.View(), ino,
                RowTour(k, FIRST_ROW + PTRS * k + j,
                    PassEnd(FIRST_ROW + PTRS * k + j, RowEnd(k), o, Solid(data, n) - w0, Solid(data, n) == n)),
                st == NoSpace)
  {
    hide Owned, PtrAt, Kept, Advanced, Went, Sound, LevelAt, LevelEnd, FByte, NoZero, Bitmap.Used, Plus32, Grown,
         Reachable, NeedsIndex, Plain, RamDisk.View, LeafSlot, Strewn, Laid, Stretch, Solid, Toured, RunTour, PassEnd;
    ghost var m, from := Solid(data, n), FIRST_ROW + PTRS * k + j;
    ghost var tour := RunTour(from, PassEnd(from, RowEnd(k), o, m - w0, m == n));
    ghost var ps := RowRun(k, j, o, m - w0);
    ghost var d, os := disk.View(), fds.files[..];
    if lv.good && PtrAt(d, ino, RowIx(k)) == None { RowNeeded(lv, d, ino, w0, g0, k); }
    w, g := w0, g0;
    var ok := EnsureIndex(disk, ino, RowIx(k), lv, w0, g0, FIRST_ROW + PTRS * k + j);
    IndexWent(d, os, disk.View(), h, ino);
    if !ok {
      RowMissing(d, ino, k, j);
      FirstMissing(d, ino, from, RowEnd(k), o, m - w0);
      NothingStrewn(d, ino, ps, data, w0, m);
      TouredLonger(d, d, ino, [RowIx(k)], tour);
      st := NoSpace;
      return;
    }
    ghost var d1 := disk.View();
    RowReachable(d1, ino, k);
    FewerReachable(d1, ino, FIRST_ROW + PTRS * k, FIRST_ROW + PTRS * k + j, FIRST_ROW + PTRS * (k + 1));
    w, st, g := WriteRun(disk, fds, h, ino, FIRST_ROW + PTRS * k + j, FIRST_ROW + PTRS * (k + 1), o, data, w0, n, lv,
        Grown(d, ino, RowIx(k), g0));
    WentTwice(d, os, d1, os, disk.View(), fds.files[..], h, ino, 0, w - w0);
    WentKind(d, os, disk.View(), fds.files[..], h, ino, w - w0);
    LaidFirst(d, d1, disk.View(), ino, ps, data, w0, w, m, st == NoSpace);
    IndexFirst(RowIx(k), from, PassEnd(from, RowEnd(k), o, m - w0, m == n));
    TouredTwice(d, d1, disk.View(), ino, [RowIx(k)], tour, st == NoSpace);
  }

  /** The positions in one row. */
  function RowRun(k: nat, j: nat, o: nat, left: nat): seq<nat> {
    Stretch(FIRST_ROW + PTRS * k + j, FIRST_ROW + PTRS * (k + 1), o, left, MAX_FILE_SIZE)
  }

  lemma WentKind(d: Disk, os: seq<FileObj>, d': Disk, os': seq<FileObj>, h: nat, ino: nat, k: nat)
    requires Went(d, os, d', os', h, ino, k)
    ensures ino < INODES && d'.inodes[ino].kind == d.inodes[ino].kind && |os'| == |os|
  {
  }

  /** The positions and the slots of the rows passed so far. */
  datatype Rows = Rows(ps: seq<nat>, tour: seq<Slot>)

  /** The double-indirect level is about to deal with row i. */
  ghost predicate DoubleAt(d: Disk, d': Disk, ino: nat, p: Rows, data: seq<Byte>, w0: nat, w: nat, start: nat, i: nat,
          o: nat, m: nat, n: nat) {
    && w0 <= w <= m <= |data|
    && SoFar(d, d', ino, p.ps, data, w0, w, start, RowFrom(start, i), LEAVES, o, m)
    && RowsPassed(d, d', ino, p.tour, start, i, o, m - w0, m - w, m == n)
  }

  /** What the double-indirect level laid and took, with m solid bytes of n. */
  ghost predicate DoubleEnd(d: Disk, d': Disk, ino: nat, data: seq<Byte>, w0: nat, w: nat, start: nat, o: nat, m: nat,
          n: nat, stuck: bool) {
    && FIRST_ROW <= start < RowEnd(0) && o < BLOCK_SIZE && w0 <= m
    && Strewn(d, d', ino, Stretch(start, LEAVES, o, m - w0, MAX_FILE_SIZE), data, w0, w, m, stuck)
    && Toured(d, d', ino, [DoubleIx] + RowsTour(0, start, PassEnd(start, LEAVES, o, m - w0, m == n)), stuck)
  }

  lemma DoubleStuck(d: Disk, ino: nat, data: seq<Byte>, w0: nat, start: nat, o: nat, m: nat, n: nat)
    requires FIRST_ROW <= start < RowEnd(0) && o < BLOCK_SIZE && w0 <= m <= |data|
    requires PtrAt(d, ino, DoubleIx) == None && Toured(d, d, ino, [DoubleIx], true)
    ensures DoubleEnd(d, d, ino, data, w0, w0, start, o, m, n, true)
  {
    hide PtrAt, LeafSlot, Toured, Strewn, Stretch, RowsTour, PassEnd, NextMissing;
    DoubleMissing(d, ino, start);
    FirstMissing(d, ino, start, LEAVES, o, m - w0);
    NothingStrewn(d, ino, Stretch(start, LEAVES, o, m - w0, MAX_FILE_SIZE), data, w0, m);
    TouredLonger(d, d, ino, [DoubleIx], RowsTour(0, start, PassEnd(start, LEAVES, o, m - w0, m == n)));
  }

  lemma DoubleBegin(d: Disk, d': Disk, ino: nat, data: seq<Byte>, w0: nat, start: nat, o: nat, m: nat, n: nat)
    returns (p: Rows)
    requires FIRST_ROW <= start < RowEnd(0) && o < BLOCK_SIZE && w0 <= m <= |data|
    requires Laid(d, d', ino, [], []) && Toured(d, d', ino, [DoubleIx], false)
    ensures DoubleAt(d, d', ino, p, data, w0, w0, start, 0, o, m, n)
  {
    hide Toured, Laid, SoFar, RowsPassed;
    SoFarNone(d, d', ino, data, w0, start, LEAVES, o, m);
    var tour := RowsStart(d, d', ino, start, o, m - w0, m == n);
    p := Rows([], tour);
  }

  lemma DoubleMore(d: Disk, d1: Disk, d2: Disk, ino: nat, p: Rows, data: seq<Byte>, w0: nat, w: nat, w1: nat,
          start: nat, i: nat, o: nat, m: nat, n: nat, st: Status) returns (p': Rows)
    requires DoubleAt(d, d1, ino, p, data, w0, w, start, i, o, m, n) && i < PTRS && w < n && w1 <= m <= n
    requires FIRST_ROW <= start < RowEnd(0) && o < BLOCK_SIZE && (st == Done <==> w1 == n)
    requires var from := RowFrom(start, i);
             && Strewn(d1, d2, ino, Stretch(from, RowEnd(i), o, m - w, MAX_FILE_SIZE), data, w, w1, m, st == NoSpace)
             && Toured(d1, d2, ino, RowTour(i, from, PassEnd(from, RowEnd(i), o, m - w, m == n)), st == NoSpace)
    ensures st == More ==> DoubleAt(d, d2, ino, p', data, w0, w1, start, i + 1, o, m, n)
    ensures st != More ==> DoubleEnd(d, d2, ino, data, w0, w1, start, o, m, n, st == NoSpace)
  {
    hide Toured, Strewn, SoFar, RowsPassed, Stretch, RowTour, RowsTour, PassEnd;
    var from := RowFrom(start, i);
    SoFarMore(d, d1, d2, ino, p.ps, data, w0, w, w1, start, from, RowEnd(i), LEAVES, o, m, st == NoSpace);
    var tour := RowsMore(d, d1, d2, ino, p.tour, start, i, o, m - w0, m - w, m == n, st == NoSpace);
    p' := Rows(p.ps + Stretch(from, RowEnd(i), o, m - w, MAX_FILE_SIZE), tour);
    if st != NoSpace {
      StrewnAll(d1, d2, ino, Stretch(from, RowEnd(i), o, m - w, MAX_FILE_SIZE), data, w, w1, m);
      if st == Done {
        SoFarDone(d, d2, ino, p'.ps, data, w0, w1, start, RowEnd(i), LEAVES, o, m);
        if RowsPassed(d, d2, ino, tour, start, i + 1, o, m - w0, m - w1, m == n) {
          RowsDone(d, d2, ino, tour, start, i + 1, o, m - w0, m - w1, m == n);
        }
      }
    }
  }

  lemma DoubleOver(d: Disk, d': Disk, ino: nat, p: Rows, data: seq<Byte>, w0: nat, w: nat, start: nat, o: nat, m: nat,
          n: nat)
    requires DoubleAt(d, d', ino, p, data, w0, w, start, PTRS, o, m, n)
    requires FIRST_ROW <= start < RowEnd(0) && o < BLOCK_SIZE
    ensures DoubleEnd(d, d', ino, data, w0, w, start, o, m, n, false)
  {
    hide Toured, Strewn, SoFar, RowsPassed, Stretch, RowsTour, PassEnd;
    SoFarDone(d, d', ino, p.ps, data, w0, w, start, LEAVES, LEAVES, o, m);
    RowsDone(d, d', ino, p.tour, start, PTRS, o, m - w0, m - w, m == n);
  }

  /** The double-indirect level. The source divides seg by 64 once per row and always starts at row 0,
      so a start beyond leaf 72 lands on leaf 72 + (seg - 72) / 64. What is left of seg is below 64. */
  method WriteDouble(disk: RamDisk, fds: Table, h: nat, ino: nat, seg: nat, o: nat, data: seq<Byte>, w0: nat, n: nat,
                     ghost lv: Level, ghost g0: Frontier)
    returns (w: nat, st: Status, left: nat, ghost g: Frontier)
    requires disk.Valid() && Apart(disk, fds) && h < fds.files.Length
    requires ino < INODES && disk.View().inodes[ino].kind == Reg && FIRST_ROW <= seg < LEAVES
    requires Plain(lv) && lv.job.data == data && lv.job.n == n && lv.o == o && lv.w0 == w0
    requires lv.start == FIRST_ROW + (seg - FIRST_ROW) / PTRS && lv.end == LEAVES
    requires lv.good ==> seg == FIRST_ROW
    requires LevelAt(lv, disk.View(), ino, w0, g0, lv.start) && w0 <= Solid(data, n)
    modifies disk`freeBlocks, disk`owner, disk.bitmap, disk.inodes, disk.blocks, fds.files
    ensures disk.Valid() && w0 <= w
            && Went(old(disk.View()), old(fds.files[..]), disk.View(), fds.files[..], h, ino, w - w0)
    ensures LevelEnd(lv, disk.View(), ino, w, g, st)
    ensures st == More ==> left < PTRS
    ensures w <= Solid(data, n)
    ensures DoubleEnd(old(disk.View()), disk.View(), ino, data, w0, w, DoubleStart(seg), o, Solid(data, n), n,
                st == NoSpace)
  {
    hide Owned, PtrAt, Kept, Advanced, Went, Sound, LevelAt, LevelEnd, FByte, NoZero, Bitmap.Used, Plus32, Grown,
         Reachable, NeedsIndex, RamDisk.View, LeafSlot, Spared, Strewn, Laid, Stretch, Solid, Toured, RowTour, PassEnd,
         DoubleAt, DoubleEnd;
    ghost var m, start := Solid(data, n), lv.start;
    ghost var d, os := disk.View(), fds.files[..];
    if lv.good { DoubleNeeded(lv, d, ino, w0, g0); }
    w, left, g := w0, seg, g0;
    var ok := EnsureIndex(disk, ino, DoubleIx, lv, w0, g0, lv.start);
    IndexWent(d, os, disk.View(), h, ino);
    if !ok {
      DoubleStuck(d, ino, data, w0, start, o, m, n);
      st := NoSpace;
      return;
    }
    ghost var p := DoubleBegin(d, disk.View(), ino, data, w0, start, o, m, n);
    g := Grown(d, ino, DoubleIx, g0);
    var j: nat := seg - FIRST_ROW;
    var i: nat := 0;
    while i < PTRS
      invariant i <= PTRS && w0 <= w < n
      invariant if i == 0 then j == seg - FIRST_ROW else j < PTRS
      invariant disk.Valid() && disk.View().inodes[ino].kind == Reg && PtrAt(disk.View(), ino, DoubleIx).Some?
      invariant Went(d, os, disk.View(), fds.files[..], h, ino, w - w0)
      invariant LevelAt(lv, disk.View(), ino, w, g, RowFrom(start, i))
      invariant w <= m && DoubleAt(d, disk.View(), ino, p, data, w0, w, start, i, o, m, n)
    {
      j := j / PTRS;
      ghost var d1, os1 := disk.View(), fds.files[..];
      var w1;
      w1, st, g := WriteRow(disk, fds, h, ino, i, j, o, data, w, n, lv, g);
      WentTwice(d, os, d1, os1, disk.View(), fds.files[..], h, ino, w - w0, w1 - w);
      p := DoubleMore(d, d1, disk.View(), ino, p, data, w0, w, w1, start, i, o, m, n, st);
      w := w1;
      if st != More {
        return;
      }
      i := i + 1;
      assert w < n by { StillMore(lv, disk.View(), ino, w, g, FIRST_ROW + PTRS * i); }
    }
    st := More;
    left := j;
    DoubleOver(d, disk.View(), ino, p, data, w0, w, start, o, m, n);
    LevelOver(lv, disk.View(), ino, w, g);
  }

  lemma StillMore(lv: Level, d: Disk, ino: nat, w: nat, g: Frontier, q: nat)
    requires Plain(lv) && LevelAt(lv, d, ino, w, g, q)
    ensures w < lv.job.n
  {
  }
}
