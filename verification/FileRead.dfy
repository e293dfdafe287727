/** The loops of rd_read. */
module FileRead {
  import opened Options
  import opened Bitmap
  import opened Disk
  import opened FileData
  import opened RamDisks
  import opened FdTable
  import opened FileWrite
  import opened ReadTape
  import opened BlockTour
  import opened WriteLevels

  const READ_BUFFER: nat := 1048576   // 64 * 64 * 256

  /** size - cursor in unsigned arithmetic. */
  function Minus32(x: U32, y: U32): U32 { (x - y) % 0x1_0000_0000 }

  // ---------------------------------------------------------------- one block

  /** The first bytes of bs that a loop takes which counts up to n from got. With n == 0 the count never hits: the test
      follows the increment. */
  function Cut(bs: seq<Byte>, n: nat, got: nat): seq<Byte> {
    if n == 0 then bs else First(bs, if got < n then n - got else 0)
  }

  /** The innermost loop: the non-zero bytes of a block from position o on, in order, until n are there. */
  method ScanBlock(fds: Table, h: nat, buf: array<Byte>, bytes: Bytes256, o: nat, got0: nat, n: nat) returns (got: nat)
    requires h < fds.files.Length && fds.files as object != buf && o < BLOCK_SIZE && (got0 < n || n == 0)
    requires if n == 0 then got0 + BLOCK_SIZE <= buf.Length else n <= buf.Length
    modifies fds.files, buf
    ensures got0 <= got <= buf.Length && buf[..got] == old(buf[..got0]) + Cut(NonZero(bytes[o..]), n, got0)
    ensures fds.files[..] == Advanced(old(fds.files[..]), h, got - got0)
    ensures got - got0 <= BLOCK_SIZE && (n > 0 ==> got <= n)
  {
    hide Advanced, NonZero, Cut, NoZero, Plus32;
    ghost var os, pre, goal := fds.files[..], buf[..got0], Cut(NonZero(bytes[o..]), n, got0);
    ghost var part: seq<Byte> := [];
    got := got0;
    AdvancedNone(os, h);
    for j := o to BLOCK_SIZE
      invariant got0 <= got <= got0 + (j - o) && got <= buf.Length && (n > 0 ==> got < n)
      invariant buf[..got] == pre + part && goal == part + Cut(NonZero(bytes[j..]), n, got)
      invariant fds.files[..] == Advanced(os, h, got - got0)
    {
      NonZeroNext(bytes, j);
      if bytes[j] != 0 {
        AdvancedTwice(os, h, got - got0, 1);
        CutNext(part, bytes[j], NonZero(bytes[j + 1..]), n, got);
        PartMore(pre, part, bytes[j]);
        TakeByte(fds, h, buf, got, bytes[j]);
        got, part := got + 1, part + [bytes[j]];
        if got == n {
          return;
        }
      }
    }
    NothingMore(bytes[BLOCK_SIZE..], n, got);
  }

  lemma PartMore(pre: seq<Byte>, part: seq<Byte>, b: Byte)
    ensures pre + part + [b] == pre + (part + [b])
  {
  }

  lemma NothingMore(bs: seq<Byte>, n: nat, got: nat)
    requires bs == []
    ensures Cut(NonZero(bs), n, got) == []
  {
  }

  lemma TakenPart(buf: array<Byte>, pre: seq<Byte>, part: seq<Byte>)
    requires |pre + part| <= buf.Length && buf[..|pre + part|] == pre + part
    ensures buf[..|pre|] == pre && buf[|pre|..|pre + part|] == part
  {
    var all := buf[..|pre + part|];
    assert buf[..|pre|] == all[..|pre|] && buf[|pre|..|pre + part|] == all[|pre|..];
  }

  /** One byte goes to the buffer, and the cursor moves on. */
  method TakeByte(fds: Table, h: nat, buf: array<Byte>, at: nat, b: Byte)
    requires h < fds.files.Length && fds.files as object != buf && at < buf.Length
    modifies fds.files, buf
    ensures buf[..at + 1] == old(buf[..at]) + [b]
    ensures fds.files[..] == Advanced(old(fds.files[..]), h, 1)
  {
    buf[at] := b;
    fds.files[h] := fds.files[h].(cursor := Plus32(fds.files[h].cursor, 1));
  }

  lemma NonZeroNext(bytes: seq<Byte>, j: nat)
    requires j < |bytes|
    ensures bytes[j] == 0 ==> NonZero(bytes[j..]) == NonZero(bytes[j + 1..])
    ensures bytes[j] != 0 ==> NonZero(bytes[j..]) == [bytes[j]] + NonZero(bytes[j + 1..])
  {
    assert bytes[j..][1..] == bytes[j + 1..];
  }

  lemma CutNext(part: seq<Byte>, b: Byte, rest: seq<Byte>, n: nat, got: nat)
    requires n == 0 || got < n
    ensures part + Cut([b] + rest, n, got) == part + [b] + Cut(rest, n, got + 1)
    ensures got + 1 == n ==> part + Cut([b] + rest, n, got) == part + [b]
  {
    assert Cut([b] + rest, n, got) == [b] + Cut(rest, n, got + 1);
  }

  // ---------------------------------------------------------------- one level

  lemma CutNone(n: nat, got: nat)
    ensures Cut([], n, got) == []
  {
  }

  lemma CutEnough(bs: seq<Byte>, n: nat)
    requires n > 0
    ensures Cut(bs, n, n) == []
  {
  }

  /** What a loop takes of two pieces, one after the other. */
  lemma CutSplit(a: seq<Byte>, b: seq<Byte>, n: nat, got: nat)
    requires n == 0 || got < n
    ensures Cut(a + b, n, got) == Cut(a, n, got) + Cut(b, n, got + |Cut(a, n, got)|)
  {
    if n > 0 { FirstSplit(a, b, n - got); }
  }

  /** The loop goes on from a to b, after a leaf. */
  lemma CutOn(all: seq<Byte>, bs: seq<Byte>, a: seq<Byte>, b: seq<Byte>, n: nat, got0: nat, got: nat)
    requires (n == 0 || got < n) && Cut(all, n, got0) == bs + Cut(a + b, n, got)
    ensures var more := Cut(a, n, got);
            && Cut(all, n, got0) == bs + more + Cut(b, n, got + |more|)
            && (n > 0 && got + |more| == n ==> Cut(all, n, got0) == bs + more)
            && (n == 0 ==> more == a)
  {
    hide Cut;
    CutSplit(a, b, n, got);
    CutNone(n, got);
    var more := Cut(a, n, got);
    assert bs + (more + Cut(b, n, got + |more|)) == bs + more + Cut(b, n, got + |more|);
    if n > 0 && got + |more| == n { CutEnough(b, n); }
    if n == 0 { CutAll(a, got); }
  }

  lemma CutAll(bs: seq<Byte>, got: nat)
    ensures Cut(bs, 0, got) == bs
  {
  }

  lemma NonZeroLength(bs: seq<Byte>)
    ensures |NonZero(bs)| <= |bs|
  {
  }

  /** The buffer and the disk are different memory. */
  ghost predicate BufferApart(disk: RamDisk, fds: Table, buf: array<Byte>)
    reads disk
  {
    && Apart(disk, fds) && fds.files as object != buf
    && buf as object != disk.bitmap && buf as object != disk.inodes && buf as object != disk.blocks
  }

  /** An inode of no kind has no leaves, so one that is no directory and has some is a regular file. */
  lemma FileLeaf(d: Disk, ino: nat, s: Slot, b: nat)
    requires Owned(d) && ino < INODES && d.inodes[ino].kind != Dir && ValidSlot(s) && !IsIndex(s)
             && PtrAt(d, ino, s) == Some(b)
    ensures IsLeaf(d, ino, s, b)
  {
    hide PtrAt;
    assert RoleOk(d, b, d.owner[b]);
  }

  lemma TapeOf(d: Disk, ino: nat, q: nat, o: nat)
    requires q < LEAVES && o < BLOCK_SIZE
    ensures PtrAt(d, ino, LeafSlot(q)) == None ==> NonZero(LeafTape(d, ino, q, o)) == []
    ensures PtrAt(d, ino, LeafSlot(q)).Some? ==>
            LeafTape(d, ino, q, o) == DataOf(BlockAt(d, PtrAt(d, ino, LeafSlot(q)).value))[o..]
  {
    hide PtrAt, LeafSlot, NonZero;
    NonZeroNone(LeafTape(d, ino, q, o));
  }

  /** One leaf of a read. */
  method ReadLeaf(disk: RamDisk, fds: Table, h: nat, ino: nat, buf: array<Byte>, q: nat, o: nat, got0: nat, n: nat)
    returns (got: nat)
    requires disk.Valid() && BufferApart(disk, fds, buf) && h < fds.files.Length
    requires ino < INODES && disk.View().inodes[ino].kind != Dir
    requires q < LEAVES && HasParent(disk.View(), ino, LeafSlot(q)) && o < BLOCK_SIZE
    requires got0 < n <= buf.Length || (n == 0 && got0 + BLOCK_SIZE <= buf.Length)
    modifies fds.files, buf
    ensures disk.Valid() && disk.View() == old(disk.View()) && got0 <= got <= buf.Length && (n > 0 ==> got <= n)
            && got - got0 <= BLOCK_SIZE
    ensures buf[..got0] == old(buf[..got0])
    ensures fds.files[..] == Advanced(old(fds.files[..]), h, got - got0)
    ensures buf[got0..got] == Cut(NonZero(LeafTape(disk.View(), ino, q, o)), n, got0)
  {
    hide PtrAt, LeafSlot, NonZero, LeafTape, Owned, HasParent, Advanced, Used;
    got := got0;
    ghost var bs := LeafTape(disk.View(), ino, q, o);
    TapeOf(disk.View(), ino, q, o);
    NonZeroLength(bs);
    CutNone(n, got0);
    var ptr := disk.GetPtr(ino, LeafSlot(q));
    if ptr == None {
      AdvancedNone(fds.files[..], h);
    } else {
      FileLeaf(disk.View(), ino, LeafSlot(q), ptr.value);
      LeafOwner(disk.View(), ino, LeafSlot(q), ptr.value);
      ghost var pre := buf[..got0];
      got := ScanBlock(fds, h, buf, DataOf(disk.blocks[ptr.value]), o, got0, n);
      TakenPart(buf, pre, Cut(NonZero(bs), n, got0));
    }
  }

  /** The leaves lo..hi of a level, one after the other, until n bytes are there. With n == 0 a first leaf that has
      nothing ends it. */
  method ReadRun(disk: RamDisk, fds: Table, h: nat, ino: nat, buf: array<Byte>, lo: nat, hi: nat, o: nat, got0: nat,
          n: nat)
    returns (got: nat)
    requires disk.Valid() && BufferApart(disk, fds, buf) && h < fds.files.Length
    requires ino < INODES && disk.View().inodes[ino].kind != Dir
    requires lo < hi <= LEAVES && Reachable(disk.View(), ino, lo, hi) && o < BLOCK_SIZE
    requires got0 < n <= buf.Length || (n == 0 && hi <= DIRECT && got0 == 0 && 2048 <= buf.Length)
    modifies fds.files, buf
    ensures disk.Valid() && disk.View() == old(disk.View()) && got0 <= got <= buf.Length && (n > 0 ==> got <= n)
    ensures fds.files[..] == Advanced(old(fds.files[..]), h, got - got0)
    ensures buf[..got0] == old(buf[..got0])
    ensures buf[got0..got] == if n == 0 && NonZero(LeafTape(disk.View(), ino, lo, o)) == [] then []
            else Cut(Heard(disk.View(), ino, lo, hi, o), n, got0)
  {
    hide PtrAt, LeafSlot, NonZero, LeafTape, Heard, Cut, Owned, HasParent, Advanced, Used, Sound, RamDisk.View;
    ghost var d, os, all := disk.View(), fds.files[..], Heard(disk.View(), ino, lo, hi, o);
    got := got0;
    AdvancedNone(os, h);
    assert buf[got0..got] == [];
    var i := lo;
    while i < hi
      invariant lo <= i <= hi && got0 <= got <= buf.Length && (n > 0 ==> got < n)
      invariant n == 0 ==> got <= BLOCK_SIZE * (i - lo)
      invariant n == 0 && i > lo ==> NonZero(LeafTape(d, ino, lo, o)) != [] && got > 0
      invariant disk.Valid() && disk.View() == d && buf[..got0] == old(buf[..got0])
      invariant fds.files[..] == Advanced(os, h, got - got0)
      invariant Cut(all, n, got0) == buf[got0..got] + Cut(Heard(d, ino, i, hi, o), n, got)
    {
      ghost var pre, was := buf[..got], got;
      HeardStep(d, ino, i, hi, o);
      got := ReadLeaf(disk, fds, h, ino, buf, i, o, got, n);
      AdvancedTwice(os, h, was - got0, got - was);
      assert buf[..got0] == pre[..got0] && buf[got0..got] == pre[got0..] + buf[was..got];
      CutOn(all, pre[got0..], NonZero(LeafTape(d, ino, i, o)), Heard(d, ino, i + 1, hi, o), n, got0, was);
      if got == n {
        return;
      }
      i := i + 1;
    }
    HeardStep(d, ino, i, hi, o);
    CutNone(n, got);
  }

  // ---------------------------------------------------------------- the levels

  lemma SingleSilent(d: Disk, ino: nat, seg: nat, o: nat)
    requires PtrAt(d, ino, SingleIx) == None && DIRECT <= seg < FIRST_ROW && o < BLOCK_SIZE
    ensures Heard(d, ino, seg, FIRST_ROW, o) == []
  {
    hide Heard, PtrAt, LeafSlot;
    forall q | seg <= q < FIRST_ROW ensures PtrAt(d, ino, LeafSlot(q)) == None { SingleMissing(d, ino, q); }
    Silent(d, ino, seg, FIRST_ROW, o);
  }

  /** The single-indirect level. */
  method ReadSingle(disk: RamDisk, fds: Table, h: nat, ino: nat, buf: array<Byte>, seg: nat, o: nat, got0: nat, n: nat)
    returns (got: nat)
    requires disk.Valid() && BufferApart(disk, fds, buf) && h < fds.files.Length
    requires ino < INODES && disk.View().inodes[ino].kind != Dir
    requires DIRECT <= seg < FIRST_ROW && o < BLOCK_SIZE && got0 < n <= buf.Length
    modifies fds.files, buf
    ensures disk.Valid() && disk.View() == old(disk.View()) && got0 <= got <= n
    ensures fds.files[..] == Advanced(old(fds.files[..]), h, got - got0)
    ensures buf[..got0] == old(buf[..got0])
    ensures buf[got0..got] == First(Heard(disk.View(), ino, seg, FIRST_ROW, o), n - got0)
  {
    hide PtrAt, Owned, Advanced, Used, Sound, Reachable, Heard, NonZero, LeafTape;
    var p := disk.GetPtr(ino, SingleIx);
    if p == None {
      got := got0;
      AdvancedNone(fds.files[..], h);
      SingleSilent(disk.View(), ino, seg, o);
      return;
    }
    SingleReachable(disk.View(), ino);
    FewerReachable(disk.View(), ino, DIRECT, seg, FIRST_ROW);
    got := ReadRun(disk, fds, h, ino, buf, seg, FIRST_ROW, o, got0, n);
  }

  lemma RowSilent(d: Disk, ino: nat, k: nat, o: nat)
    requires PtrAt(d, ino, RowIx(k)) == None && k < PTRS && o < BLOCK_SIZE
    ensures Heard(d, ino, FIRST_ROW + PTRS * k, RowEnd(k), o) == []
  {
    hide Heard, PtrAt, LeafSlot;
    forall q | FIRST_ROW + PTRS * k <= q < RowEnd(k) ensures PtrAt(d, ino, LeafSlot(q)) == None {
      RowMissing(d, ino, k, q - FIRST_ROW - PTRS * k);
    }
    Silent(d, ino, FIRST_ROW + PTRS * k, RowEnd(k), o);
  }

  lemma NoRows(d: Disk, ino: nat)
    requires PtrAt(d, ino, DoubleIx) == None
    ensures FirstRow(d, ino, 0) == PTRS
  {
    forall k | 0 <= k < PTRS ensures PtrAt(d, ino, RowIx(k)) == None {}
  }

  /** Where the double-indirect level starts to deliver. */
  function HeardFrom(d: Disk, ino: nat, seg: nat): nat
    requires seg >= FIRST_ROW
  {
    FIRST_ROW + PTRS * FirstRow(d, ino, 0) + (seg - FIRST_ROW) / PTRS
  }

  /** The level is about to deal with row i, with entry j still to be divided. */
  ghost predicate RowAt(d: Disk, ino: nat, bs: seq<Byte>, i: nat, j: nat, seg: nat, o: nat, left: nat)
    requires FIRST_ROW <= seg < LEAVES && o < BLOCK_SIZE
  {
    && j < PTRS * PTRS && |bs| < left
    && if i <= FirstRow(d, ino, 0) then bs == [] && j == seg - FIRST_ROW
       else j < PTRS && First(Heard(d, ino, HeardFrom(d, ino, seg), LEAVES, o), left)
                        == bs + First(Heard(d, ino, FIRST_ROW + PTRS * i, LEAVES, o), left - |bs|)
  }

  lemma RowSkipped(d: Disk, ino: nat, bs: seq<Byte>, i: nat, j: nat, seg: nat, o: nat, left: nat)
    requires FIRST_ROW <= seg < LEAVES && o < BLOCK_SIZE && i < PTRS && RowAt(d, ino, bs, i, j, seg, o, left)
    requires PtrAt(d, ino, RowIx(i)) == None
    ensures RowAt(d, ino, bs, i + 1, j, seg, o, left)
  {
    hide Heard, PtrAt, FirstRow;
    if i > FirstRow(d, ino, 0) {
      RowSilent(d, ino, i, o);
      HeardSplit(d, ino, FIRST_ROW + PTRS * i, RowEnd(i), LEAVES, o);
    }
  }

  /** What is left when row i, which is there, comes next. */
  lemma RowEntered(d: Disk, ino: nat, bs: seq<Byte>, i: nat, j: nat, seg: nat, o: nat, left: nat)
    requires FIRST_ROW <= seg < LEAVES && o < BLOCK_SIZE && i < PTRS && RowAt(d, ino, bs, i, j, seg, o, left)
    requires PtrAt(d, ino, RowIx(i)).Some?
    ensures |bs| < left && j / PTRS < PTRS && i >= FirstRow(d, ino, 0)
    ensures First(Heard(d, ino, HeardFrom(d, ino, seg), LEAVES, o), left)
            == bs + First(Heard(d, ino, FIRST_ROW + PTRS * i + j / PTRS, LEAVES, o), left - |bs|)
  {
    hide Heard, PtrAt, FirstRow, First;
  }

  /** Row i was read from entry j / 64 on. */
  lemma RowRead(d: Disk, ino: nat, bs: seq<Byte>, more: seq<Byte>, i: nat, j: nat, seg: nat, o: nat, left: nat)
    requires FIRST_ROW <= seg < LEAVES && o < BLOCK_SIZE && i < PTRS && RowAt(d, ino, bs, i, j, seg, o, left)
    requires PtrAt(d, ino, RowIx(i)).Some? && |bs| < left && j / PTRS < PTRS
    requires more == First(Heard(d, ino, FIRST_ROW + PTRS * i + j / PTRS, RowEnd(i), o), left - |bs|)
    ensures |bs + more| < left ==> RowAt(d, ino, bs + more, i + 1, j / PTRS, seg, o, left)
    ensures |bs + more| >= left ==> bs + more == First(Heard(d, ino, HeardFrom(d, ino, seg), LEAVES, o), left)
  {
    hide Heard, PtrAt, FirstRow, First, HeardFrom;
    var from, all := FIRST_ROW + PTRS * i + j / PTRS, First(Heard(d, ino, HeardFrom(d, ino, seg), LEAVES, o), left);
    RowEntered(d, ino, bs, i, j, seg, o, left);
    HeardSplit(d, ino, from, RowEnd(i), LEAVES, o);
    var row, rest := Heard(d, ino, from, RowEnd(i), o), Heard(d, ino, RowEnd(i), LEAVES, o);
    FirstTwice(row, rest, left - |bs|);
    assert bs + (more + First(rest, left - |bs| - |more|)) == bs + more + First(rest, left - |bs| - |more|);
    FirstLength(rest, 0);
  }

  lemma FirstTwice(a: seq<Byte>, b: seq<Byte>, n: nat)
    ensures |First(a, n)| <= n && First(a + b, n) == First(a, n) + First(b, n - |First(a, n)|)
  {
    FirstSplit(a, b, n);
  }

  lemma FirstLength(bs: seq<Byte>, n: nat)
    ensures |First(bs, n)| <= n
  {
  }

  lemma RowsOut(d: Disk, ino: nat, bs: seq<Byte>, j: nat, seg: nat, o: nat, left: nat)
    requires FIRST_ROW <= seg < LEAVES && o < BLOCK_SIZE && RowAt(d, ino, bs, PTRS, j, seg, o, left)
    ensures bs == First(Heard(d, ino, HeardFrom(d, ino, seg), LEAVES, o), left)
  {
    hide Heard, FirstRow;
    HeardStep(d, ino, LEAVES, LEAVES, o);
    HeardStep(d, ino, HeardFrom(d, ino, seg), LEAVES, o);
  }

  /** The double-indirect level. The source divides the entry by 64 once per row that is there. */
  method ReadDouble(disk: RamDisk, fds: Table, h: nat, ino: nat, buf: array<Byte>, seg: nat, o: nat, got0: nat, n: nat)
    returns (got: nat)
    requires disk.Valid() && BufferApart(disk, fds, buf) && h < fds.files.Length
    requires ino < INODES && disk.View().inodes[ino].kind != Dir
    requires FIRST_ROW <= seg < LEAVES && o < BLOCK_SIZE && got0 < n <= buf.Length
    modifies fds.files, buf
    ensures disk.Valid() && disk.View() == old(disk.View()) && got0 <= got <= n
    ensures fds.files[..] == Advanced(old(fds.files[..]), h, got - got0)
    ensures buf[..got0] == old(buf[..got0])
    ensures buf[got0..got] == First(Heard(disk.View(), ino, HeardFrom(disk.View(), ino, seg), LEAVES, o), n - got0)
  {
    hide PtrAt, Owned, Advanced, Used, Sound, Reachable, Heard, NonZero, LeafTape, FirstRow, HeardFrom, First, RowAt,
         RamDisk.View;
    ghost var d, os := disk.View(), fds.files[..];
    got := got0;
    AdvancedNone(os, h);
    assert buf[got0..got] == [];
    RowsStart(d, ino, seg, o, n - got0);
    var p := disk.GetPtr(ino, DoubleIx);
    if p == None {
      NoRows(d, ino);
      RowsNone(d, ino, seg, o, n - got0);
      return;
    }
    var i, j: nat := 0, seg - FIRST_ROW;
    while i < PTRS
      invariant i <= PTRS && got0 <= got < n && j < PTRS * PTRS
      invariant disk.Valid() && disk.View() == d && buf[..got0] == old(buf[..got0])
      invariant fds.files[..] == Advanced(os, h, got - got0)
      invariant RowAt(d, ino, buf[got0..got], i, j, seg, o, n - got0)
    {
      var row := disk.GetPtr(ino, RowIx(i));
      if row == None {
        RowSkipped(d, ino, buf[got0..got], i, j, seg, o, n - got0);
      } else {
        ghost var pre, was, j0 := buf[..got], got, j;
        RowEntered(d, ino, buf[got0..got], i, j, seg, o, n - got0);
        j := j / PTRS;
        RowReachable(d, ino, i);
        FewerReachable(d, ino, FIRST_ROW + PTRS * i, FIRST_ROW + PTRS * i + j, RowEnd(i));
        got := ReadRun(disk, fds, h, ino, buf, FIRST_ROW + PTRS * i + j, RowEnd(i), o, got, n);
        AdvancedTwice(os, h, was - got0, got - was);
        assert buf[..got0] == pre[..got0] && buf[got0..got] == pre[got0..] + buf[was..got];
        RowRead(d, ino, pre[got0..], buf[was..got], i, j0, seg, o, n - got0);
        if got == n {
          return;
        }
      }
      i := i + 1;
    }
    RowsOut(d, ino, buf[got0..got], j, seg, o, n - got0);
  }

  lemma RowsStart(d: Disk, ino: nat, seg: nat, o: nat, left: nat)
    requires FIRST_ROW <= seg < LEAVES && o < BLOCK_SIZE && left > 0
    ensures RowAt(d, ino, [], 0, seg - FIRST_ROW, seg, o, left)
  {
    hide Heard, FirstRow;
  }

  lemma RowsNone(d: Disk, ino: nat, seg: nat, o: nat, left: nat)
    requires FIRST_ROW <= seg < LEAVES && o < BLOCK_SIZE && FirstRow(d, ino, 0) == PTRS
    ensures First(Heard(d, ino, HeardFrom(d, ino, seg), LEAVES, o), left) == []
  {
    hide Heard, FirstRow;
    HeardStep(d, ino, HeardFrom(d, ino, seg), LEAVES, o);
  }

  // ---------------------------------------------------------------- rd_read

  lemma CursorNow(os: seq<FileObj>, os': seq<FileObj>, h: nat, c: nat, k: nat)
    requires h < |os| && os[h].cursor == c && os' == Advanced(os, h, k)
    ensures os'[h].cursor == Plus32(c, k)
  {
  }

  /** The direct level. */
  method ReadDirect(disk: RamDisk, fds: Table, h: nat, ino: nat, buf: array<Byte>, n: nat) returns (got: nat)
    requires disk.Valid() && BufferApart(disk, fds, buf) && h < fds.files.Length && n <= buf.Length == READ_BUFFER
    requires ino < INODES && disk.View().inodes[ino].kind != Dir
    modifies fds.files, buf
    ensures disk.Valid() && disk.View() == old(disk.View()) && got <= buf.Length && (n > 0 ==> got <= n)
    ensures fds.files[..] == Advanced(old(fds.files[..]), h, got)
    ensures buf[..got] == DirectHeard(disk.View(), ino, old(fds.files[h].cursor), n)
  {
    hide PtrAt, Owned, Advanced, Used, Sound, LeafSlot, RamDisk.View, Heard, NonZero, LeafTape, First;
    var c := fds.files[h].cursor;
    var seg, o := c / BLOCK_SIZE, c % BLOCK_SIZE;
    got := 0;
    AdvancedNone(fds.files[..], h);
    if seg < DIRECT {
      assert Reachable(disk.View(), ino, seg, DIRECT) by { DirectReachable(disk.View(), ino, seg); }
      got := ReadRun(disk, fds, h, ino, buf, seg, DIRECT, o, 0, n);
      assert buf[..got] == buf[0..got];
    }
  }

  lemma DirectReachable(d: Disk, ino: nat, seg: nat)
    requires seg <= DIRECT
    ensures Reachable(d, ino, seg, DIRECT)
  {
  }

  /** The single-indirect level, if it is entered. */
  method ThenSingle(disk: RamDisk, fds: Table, h: nat, ino: nat, buf: array<Byte>, got0: nat, n: nat)
    returns (got: nat)
    requires disk.Valid() && BufferApart(disk, fds, buf) && h < fds.files.Length && n <= buf.Length == READ_BUFFER
    requires ino < INODES && disk.View().inodes[ino].kind != Dir && got0 <= buf.Length && (n > 0 ==> got0 <= n)
    modifies fds.files, buf
    ensures disk.Valid() && disk.View() == old(disk.View()) && got0 <= got <= buf.Length && (n > 0 ==> got <= n)
    ensures fds.files[..] == Advanced(old(fds.files[..]), h, got - got0)
    ensures buf[..got] == old(buf[..got0]) + SingleHeard(disk.View(), ino, old(fds.files[h].cursor), n, got0)
  {
    hide PtrAt, Owned, Advanced, Used, Sound, LeafSlot, RamDisk.View, Heard, First;
    got := got0;
    ghost var pre := buf[..got0];
    AdvancedNone(fds.files[..], h);
    var seg, o := fds.files[h].cursor / BLOCK_SIZE, fds.files[h].cursor % BLOCK_SIZE;
    if got < n && DIRECT <= seg < FIRST_ROW {
      got := ReadSingle(disk, fds, h, ino, buf, seg, o, got, n);
    }
    assert buf[..got] == buf[..got0] + buf[got0..got];
  }

  /** The double-indirect level, if it is entered. */
  method ThenDouble(disk: RamDisk, fds: Table, h: nat, ino: nat, buf: array<Byte>, got0: nat, n: nat)
    returns (got: nat)
    requires disk.Valid() && BufferApart(disk, fds, buf) && h < fds.files.Length && n <= buf.Length == READ_BUFFER
    requires ino < INODES && disk.View().inodes[ino].kind != Dir && got0 <= buf.Length && (n > 0 ==> got0 <= n)
    modifies fds.files, buf
    ensures disk.Valid() && disk.View() == old(disk.View()) && got0 <= got <= buf.Length && (n > 0 ==> got <= n)
    ensures fds.files[..] == Advanced(old(fds.files[..]), h, got - got0)
    ensures buf[..got] == old(buf[..got0]) + DoubleHeard(disk.View(), ino, old(fds.files[h].cursor), n, got0)
  {
    hide PtrAt, Owned, Advanced, Used, Sound, LeafSlot, RamDisk.View, Heard, First, FirstRow;
    got := got0;
    ghost var pre := buf[..got0];
    AdvancedNone(fds.files[..], h);
    var seg, o := fds.files[h].cursor / BLOCK_SIZE, fds.files[h].cursor % BLOCK_SIZE;
    if got < n && FIRST_ROW <= seg < LEAVES {
      got := ReadDouble(disk, fds, h, ino, buf, seg, o, got, n);
    }
    assert buf[..got] == buf[..got0] + buf[got0..got];
  }

  /** The three levels, one after the other; each goes by the cursor. */
  method ReadLevels(disk: RamDisk, fds: Table, h: nat, ino: nat, buf: array<Byte>, n: nat) returns (got: nat)
    requires disk.Valid() && BufferApart(disk, fds, buf) && h < fds.files.Length && n <= buf.Length == READ_BUFFER
    requires ino < INODES && disk.View().inodes[ino].kind != Dir
    modifies fds.files, buf
    ensures disk.Valid() && disk.View() == old(disk.View()) && got <= buf.Length && (n > 0 ==> got <= n)
    ensures fds.files[..] == Advanced(old(fds.files[..]), h, got)
    ensures buf[..got] == Delivered(disk.View(), ino, old(fds.files[h].cursor), n)
  {
    hide PtrAt, Owned, Advanced, Used, Sound, LeafSlot, RamDisk.View, DirectHeard, SingleHeard, DoubleHeard, Plus32;
    ghost var os, c := fds.files[..], fds.files[h].cursor;
    got := ReadDirect(disk, fds, h, ino, buf, n);
    CursorNow(os, fds.files[..], h, c, got);
    ghost var k := got;
    got := ThenSingle(disk, fds, h, ino, buf, got, n);
    AdvancedTwice(os, h, k, got - k);
    CursorNow(os, fds.files[..], h, c, got);
    k := got;
    got := ThenDouble(disk, fds, h, ino, buf, got, n);
    AdvancedTwice(os, h, k, got - k);
  }

  /** copy_to_user, one call. */
  method CopyOut(dst: array<Byte>, src: array<Byte>, at: nat, k: nat)
    requires dst != src && at + k <= dst.Length && at + k <= src.Length
    modifies dst
    ensures forall j :: 0 <= j < dst.Length ==> dst[j] == if at <= j < at + k then src[j] else old(dst[j])
  {
    for i := 0 to k
      invariant forall j :: 0 <= j < dst.Length ==> dst[j] == if at <= j < at + i then src[j] else old(dst[j])
    {
      dst[at + i] := src[at + i];
    }
  }

  /** The page-wise copy that ends rd_read: pages of 4096 bytes, then the rest. It delivers exactly n bytes. */
  method CopyPages(dst: array<Byte>, src: array<Byte>, n: nat)
    requires dst != src && n <= dst.Length && n <= src.Length
    modifies dst
    ensures dst[..n] == src[..n] && dst[n..] == old(dst[n..])
  {
    var left, at, flag := n, 0, true;
    while flag
      invariant at + left == n || !flag
      invariant flag ==> forall j :: 0 <= j < dst.Length ==> dst[j] == if j < at then src[j] else old(dst[j])
      invariant !flag ==> forall j :: 0 <= j < dst.Length ==> dst[j] == if j < n then src[j] else old(dst[j])
      decreases flag, left
    {
      if left > 4096 {
        CopyOut(dst, src, at, 4096);
        left := left - 4096;
        at := at + 4096;
      } else {
        CopyOut(dst, src, at, left);
        flag := false;
      }
    }
  }
}
