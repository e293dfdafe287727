/** What a write makes of the text of a file, wherever its cursor is. */
module Overwriting {
  import opened Disk
  import opened FileData
  import FileSteps
  import FdTable
  import FileWrite
  import FileIo
  import opened ReadPath
  import opened WritePath
  import BlockTour

  ghost predicate Increasing(ps: seq<nat>) { forall i, j :: 0 <= i < j < |ps| ==> ps[i] < ps[j] }

  lemma JoinIncreasing(ps: seq<nat>, qs: seq<nat>, x: nat)
    requires Increasing(ps) && Increasing(qs) && Below(ps, x) && AllFrom(qs, x)
    ensures Increasing(ps + qs)
  {
  }

  lemma {:induction false} StretchIncreasing(lo: nat, hi: nat, o: nat, left: nat, size: nat)
    requires lo <= hi
    ensures Increasing(Stretch(lo, hi, o, left, size))
    decreases hi - lo
  {
    hide Stretch, Here, Span;
    if lo == hi || left == 0 {
      NothingToStretch(lo, hi, o, left, size);
    } else {
      var k := StretchOnce(lo, hi, o, left, size);
      StretchIncreasing(lo + 1, hi, o, left - k, size);
      StretchWithin(lo + 1, hi, o, left - k, size);
      SpanIncreasing(lo, o, left, size);
      JoinIncreasing(Span(lo * BLOCK_SIZE + o, k), Stretch(lo + 1, hi, o, left - k, size), (lo + 1) * BLOCK_SIZE);
    }
  }

  lemma SpanIncreasing(q: nat, o: nat, left: nat, size: nat)
    ensures var ps := Span(q * BLOCK_SIZE + o, Here(q, o, left, size));
            Increasing(ps) && Below(ps, (q + 1) * BLOCK_SIZE)
  {
  }

  /** No byte lands on another one, and a later byte lands behind an earlier one. */
  lemma LandsIncreasing(c: nat, size: U32, m: nat)
    ensures Increasing(Lands(c, size, m)) && Below(Lands(c, size, m), MAX_FILE_SIZE)
  {
    hide Stretch, Plus32, Increasing;
    LandsApart(c, size, m);
    var a := DirectLands(c, m);
    var b := SingleLands(Plus32(size, |a|), m - |a|);
    var low := LowLands(c, size, m);
    var e := DoubleLands(Plus32(size, |low|), m - |low|);
    assert Increasing(a) by { StageIncreasing(c / BLOCK_SIZE, DIRECT, c % BLOCK_SIZE, m); }
    var s1, s2 := Plus32(size, |a|), Plus32(size, |low|);
    assert Increasing(b) by { StageIncreasing(s1 / BLOCK_SIZE, FIRST_ROW, s1 % BLOCK_SIZE, m - |a|); }
    assert Increasing(e) && Below(e, MAX_FILE_SIZE) by {
      StageIncreasing(FIRST_ROW + (if s2 / BLOCK_SIZE >= FIRST_ROW then (s2 / BLOCK_SIZE - FIRST_ROW) / PTRS else 0),
          LEAVES,
          s2 % BLOCK_SIZE, m - |low|);
    }
    hide DirectLands, SingleLands, DoubleLands;
    JoinIncreasing(a, b, 2048);
    JoinIncreasing(low, e, 18432);
  }

  lemma StageIncreasing(lo: nat, hi: nat, o: nat, left: nat)
    ensures Increasing([])
    ensures lo <= hi ==>
            Increasing(Stretch(lo, hi, o, left, MAX_FILE_SIZE))
                && Below(Stretch(lo, hi, o, left, MAX_FILE_SIZE), hi * BLOCK_SIZE)
  {
    hide Stretch;
    if lo <= hi {
      StretchIncreasing(lo, hi, o, left, MAX_FILE_SIZE);
      StretchWithin(lo, hi, o, left, MAX_FILE_SIZE);
    }
  }

  /** As many positions as a range has, in order, that cover it are the range. */
  lemma {:induction false} Dense(ps: seq<nat>, x: nat, k: nat)
    requires |ps| == k && Increasing(ps) && forall p :: x <= p < x + k ==> p in ps
    ensures ps == Span(x, k)
    decreases k
  {
    if k > 0 {
      var front, last := ps[..k - 1], ps[k - 1];
      assert x + k - 1 in ps;
      assert last >= x + k - 1;
      forall p | x <= p < x + k - 1 ensures p in front {
        assert p in ps && p != last;
        var i :| 0 <= i < k && ps[i] == p;
        assert front[i] == p;
      }
      Dense(front, x, k - 1);
      forall i | 0 <= i < k - 1 ensures ps[i] < x + k - 1 { assert ps[i] == front[i] == Span(x, k - 1)[i]; }
      assert last == x + k - 1;
      assert ps == front + [last];
    }
  }

  lemma {:induction false} AtLeast(ps: seq<nat>, i: nat)
    requires Increasing(ps) && i < |ps|
    ensures ps[i] >= i
  {
    if i > 0 { AtLeast(ps, i - 1); }
  }

  // ---------------------------------------------------------------- bytes and text

  lemma ShownBytes(d: Disk, ino: nat, text: seq<Byte>, p: nat)
    requires Shows(d, ino, text) && p < MAX_FILE_SIZE
    ensures ByteOf(d, ino, p) == if p < |text| then text[p] else 0
    ensures p < |text| ==> text[p] != 0
  {
    hide FByte, ByteOf;
    var q, j := Location(p);
    Located(d, ino, q, j);
  }

  lemma ShownIf(d: Disk, ino: nat, text: seq<Byte>)
    requires ino < INODES && d.inodes[ino].kind == Reg && d.inodes[ino].size == |text| <= MAX_FILE_SIZE && NoZero(text)
    requires forall p :: 0 <= p < MAX_FILE_SIZE ==> ByteOf(d, ino, p) == if p < |text| then text[p] else 0
    ensures Shows(d, ino, text)
  {
    hide FByte, ByteOf;
    forall q, j | 0 <= q < LEAVES && 0 <= j < BLOCK_SIZE
      ensures FByte(d, ino, q, j) == if q * BLOCK_SIZE + j < |text| then text[q * BLOCK_SIZE + j] else 0
    {
      Located(d, ino, q, j);
    }
  }

  ghost predicate ShowsSome(d: Disk, ino: nat) { exists text :: Shows(d, ino, text) }

  /** Bytes laid in a file that shows text, and counted: it shows some text afterwards if and only if they were laid
      right behind it. */
  lemma LaidShowsIff(d: Disk, d': Disk, ino: nat, text: seq<Byte>, ps: seq<nat>, bs: seq<Byte>)
    requires Shows(d, ino, text) && Laid(d, d', ino, ps, bs) && NoZero(bs) && Increasing(ps)
    requires d'.inodes[ino].kind == Reg && d'.inodes[ino].size == |text| + |ps|
    ensures ShowsSome(d', ino) <==> ps == Span(|text|, |ps|)
    ensures ps == Span(|text|, |ps|) ==> Shows(d', ino, text + bs)
  {
    hide FByte, ByteOf, Shows, Increasing;
    assert ino < INODES && |text| <= MAX_FILE_SIZE && NoZero(text) by { ShownFacts(d, ino, text); }
    if ps == Span(|text|, |ps|) {
      LaidBehind(d, d', ino, text, ps, bs);
    } else if t :| Shows(d', ino, t) {
      ShownFacts(d', ino, t);
      forall p | |text| <= p < |text| + |ps| ensures p in ps {
        ShownBytes(d', ino, t, p);
        ShownBytes(d, ino, text, p);
      }
      Dense(ps, |text|, |ps|);
    }
  }

  lemma ShownFacts(d: Disk, ino: nat, text: seq<Byte>)
    requires Shows(d, ino, text)
    ensures ino < INODES && d.inodes[ino].size == |text| <= MAX_FILE_SIZE && NoZero(text) && d.inodes[ino].kind == Reg
  {
    hide FByte;
  }

  lemma LaidBehind(d: Disk, d': Disk, ino: nat, text: seq<Byte>, ps: seq<nat>, bs: seq<Byte>)
    requires Shows(d, ino, text) && Laid(d, d', ino, ps, bs) && NoZero(bs) && ps == Span(|text|, |ps|)
    requires d'.inodes[ino].kind == Reg && d'.inodes[ino].size == |text| + |ps|
    ensures Shows(d', ino, text + bs)
  {
    hide FByte, ByteOf, Shows;
    ShownFacts(d, ino, text);
    var t := text + bs;
    InSpan(|text|, |ps|);
    assert |t| <= MAX_FILE_SIZE by { if |ps| > 0 { assert ps[|ps| - 1] < MAX_FILE_SIZE; } }
    forall p | 0 <= p < MAX_FILE_SIZE ensures ByteOf(d', ino, p) == if p < |t| then t[p] else 0 {
      ShownBytes(d, ino, text, p);
      if |text| <= p < |t| { assert ps[p - |text|] == p; }
    }
    ShownIf(d', ino, t);
  }

  // ---------------------------------------------------------------- calls

  /** rd_write on a file that shows text, with the cursor anywhere: afterwards the file shows some text if and only if
      the bytes landed right behind it. */
  lemma WriteShowsIff(d: Disk, os: seq<FdTable.FileObj>, d': Disk, os': seq<FdTable.FileObj>, h: nat, ino: nat,
          data: seq<Byte>, n: nat,
          r: int, k: nat, text: seq<Byte>)
    requires Shows(d, ino, text) && ino < INODES && n <= |data|
    requires FileWrite.Went(d, os, d', os', h, ino, k) && FileIo.Scattered(d, os, d', h, ino, data, n, r, k)
    ensures var ps := Lands(os[h].cursor, |text|, Solid(data, n));
            && k <= |ps|
            && (ShowsSome(d', ino) <==> ps[..k] == Span(|text|, k))
            && (ShowsSome(d', ino) ==> Shows(d', ino, text + data[..k]))
  {
    hide Shows, Lands, Laid, Solid, Increasing, FileSteps.Kept, ShowsSome, BlockTour.Toured, BlockTour.WriteTour,
         NextMissing;
    ShownFacts(d, ino, text);
    var m := Solid(data, n);
    var ps := Lands(os[h].cursor, |text|, m);
    LandsIncreasing(os[h].cursor, |text|, m);
    FrontIncreasing(ps, k);
    assert data[0..k] == data[..k];
    if k > 0 { AtLeast(ps, k - 1); }
    assert NoZero(data[..k]) by { FrontSolid(data, n, k); }
    WentSize(d, os, d', os', h, ino, k);
    LaidShowsIff(d, d', ino, text, ps[..k], data[..k]);
  }

  lemma FrontIncreasing(ps: seq<nat>, k: nat)
    requires Increasing(ps) && k <= |ps|
    ensures Increasing(ps[..k])
  {
  }

  lemma FrontSolid(data: seq<Byte>, n: nat, k: nat)
    requires n <= |data| && k <= Solid(data, n)
    ensures NoZero(data[..k])
  {
    hide ZeroAt;
    var m := Solid(data, n);
    forall i | 0 <= i < k ensures data[..k][i] != 0 { assert data[..k][i] == data[..m][i]; }
  }

  lemma WentSize(d: Disk, os: seq<FdTable.FileObj>, d': Disk, os': seq<FdTable.FileObj>, h: nat, ino: nat, k: nat)
    requires FileWrite.Went(d, os, d', os', h, ino, k)
    ensures d'.inodes[ino].kind == d.inodes[ino].kind && d'.inodes[ino].size == Plus32(d.inodes[ino].size, k)
  {
    hide Plus32, FileWrite.Advanced;
  }

  /** Overwriting: with the cursor in the direct blocks, before the end, each byte written is counted as a new one, and
      the file shows no text any more. */
  lemma OverwriteLoses(d: Disk, os: seq<FdTable.FileObj>, d': Disk, os': seq<FdTable.FileObj>, h: nat, ino: nat,
          data: seq<Byte>, n: nat,
          r: int, k: nat, text: seq<Byte>)
    requires Shows(d, ino, text) && ino < INODES && n <= |data|
    requires FileWrite.Went(d, os, d', os', h, ino, k) && FileIo.Scattered(d, os, d', h, ino, data, n, r, k)
    requires k > 0 && os[h].cursor < |text| && os[h].cursor / BLOCK_SIZE < DIRECT
    ensures d'.inodes[ino].size == |text| + k && !ShowsSome(d', ino)
  {
    hide Shows, Lands, Laid, Solid, FileSteps.Kept, ShowsSome, Stretch;
    ShownFacts(d, ino, text);
    var c, m := os[h].cursor, Solid(data, n);
    var ps := Lands(c, |text|, m);
    WriteShowsIff(d, os, d', os', h, ino, data, n, r, k, text);
    FirstLands(c, |text|, m);
    LandsIncreasing(c, |text|, m);
    AtLeast(ps, k - 1);
    WentSize(d, os, d', os', h, ino, k);
    assert ps[..k][0] == c && Span(|text|, k)[0] == |text|;
  }

  /** In the direct blocks the first byte lands at the cursor. */
  lemma FirstLands(c: nat, size: U32, m: nat)
    requires m > 0 && c / BLOCK_SIZE < DIRECT
    ensures Lands(c, size, m) != [] && Lands(c, size, m)[0] == c
  {
    var seg, o := c / BLOCK_SIZE, c % BLOCK_SIZE;
    StretchFirst(seg, DIRECT, o, m, MAX_FILE_SIZE);
    hide Stretch;
    var a := DirectLands(c, m);
    assert a[0] == c;
  }

  /** With the cursor beyond the direct blocks it does not matter where it is: the bytes go where the size tells. */
  lemma CursorIgnored(c: nat, size: U32, m: nat)
    requires c / BLOCK_SIZE >= DIRECT
    ensures size / BLOCK_SIZE >= DIRECT ==> Lands(c, size, m) == Lands(size, size, m)
    ensures size / BLOCK_SIZE < DIRECT ==> Lands(c, size, m) == []
  {
    hide Stretch;
    assert DirectLands(c, m) == [];
    assert Plus32(size, 0) == size;
  }

  /** With the size in the double-indirect level, bytes that stay in one block go to a place in its first row. It is
      where the file ends only if that is in the first block of the level; from position 18688 on it is in front of the
      end, so that a byte appended there takes the place of an older one. */
  lemma FarLands(c: nat, size: U32, m: nat)
    requires c / BLOCK_SIZE >= DIRECT && 18432 <= size < MAX_FILE_SIZE && size % BLOCK_SIZE + m <= BLOCK_SIZE
    ensures var p := 18432 + 256 * ((size - 18432) / 16384) + size % 256;
            && Lands(c, size, m) == Span(p, m)
            && (if size < 18688 then p == size else p + m <= size)
  {
    hide Stretch, Span;
    var seg, o := size / BLOCK_SIZE, size % BLOCK_SIZE;
    var start := FIRST_ROW + (seg - FIRST_ROW) / PTRS;
    FarStart(size);
    assert DirectLands(c, m) == [] && SingleLands(size, m) == [] && Plus32(size, 0) == size;
    assert Lands(c, size, m) == Stretch(start, LEAVES, o, m, MAX_FILE_SIZE);
    StretchInside(start, LEAVES, o, m, MAX_FILE_SIZE);
  }

  lemma FarStart(size: nat)
    requires 18432 <= size < MAX_FILE_SIZE
    ensures var seg := size / BLOCK_SIZE;
            && FIRST_ROW <= seg < LEAVES
            && (seg - FIRST_ROW) / PTRS == (size - 18432) / 16384 < PTRS
  {
  }
}
