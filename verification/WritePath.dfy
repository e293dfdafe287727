/** Where the bytes of a write land: the counterpart of the positions a read visits. */
module WritePath {
  import opened Options
  import opened Disk
  import opened FileData
  import FileSteps
  import opened ReadPath

  /** Index of the first zero byte, or |data|. */
  function ZeroAt(data: seq<Byte>): (i: nat)
    ensures i <= |data| && (i < |data| ==> data[i] == 0) && forall j :: 0 <= j < i ==> data[j] != 0
  {
    if data == [] || data[0] == 0 then 0
    else
      var i := ZeroAt(data[1..]);
      assert forall j :: 0 < j < i + 1 ==> data[j] == data[1..][j - 1];
      i + 1
  }

  /** How many of the n bytes the loops can copy: those before the first zero byte. */
  function Solid(data: seq<Byte>, n: nat): (m: nat)
    requires n <= |data|
    ensures m <= n && NoZero(data[..m]) && (m < n ==> data[m] == 0)
  {
    var m := ZeroAt(data[..n]);
    assert forall j :: 0 <= j < m ==> data[..m][j] == data[..n][j];
    assert m < n ==> data[m] == data[..n][m];
    m
  }

  lemma SolidAll(data: seq<Byte>, n: nat)
    requires n <= |data|
    ensures Solid(data, n) == n <==> NoZero(data[..n])
  {
    hide ZeroAt;
    var m := Solid(data, n);
    if m < n { assert data[..n][m] == 0; }
  }

  // ---------------------------------------------------------------- the positions

  /** The positions of the direct stage, which goes by the cursor. */
  function DirectLands(c: nat, m: nat): seq<nat> {
    if c / BLOCK_SIZE < DIRECT then Stretch(c / BLOCK_SIZE, DIRECT, c % BLOCK_SIZE, m, MAX_FILE_SIZE) else []
  }

  /** Those of the single-indirect stage, which goes by the size reached. */
  function SingleLands(size: nat, left: nat): seq<nat> {
    var seg := size / BLOCK_SIZE;
    if DIRECT <= seg < FIRST_ROW then Stretch(seg, FIRST_ROW, size % BLOCK_SIZE, left, MAX_FILE_SIZE) else []
  }

  /** Those of the double-indirect stage, which goes by the size, too, but starts at leaf 72 + (seg - 72) / 64. */
  function DoubleLands(size: nat, left: nat): seq<nat> {
    var seg := size / BLOCK_SIZE;
    if FIRST_ROW <= seg < LEAVES
    then Stretch(FIRST_ROW + (seg - FIRST_ROW) / PTRS, LEAVES, size % BLOCK_SIZE, left, MAX_FILE_SIZE) else []
  }

  /** The first two stages. */
  function LowLands(c: nat, size: U32, m: nat): (ps: seq<nat>)
    ensures |ps| <= m
  {
    var a := DirectLands(c, m);
    a + SingleLands(Plus32(size, |a|), m - |a|)
  }

  /** Where rd_write puts m non-zero bytes in a file of the given size, with the cursor at c. */
  function Lands(c: nat, size: U32, m: nat): (ps: seq<nat>)
    ensures |ps| <= m
  {
    var b := LowLands(c, size, m);
    b + DoubleLands(Plus32(size, |b|), m - |b|)
  }

  /** The stages land in different leaves. */
  lemma LandsApart(c: nat, size: U32, m: nat)
    ensures var a := DirectLands(c, m);
            && |a| <= m && Below(a, 2048)
            && AllFrom(SingleLands(Plus32(size, |a|), m - |a|), 2048)
            && Below(LowLands(c, size, m), 18432)
            && AllFrom(DoubleLands(Plus32(size, |LowLands(c, size, m)|), m - |LowLands(c, size, m)|), 18432)
  {
    hide Stretch, Plus32;
    var a := DirectLands(c, m);
    var seg, o := c / BLOCK_SIZE, c % BLOCK_SIZE;
    if seg < DIRECT { StretchWithin(seg, DIRECT, o, m, MAX_FILE_SIZE); }
    var s1 := Plus32(size, |a|);
    if DIRECT <= s1 / BLOCK_SIZE < FIRST_ROW {
      StretchWithin(s1 / BLOCK_SIZE, FIRST_ROW, s1 % BLOCK_SIZE, m - |a|, MAX_FILE_SIZE);
    }
    var b := LowLands(c, size, m);
    var s2 := Plus32(size, |b|);
    if FIRST_ROW <= s2 / BLOCK_SIZE < LEAVES {
      StretchWithin(FIRST_ROW + (s2 / BLOCK_SIZE - FIRST_ROW) / PTRS, LEAVES, s2 % BLOCK_SIZE, m - |b|, MAX_FILE_SIZE);
    }
  }

  /** At the end of a file, bytes land where a read of as many would look for them. */
  lemma LandsVisits(c: nat, m: nat)
    requires m > 0 && c + m <= MAX_FILE_SIZE
    ensures Lands(c, c, m) == Visits(c, m, MAX_FILE_SIZE)
  {
    hide Stretch;
    var a := DirectLands(c, m);
    NothingToStretch(DIRECT, FIRST_ROW, 0, 0, MAX_FILE_SIZE);
    assert DirectPart(c, m, MAX_FILE_SIZE) == a;
    assert Plus32(c, |a|) == c + |a|;
    assert SingleLands(c + |a|, m - |a|) == SinglePart(c, m, |a|, MAX_FILE_SIZE) by { SingleSame(c, m, |a|); }
    var b := LowLands(c, c, m);
    assert Plus32(c, |b|) == c + |b|;
    assert DoubleLands(c + |b|, m - |b|) == DoublePart(c, m, |b|, MAX_FILE_SIZE) by { DoubleSame(c, m, |b|); }
  }

  lemma SingleSame(c: nat, m: nat, got: nat)
    requires got <= m
    ensures SingleLands(c + got, m - got) == SinglePart(c, m, got, MAX_FILE_SIZE)
  {
    hide Stretch;
    var seg, o := (c + got) / BLOCK_SIZE, (c + got) % BLOCK_SIZE;
    NothingToStretch(seg, FIRST_ROW, o, 0, MAX_FILE_SIZE);
  }

  lemma DoubleSame(c: nat, m: nat, got: nat)
    requires got <= m
    ensures DoubleLands(c + got, m - got) == DoublePart(c, m, got, MAX_FILE_SIZE)
  {
    hide Stretch;
    var seg, o := (c + got) / BLOCK_SIZE, (c + got) % BLOCK_SIZE;
    if FIRST_ROW <= seg < LEAVES {
      NothingToStretch(FIRST_ROW + (seg - FIRST_ROW) / PTRS, LEAVES, o, 0, MAX_FILE_SIZE);
    }
  }

  /** An append lands behind the text if and only if it is in the domain of the loops. */
  lemma LandsIff(c: nat, m: nat)
    requires 0 < m && c + m <= MAX_FILE_SIZE
    ensures Lands(c, c, m) == Span(c, m) <==> ReadDomain(c, m)
  {
    hide Lands, Visits, ReadDomain;
    LandsVisits(c, m);
    VisitsIff(c, m, MAX_FILE_SIZE);
  }

  ghost predicate Below(ps: seq<nat>, x: nat) { forall i :: 0 <= i < |ps| ==> ps[i] < x }

  ghost predicate AllFrom(ps: seq<nat>, x: nat) { forall i :: 0 <= i < |ps| ==> ps[i] >= x }

  /** The positions of a level lie in its leaves, and are no more than these have bytes. */
  lemma {:induction false} StretchWithin(lo: nat, hi: nat, o: nat, left: nat, size: nat)
    requires lo <= hi
    ensures var ps := Stretch(lo, hi, o, left, size);
            AllFrom(ps, lo * BLOCK_SIZE) && Below(ps, hi * BLOCK_SIZE) && |ps| <= (hi - lo) * BLOCK_SIZE
    decreases hi - lo
  {
    if lo < hi && left > 0 {
      StretchWithin(lo + 1, hi, o, left - Here(lo, o, left, size), size);
    }
  }

  lemma StretchOnce(lo: nat, hi: nat, o: nat, left: nat, size: nat) returns (k: nat)
    requires lo < hi && left > 0
    ensures k == Here(lo, o, left, size) <= left
    ensures Stretch(lo, hi, o, left, size) == Span(lo * BLOCK_SIZE + o, k) + Stretch(lo + 1, hi, o, left - k, size)
    ensures |Span(lo * BLOCK_SIZE + o, k)| == k
  {
    k := Here(lo, o, left, size);
  }

  /** A level can be cut in two. */
  lemma {:induction false} StretchSplit(lo: nat, mid: nat, hi: nat, o: nat, left: nat, size: nat)
    requires lo <= mid <= hi
    ensures var a := Stretch(lo, mid, o, left, size);
            |a| <= left && Stretch(lo, hi, o, left, size) == a + Stretch(mid, hi, o, left - |a|, size)
    decreases mid - lo
  {
    hide Stretch, Here, Span;
    if lo == mid || left == 0 {
      NothingToStretch(lo, mid, o, left, size);
      if left == 0 {
        NothingToStretch(lo, hi, o, left, size);
        NothingToStretch(mid, hi, o, left, size);
      }
      assert [] + Stretch(lo, hi, o, left, size) == Stretch(lo, hi, o, left, size);
    } else {
      var k := StretchOnce(lo, mid, o, left, size);
      var k' := StretchOnce(lo, hi, o, left, size);
      var first, rest := Span(lo * BLOCK_SIZE + o, k), Stretch(lo + 1, mid, o, left - k, size);
      StretchSplit(lo + 1, mid, hi, o, left - k, size);
      assert first + (rest + Stretch(mid, hi, o, left - k - |rest|, size))
             == first + rest + Stretch(mid, hi, o, left - k - |rest|, size);
    }
  }

  lemma NothingToStretch(lo: nat, hi: nat, o: nat, left: nat, size: nat)
    requires lo >= hi || left == 0
    ensures Stretch(lo, hi, o, left, size) == []
  {
  }

  /** One round of a level over leaf i, from byte w to byte w' of the data. */
  lemma StretchRound(data: seq<Byte>, n: nat, i: nat, hi: nat, o: nat, w: nat, w': nat)
    requires i < hi <= LEAVES && o < BLOCK_SIZE && w <= w' <= n <= |data| && w <= Solid(data, n)
    requires NoZero(data[w..w']) && w' - w <= BLOCK_SIZE - o
    requires w' == n || w' - w == BLOCK_SIZE - o || data[w'] == 0
    ensures var m := Solid(data, n);
            && w' <= m && w' - w == (if m - w <= BLOCK_SIZE - o then m - w else BLOCK_SIZE - o)
            && Stretch(i, hi, o, m - w, MAX_FILE_SIZE)
               == Span(i * BLOCK_SIZE + o, w' - w) + Stretch(i + 1, hi, o, m - w', MAX_FILE_SIZE)
  {
    hide Solid, Stretch;
    var m := Solid(data, n);
    NoneZero(data, w, w');
    if w' < m { assert data[w'] == data[..m][w']; }
    RoundIs(i, hi, o, m - w, w' - w);
  }

  lemma NoneZero(data: seq<Byte>, w: nat, w': nat)
    requires w <= w' <= |data| && NoZero(data[w..w'])
    ensures forall i :: w <= i < w' ==> data[i] != 0
  {
    forall i | w <= i < w' ensures data[i] != 0 { assert data[i] == data[w..w'][i - w]; }
  }

  lemma RoundIs(i: nat, hi: nat, o: nat, left: nat, k: nat)
    requires i < hi <= LEAVES && o < BLOCK_SIZE && k == if left <= BLOCK_SIZE - o then left else BLOCK_SIZE - o
    ensures Stretch(i, hi, o, left, MAX_FILE_SIZE)
            == Span(i * BLOCK_SIZE + o, k) + Stretch(i + 1, hi, o, left - k, MAX_FILE_SIZE)
  {
  }

  // ---------------------------------------------------------------- the bytes

  /** The byte at position p of a file. */
  function ByteOf(d: Disk, ino: nat, p: nat): Byte
    requires p < MAX_FILE_SIZE
  {
    FByte(d, ino, p / BLOCK_SIZE, p % BLOCK_SIZE)
  }

  /** The bytes bs were laid at the positions ps of the file, and none elsewhere. */
  ghost predicate Laid(d: Disk, d': Disk, ino: nat, ps: seq<nat>, bs: seq<Byte>) {
    && |ps| == |bs|
    && (forall i :: 0 <= i < |ps| ==> ps[i] < MAX_FILE_SIZE && ByteOf(d', ino, ps[i]) == bs[i])
    && (forall p :: 0 <= p < MAX_FILE_SIZE && p !in ps ==> ByteOf(d', ino, p) == ByteOf(d, ino, p))
  }

  lemma LaidNone(d: Disk, d': Disk, ino: nat)
    requires forall r, j :: 0 <= r < LEAVES && 0 <= j < BLOCK_SIZE ==> FByte(d', ino, r, j) == FByte(d, ino, r, j)
    ensures Laid(d, d', ino, [], [])
  {
    hide FByte, ByteOf;
    forall p | 0 <= p < MAX_FILE_SIZE ensures ByteOf(d', ino, p) == ByteOf(d, ino, p) {
      var r, j := Location(p);
      Located(d, ino, r, j);
      Located(d', ino, r, j);
    }
  }

  lemma LaidLeaf(d: Disk, d': Disk, ino: nat, q: nat, o: nat, bytes: seq<Byte>)
    requires FileSteps.LeafWritten(d, d', ino, q, o, bytes)
    ensures Laid(d, d', ino, Span(q * BLOCK_SIZE + o, |bytes|), bytes)
  {
    hide FByte, PtrAt, ByteOf;
    var ps := Span(q * BLOCK_SIZE + o, |bytes|);
    InSpan(q * BLOCK_SIZE + o, |bytes|);
    forall i | 0 <= i < |ps| ensures ps[i] < MAX_FILE_SIZE && ByteOf(d', ino, ps[i]) == bytes[i] {
      Located(d', ino, q, o + i);
    }
    forall p | 0 <= p < MAX_FILE_SIZE && p !in ps ensures ByteOf(d', ino, p) == ByteOf(d, ino, p) {
      var r, j := Location(p);
      Located(d, ino, r, j);
      Located(d', ino, r, j);
    }
  }

  lemma InSpan(x: nat, m: nat)
    ensures forall p: nat :: p in Span(x, m) <==> x <= p < x + m
  {
    forall p: nat | x <= p < x + m ensures p in Span(x, m) { assert Span(x, m)[p - x] == p; }
  }

  lemma Location(p: nat) returns (q: nat, j: nat)
    requires p < MAX_FILE_SIZE
    ensures p == q * BLOCK_SIZE + j && q < LEAVES && j < BLOCK_SIZE
  {
    q, j := p / BLOCK_SIZE, p % BLOCK_SIZE;
  }

  lemma Located(d: Disk, ino: nat, q: nat, j: nat)
    requires q < LEAVES && j < BLOCK_SIZE
    ensures q * BLOCK_SIZE + j < MAX_FILE_SIZE && ByteOf(d, ino, q * BLOCK_SIZE + j) == FByte(d, ino, q, j)
  {
    hide FByte;
  }

  lemma LaidTwice(d: Disk, d1: Disk, d2: Disk, ino: nat, ps: seq<nat>, bs: seq<Byte>, qs: seq<nat>, cs: seq<Byte>,
          x: nat)
    requires Laid(d, d1, ino, ps, bs) && Laid(d1, d2, ino, qs, cs) && Below(ps, x) && AllFrom(qs, x)
    ensures Laid(d, d2, ino, ps + qs, bs + cs)
  {
    hide ByteOf;
    forall i | 0 <= i < |ps| ensures ByteOf(d2, ino, ps[i]) == bs[i] {
      assert ps[i] !in qs;
    }
  }

  /** Position i of ps lies in a leaf that is not there. */
  ghost predicate NextMissing(d: Disk, ino: nat, ps: seq<nat>, i: nat) {
    i < |ps| && ps[i] < MAX_FILE_SIZE && PtrAt(d, ino, LeafSlot(ps[i] / BLOCK_SIZE)) == None
  }

  /** Bytes w0 to w of the data were laid at the first of the positions ps: all of them, or, if the disk was full, as
      many as there were leaves for, of the m bytes before the first zero byte. */
  ghost predicate Strewn(d: Disk, d': Disk, ino: nat, ps: seq<nat>, data: seq<Byte>, w0: nat, w: nat, m: nat,
          stuck: bool) {
    && w0 <= w <= |data| && w - w0 <= |ps|
    && Laid(d, d', ino, ps[..w - w0], data[w0..w])
    && (!stuck ==> w - w0 == |ps|)
    && (stuck ==> w == m || NextMissing(d', ino, ps, w - w0))
  }

  lemma StrewnNone(d: Disk, d': Disk, ino: nat, data: seq<Byte>, w: nat, m: nat)
    requires w <= |data| && Laid(d, d', ino, [], [])
    ensures Strewn(d, d', ino, [], data, w, w, m, false)
  {
    hide Laid, NextMissing;
    var none: seq<nat> := [];
    assert data[w..w] == [] && none[..0] == none;
  }

  lemma StrewnLeaf(d: Disk, d': Disk, ino: nat, q: nat, o: nat, data: seq<Byte>, w: nat, w': nat, m: nat)
    requires w <= w' <= |data| && FileSteps.LeafWritten(d, d', ino, q, o, data[w..w'])
    ensures Strewn(d, d', ino, Span(q * BLOCK_SIZE + o, w' - w), data, w, w', m, false)
  {
    hide FByte, PtrAt, Laid, NextMissing;
    LaidLeaf(d, d', ino, q, o, data[w..w']);
    assert Span(q * BLOCK_SIZE + o, w' - w)[..w' - w] == Span(q * BLOCK_SIZE + o, w' - w);
  }

  /** Blocks ran out before the next byte was laid, or when none was left. */
  lemma StrewnStuck(d: Disk, d': Disk, ino: nat, ps: seq<nat>, qs: seq<nat>, data: seq<Byte>, w0: nat, w: nat, m: nat)
    requires Strewn(d, d', ino, ps, data, w0, w, m, false) && (w == m || NextMissing(d', ino, qs, 0))
    ensures Strewn(d, d', ino, ps + qs, data, w0, w, m, true)
  {
    hide Laid, PtrAt, LeafSlot;
    assert (ps + qs)[..w - w0] == ps == ps[..w - w0];
  }

  lemma StrewnTwice(d: Disk, d1: Disk, d2: Disk, ino: nat, ps: seq<nat>, qs: seq<nat>, data: seq<Byte>, w0: nat,
          w1: nat, w2: nat, m: nat, stuck: bool, x: nat)
    requires Strewn(d, d1, ino, ps, data, w0, w1, m, false) && Strewn(d1, d2, ino, qs, data, w1, w2, m, stuck)
    requires Below(ps, x) && AllFrom(qs, x)
    ensures Strewn(d, d2, ino, ps + qs, data, w0, w2, m, stuck)
  {
    hide Laid, PtrAt, LeafSlot;
    assert ps[..w1 - w0] == ps;
    assert (ps + qs)[..w2 - w0] == ps + qs[..w2 - w1];
    assert data[w0..w2] == data[w0..w1] + data[w1..w2];
    LaidTwice(d, d1, d2, ino, ps, data[w0..w1], qs[..w2 - w1], data[w1..w2], x);
  }

  /** Nothing was laid first. */
  lemma LaidFirst(d: Disk, d1: Disk, d2: Disk, ino: nat, ps: seq<nat>, data: seq<Byte>, w0: nat, w: nat, m: nat,
          stuck: bool)
    requires Laid(d, d1, ino, [], []) && Strewn(d1, d2, ino, ps, data, w0, w, m, stuck)
    ensures Strewn(d, d2, ino, ps, data, w0, w, m, stuck)
  {
    hide Laid, NextMissing;
    StrewnNone(d, d1, ino, data, w0, m);
    StrewnTwice(d, d1, d2, ino, [], ps, data, w0, w0, w, m, stuck, 0);
    assert [] + ps == ps;
  }

  /** Blocks ran out at once. */
  lemma NothingStrewn(d: Disk, ino: nat, ps: seq<nat>, data: seq<Byte>, w: nat, m: nat)
    requires w <= |data| && (w == m || NextMissing(d, ino, ps, 0))
    ensures Strewn(d, d, ino, ps, data, w, w, m, true)
  {
    hide Laid, FByte, NextMissing;
    LaidNone(d, d, ino);
    StrewnNone(d, d, ino, data, w, m);
    StrewnStuck(d, d, ino, [], ps, data, w, w, m);
    assert [] + ps == ps;
  }

  /** The first position of a level lies in its first leaf. */
  lemma FirstMissing(d: Disk, ino: nat, lo: nat, hi: nat, o: nat, left: nat)
    requires lo < hi <= LEAVES && o < BLOCK_SIZE && PtrAt(d, ino, LeafSlot(lo)) == None
    ensures left == 0 || NextMissing(d, ino, Stretch(lo, hi, o, left, MAX_FILE_SIZE), 0)
  {
    hide PtrAt, LeafSlot, Stretch;
    if left > 0 {
      StretchFirst(lo, hi, o, left, MAX_FILE_SIZE);
      SegmentOf(lo, o);
    }
  }

  // ---------------------------------------------------------------- a level in parts

  /** The leaves of a level from lo to i are done: their bytes lie at ps, and the level goes on from there to hi. */
  ghost predicate SoFar(d: Disk, d': Disk, ino: nat, ps: seq<nat>, data: seq<Byte>, w0: nat, w: nat, lo: nat, i: nat,
          hi: nat, o: nat, m: nat) {
    && lo <= i <= hi && w0 <= w <= m && Strewn(d, d', ino, ps, data, w0, w, m, false) && Below(ps, i * BLOCK_SIZE)
    && ps + Stretch(i, hi, o, m - w, MAX_FILE_SIZE) == Stretch(lo, hi, o, m - w0, MAX_FILE_SIZE)
  }

  lemma SoFarNone(d: Disk, d': Disk, ino: nat, data: seq<Byte>, w: nat, lo: nat, hi: nat, o: nat, m: nat)
    requires lo <= hi && w <= m <= |data| && Laid(d, d', ino, [], [])
    ensures SoFar(d, d', ino, [], data, w, w, lo, lo, hi, o, m)
  {
    hide Stretch, Laid, Strewn;
    StrewnNone(d, d', ino, data, w, m);
    assert [] + Stretch(lo, hi, o, m - w, MAX_FILE_SIZE) == Stretch(lo, hi, o, m - w, MAX_FILE_SIZE);
  }

  /** The leaves from i to j come next. */
  lemma SoFarMore(d: Disk, d1: Disk, d2: Disk, ino: nat, ps: seq<nat>, data: seq<Byte>, w0: nat, w: nat, w1: nat,
          lo: nat, i: nat, j: nat, hi: nat, o: nat, m: nat, stuck: bool)
    requires SoFar(d, d1, ino, ps, data, w0, w, lo, i, hi, o, m) && i <= j <= hi && w1 <= m
    requires Strewn(d1, d2, ino, Stretch(i, j, o, m - w, MAX_FILE_SIZE), data, w, w1, m, stuck)
    ensures !stuck ==>
            SoFar(d, d2, ino, ps + Stretch(i, j, o, m - w, MAX_FILE_SIZE), data, w0, w1, lo, j, hi, o, m)
    ensures stuck ==> Strewn(d, d2, ino, Stretch(lo, hi, o, m - w0, MAX_FILE_SIZE), data, w0, w1, m, true)
  {
    hide Stretch, Laid;
    var qs := Stretch(i, j, o, m - w, MAX_FILE_SIZE);
    var rest := Stretch(j, hi, o, m - w - |qs|, MAX_FILE_SIZE);
    StretchWithin(i, j, o, m - w, MAX_FILE_SIZE);
    StretchSplit(i, j, hi, o, m - w, MAX_FILE_SIZE);
    hide Strewn;
    StrewnTwice(d, d1, d2, ino, ps, qs, data, w0, w, w1, m, stuck, i * BLOCK_SIZE);
    assert ps + (qs + rest) == ps + qs + rest;
    if stuck {
      StrewnLonger(d, d2, ino, ps + qs, rest, data, w0, w1, m);
    } else {
      assert |qs| == w1 - w by { StrewnAll(d1, d2, ino, qs, data, w, w1, m); }
    }
  }

  lemma StrewnAll(d: Disk, d': Disk, ino: nat, ps: seq<nat>, data: seq<Byte>, w0: nat, w: nat, m: nat)
    requires Strewn(d, d', ino, ps, data, w0, w, m, false)
    ensures w0 <= w <= |data| && |ps| == w - w0
  {
    hide Laid;
  }

  lemma StrewnLonger(d: Disk, d': Disk, ino: nat, ps: seq<nat>, rest: seq<nat>, data: seq<Byte>, w0: nat, w: nat,
          m: nat)
    requires Strewn(d, d', ino, ps, data, w0, w, m, true)
    ensures Strewn(d, d', ino, ps + rest, data, w0, w, m, true)
  {
    hide Laid, PtrAt, LeafSlot;
    assert (ps + rest)[..w - w0] == ps[..w - w0];
  }

  /** Leaf i could not be had. */
  lemma SoFarStuck(d: Disk, d': Disk, ino: nat, ps: seq<nat>, data: seq<Byte>, w0: nat, w: nat, lo: nat, i: nat,
          hi: nat, o: nat, m: nat)
    requires SoFar(d, d', ino, ps, data, w0, w, lo, i, hi, o, m)
    requires i < hi <= LEAVES && o < BLOCK_SIZE && PtrAt(d', ino, LeafSlot(i)) == None
    ensures Strewn(d, d', ino, Stretch(lo, hi, o, m - w0, MAX_FILE_SIZE), data, w0, w, m, true)
  {
    hide Stretch, Strewn, PtrAt, LeafSlot, NextMissing;
    FirstMissing(d', ino, i, hi, o, m - w);
    StrewnStuck(d, d', ino, ps, Stretch(i, hi, o, m - w, MAX_FILE_SIZE), data, w0, w, m);
  }

  /** The level is used up, or the bytes are. */
  lemma SoFarDone(d: Disk, d': Disk, ino: nat, ps: seq<nat>, data: seq<Byte>, w0: nat, w: nat, lo: nat, i: nat,
          hi: nat, o: nat, m: nat)
    requires SoFar(d, d', ino, ps, data, w0, w, lo, i, hi, o, m) && (i == hi || w == m)
    ensures Strewn(d, d', ino, Stretch(lo, hi, o, m - w0, MAX_FILE_SIZE), data, w0, w, m, false)
  {
    hide Stretch, Laid;
    NothingToStretch(i, hi, o, m - w, MAX_FILE_SIZE);
    assert ps + [] == ps;
  }

  /** One leaf, as a level of its own. */
  lemma LeafStrewn(d: Disk, d': Disk, ino: nat, data: seq<Byte>, n: nat, w: nat, w1: nat, i: nat, o: nat)
    requires n <= |data| && w <= Solid(data, n) && i < LEAVES && o < BLOCK_SIZE && w <= w1 <= n
    requires FileSteps.LeafWritten(d, d', ino, i, o, data[w..w1]) && NoZero(data[w..w1])
    requires w1 == n || w1 - w == BLOCK_SIZE - o || data[w1] == 0
    ensures var m := Solid(data, n);
            && w1 <= m && w1 - w == (if m - w <= BLOCK_SIZE - o then m - w else BLOCK_SIZE - o)
            && Strewn(d, d', ino, Stretch(i, i + 1, o, m - w, MAX_FILE_SIZE), data, w, w1, m, false)
  {
    hide Stretch, FByte, PtrAt, Laid, Strewn, NoZero, Solid;
    var m := Solid(data, n);
    StretchRound(data, n, i, i + 1, o, w, w1);
    NothingToStretch(i + 1, i + 1, o, m - w1, MAX_FILE_SIZE);
    StrewnLeaf(d, d', ino, i, o, data, w, w1, m);
    assert Span(i * BLOCK_SIZE + o, w1 - w) + [] == Span(i * BLOCK_SIZE + o, w1 - w);
  }
}
