/** Which positions of a file rd_read copies, in which order. */
module ReadPath {
  import opened Disk

  /** The bytes the inner loop takes from leaf q, from position o on, of a file of the given size. */
  function Here(q: nat, o: nat, left: nat, size: nat): nat {
    var stop := if size >= (q + 1) * BLOCK_SIZE then BLOCK_SIZE else if size > q * BLOCK_SIZE
        then size - q * BLOCK_SIZE else 0;
    if o >= stop then 0 else if left <= stop - o then left else stop - o
  }

  function Span(p: nat, m: nat): seq<nat> { seq(m, i requires 0 <= i < m => p + i) }

  /** The positions one level visits: leaves lo to hi, each from position o on, until left bytes are read. */
  function Stretch(lo: nat, hi: nat, o: nat, left: nat, size: nat): (ps: seq<nat>)
    ensures |ps| <= left
    ensures forall i :: 0 <= i < |ps| ==> ps[i] < size
    decreases hi - lo
  {
    if lo >= hi || left == 0 then []
    else
      var m := Here(lo, o, left, size);
      Span(lo * BLOCK_SIZE + o, m) + Stretch(lo + 1, hi, o, left - m, size)
  }

  /** With num_bytes 0 the test for the last byte never fires. */
  function Quota(n: nat): nat { if n == 0 then MAX_FILE_SIZE else n }

  function DirectPart(c: nat, n: nat, size: nat): (ps: seq<nat>)
    ensures forall i :: 0 <= i < |ps| ==> ps[i] < size
  {
    var seg, o := c / BLOCK_SIZE, c % BLOCK_SIZE;
    if seg < DIRECT then Stretch(seg, DIRECT, o, Quota(n), size) else []
  }

  function SinglePart(c: nat, n: nat, got: nat, size: nat): (ps: seq<nat>)
    ensures forall i :: 0 <= i < |ps| ==> ps[i] < size
  {
    var seg, o := (c + got) / BLOCK_SIZE, (c + got) % BLOCK_SIZE;
    if got < n && DIRECT <= seg < FIRST_ROW then Stretch(seg, FIRST_ROW, o, n - got, size) else []
  }

  /** Like rd_write, rd_read starts the double-indirect level at leaf 72 + (seg - 72) / 64. */
  function DoublePart(c: nat, n: nat, got: nat, size: nat): (ps: seq<nat>)
    ensures forall i :: 0 <= i < |ps| ==> ps[i] < size
  {
    var seg, o := (c + got) / BLOCK_SIZE, (c + got) % BLOCK_SIZE;
    if got < n && FIRST_ROW <= seg < LEAVES then Stretch(FIRST_ROW + (seg - FIRST_ROW) / PTRS, LEAVES, o, n - got, size)
        else []
  }

  /** The positions a read of n bytes at cursor c visits in a file of the given size. */
  function Visits(c: nat, n: nat, size: nat): (ps: seq<nat>)
    ensures forall i :: 0 <= i < |ps| ==> ps[i] < size
  {
    var a := DirectPart(c, n, size);
    var b := a + SinglePart(c, n, |a|, size);
    b + DoublePart(c, n, |b|, size)
  }

  /** The reads that visit the right positions. */
  predicate ReadDomain(c: nat, n: nat) {
    var seg, o := c / BLOCK_SIZE, c % BLOCK_SIZE;
    seg <= FIRST_ROW && (o == 0 || o + n <= BLOCK_SIZE || seg == DIRECT - 1 || seg == FIRST_ROW - 1)
  }

  lemma SpanLength(p: nat, m: nat)
    ensures |Span(p, m)| == m
  {
  }

  lemma SpanSplit(p: nat, m: nat, k: nat)
    ensures Span(p, m) + Span(p + m, k) == Span(p, m + k)
  {
  }

  /** A level entered on a block boundary is read straight on, to its end or to the last byte wanted. */
  lemma {:induction false} StretchAligned(lo: nat, hi: nat, left: nat, size: nat)
    requires lo <= hi && lo * BLOCK_SIZE + left <= size
    ensures var room := (hi - lo) * BLOCK_SIZE;
            Stretch(lo, hi, 0, left, size) == Span(lo * BLOCK_SIZE, if left <= room then left else room)
    decreases hi - lo
  {
    if lo < hi && left > 0 {
      var m := Here(lo, 0, left, size);
      if left > m {
        StretchAligned(lo + 1, hi, left - m, size);
        var room := (hi - lo - 1) * BLOCK_SIZE;
        SpanSplit(lo * BLOCK_SIZE, m, if left - m <= room then left - m else room);
      } else {
        assert Stretch(lo + 1, hi, 0, 0, size) == [];
      }
    }
  }

  /** A level entered inside a block, when the block is its last or has all the bytes wanted. */
  lemma StretchInside(lo: nat, hi: nat, o: nat, left: nat, size: nat)
    requires lo < hi && o < BLOCK_SIZE && lo * BLOCK_SIZE + o + left <= size
    requires o + left <= BLOCK_SIZE || lo + 1 == hi
    ensures Stretch(lo, hi, o, left, size) == Span(lo * BLOCK_SIZE + o,
            if o + left <= BLOCK_SIZE then left else BLOCK_SIZE - o)
  {
    if left > 0 {
      var m := Here(lo, o, left, size);
      assert Stretch(lo + 1, hi, o, left - m, size) == [];
    }
  }

  /** One level of an aligned read: it goes straight on to the end of the level, or to the last byte. */
  lemma StretchStraight(lo: nat, hi: nat, o: nat, left: nat, size: nat)
    requires lo < hi && o < BLOCK_SIZE && lo * BLOCK_SIZE + o + left <= size
    requires o == 0 || o + left <= BLOCK_SIZE || lo + 1 == hi
    ensures var c := lo * BLOCK_SIZE + o; var room := hi * BLOCK_SIZE - c;
            Stretch(lo, hi, o, left, size) == Span(c, if left <= room then left else room)
  {
    if o == 0 { StretchAligned(lo, hi, left, size); } else { StretchInside(lo, hi, o, left, size); }
  }

  /** Beyond the end of the file there is nothing to visit. */
  lemma {:induction false} StretchBeyond(lo: nat, hi: nat, o: nat, left: nat, size: nat)
    requires size <= lo * BLOCK_SIZE + o
    ensures Stretch(lo, hi, o, left, size) == []
    decreases hi - lo
  {
    if lo < hi && left > 0 {
      StretchBeyond(lo + 1, hi, o, left, size);
      assert Here(lo, o, left, size) == 0;
    }
  }

  /** Entered inside a block, the second block is read from the same position on: its beginning is left out. */
  lemma StretchSkips(lo: nat, hi: nat, o: nat, left: nat, size: nat)
    requires lo + 1 < hi && 0 < o < BLOCK_SIZE && o + left > BLOCK_SIZE && lo * BLOCK_SIZE + o + left <= size
    ensures var ps := Stretch(lo, hi, o, left, size);
            && |ps| >= BLOCK_SIZE - o
            && (|ps| > BLOCK_SIZE - o ==> ps[BLOCK_SIZE - o] == (lo + 1) * BLOCK_SIZE + o)
            && (|ps| < left || |ps| > BLOCK_SIZE - o)
  {
    var m := BLOCK_SIZE - o;
    assert Here(lo, o, left, size) == m;
    var rest := Stretch(lo + 1, hi, o, left - m, size);
    if Here(lo + 1, o, left - m, size) == 0 {
      StretchBeyond(lo + 1, hi, o, left - m, size);
    } else {
      assert rest[0] == (lo + 1) * BLOCK_SIZE + o;
    }
  }

  lemma StretchFirst(lo: nat, hi: nat, o: nat, left: nat, size: nat)
    requires lo < hi && o < BLOCK_SIZE && left > 0 && lo * BLOCK_SIZE + o < size
    ensures Stretch(lo, hi, o, left, size) != [] && Stretch(lo, hi, o, left, size)[0] == lo * BLOCK_SIZE + o
  {
  }

  lemma SegmentOf(seg: nat, o: nat)
    requires o < BLOCK_SIZE
    ensures (seg * BLOCK_SIZE + o) / BLOCK_SIZE == seg && (seg * BLOCK_SIZE + o) % BLOCK_SIZE == o
  {
  }

  lemma DirectIs(c: nat, n: nat, size: nat, seg: nat, o: nat)
    requires c == seg * BLOCK_SIZE + o && o < BLOCK_SIZE
    ensures DirectPart(c, n, size) == if seg < DIRECT then Stretch(seg, DIRECT, o, Quota(n), size) else []
  {
    hide Stretch;
    SegmentOf(seg, o);
  }

  lemma SingleIs(c: nat, n: nat, got: nat, size: nat, seg: nat, o: nat)
    requires c + got == seg * BLOCK_SIZE + o && o < BLOCK_SIZE
    ensures SinglePart(c, n, got, size) ==
            if got < n && DIRECT <= seg < FIRST_ROW then Stretch(seg, FIRST_ROW, o, n - got, size) else []
  {
    hide Stretch;
    SegmentOf(seg, o);
  }

  lemma DoubleIs(c: nat, n: nat, got: nat, size: nat, seg: nat, o: nat)
    requires c + got == seg * BLOCK_SIZE + o && o < BLOCK_SIZE
    ensures DoublePart(c, n, got, size) ==
            if got < n && FIRST_ROW <= seg < LEAVES
                then Stretch(FIRST_ROW + (seg - FIRST_ROW) / PTRS, LEAVES, o, n - got, size) else []
  {
    hide Stretch;
    SegmentOf(seg, o);
  }

  /** The position where a read is going on: on the level's first block it may be inside, later on a boundary. */
  predicate OnTheWay(seg: nat, o: nat, left: nat) {
    o < BLOCK_SIZE && (o == 0 || o + left <= BLOCK_SIZE || seg == DIRECT - 1 || seg == FIRST_ROW - 1)
  }

  lemma DirectStraight(c: nat, n: nat, size: nat, seg: nat, o: nat)
    requires c == seg * BLOCK_SIZE + o && OnTheWay(seg, o, n) && 0 < n && c + n <= size
    ensures DirectPart(c, n, size) == Span(c, if c >= 2048 then 0 else if n <= 2048 - c then n else 2048 - c)
  {
    hide Stretch, Here, DirectPart;
    DirectIs(c, n, size, seg, o);
    if seg < DIRECT { StretchStraight(seg, DIRECT, o, n, size); } else { assert Span(c, 0) == []; }
  }

  lemma SingleStraight(c: nat, n: nat, got: nat, size: nat, seg: nat, o: nat)
    requires got < n && c + got == seg * BLOCK_SIZE + o && OnTheWay(seg, o, n - got) && c + n <= size
    requires seg >= DIRECT
    ensures SinglePart(c, n, got, size) == Span(c + got,
            if c + got >= 18432 then 0 else if c + n <= 18432 then n - got else 18432 - c - got)
  {
    hide Stretch, Here, SinglePart;
    SingleIs(c, n, got, size, seg, o);
    if seg < FIRST_ROW { StretchStraight(seg, FIRST_ROW, o, n - got, size); } else { assert Span(c + got, 0) == []; }
  }

  lemma DoubleStraight(c: nat, n: nat, got: nat, size: nat, o: nat)
    requires got < n && c + got == 18432 + o && OnTheWay(FIRST_ROW, o, n - got) && c + n <= size <= MAX_FILE_SIZE
    ensures DoublePart(c, n, got, size) == Span(c + got, n - got)
  {
    hide Stretch, Here, DoublePart;
    DoubleIs(c, n, got, size, FIRST_ROW, o);
    StretchStraight(FIRST_ROW, LEAVES, o, n - got, size);
  }

  lemma NothingLeft(c: nat, n: nat, got: nat, size: nat)
    requires got >= n
    ensures SinglePart(c, n, got, size) == [] && DoublePart(c, n, got, size) == []
  {
  }

  lemma VisitsStraight(c: nat, n: nat, size: nat)
    requires 0 < n && c + n <= size <= MAX_FILE_SIZE && ReadDomain(c, n)
    ensures Visits(c, n, size) == Span(c, n)
  {
    hide DirectPart, SinglePart, DoublePart, ReadDomain, OnTheWay;
    var seg, o := DomainSplit(c, n);
    var a := DirectPart(c, n, size);
    DirectStraight(c, n, size, seg, o);
    if |a| == n {
      NothingLeft(c, n, |a|, size);
    } else {
      SingleOn(c, n, size, seg, o, |a|);
    }
  }

  lemma DomainSplit(c: nat, n: nat) returns (seg: nat, o: nat)
    requires ReadDomain(c, n)
    ensures c == seg * BLOCK_SIZE + o && OnTheWay(seg, o, n) && seg <= FIRST_ROW
  {
    seg, o := c / BLOCK_SIZE, c % BLOCK_SIZE;
  }

  /** A read that reaches the single-indirect level or starts behind it. */
  lemma SingleOn(c: nat, n: nat, size: nat, seg: nat, o: nat, got: nat)
    requires c == seg * BLOCK_SIZE + o && OnTheWay(seg, o, n) && seg <= FIRST_ROW && c + n <= size <= MAX_FILE_SIZE
    requires got < n && got == if c >= 2048 then 0 else 2048 - c
    ensures var s := SinglePart(c, n, got, size);
            Span(c, got) + s + DoublePart(c, n, got + |s|, size) == Span(c, n)
  {
    hide DirectPart, SinglePart, DoublePart, Stretch, Here, Span;
    var seg1, o1 := if got == 0 then seg else DIRECT, if got == 0 then o else 0;
    SingleStraight(c, n, got, size, seg1, o1);
    var s := SinglePart(c, n, got, size);
    SpanLength(c + got, if c + got >= 18432 then 0 else if c + n <= 18432 then n - got else 18432 - c - got);
    SpanSplit(c, got, |s|);
    if got + |s| == n {
      NothingLeft(c, n, got + |s|, size);
    } else {
      DoubleStraight(c, n, got + |s|, size, if got + |s| == 0 then o else 0);
      SpanSplit(c, got + |s|, n - got - |s|);
    }
  }

  lemma VisitsAstray(c: nat, n: nat, size: nat)
    requires 0 < n && c + n <= size <= MAX_FILE_SIZE && !ReadDomain(c, n)
    ensures Visits(c, n, size) != Span(c, n)
  {
    var seg, o := c / BLOCK_SIZE, c % BLOCK_SIZE;
    hide DirectPart, SinglePart, DoublePart, Stretch, Visits;
    if seg > FIRST_ROW {
      var start := FIRST_ROW + (seg - FIRST_ROW) / PTRS;
      StretchFirst(start, LEAVES, o, n, size);
      VisitsFar(c, n, size, seg, o);
      assert Span(c, n)[0] == c;
    } else {
      var hi := if seg < DIRECT then DIRECT else if seg < FIRST_ROW then FIRST_ROW else LEAVES;
      StretchSkips(seg, hi, o, n, size);
      var ps := Stretch(seg, hi, o, n, size);
      OnlyStretch(c, n, size, seg, o, hi);
      if |ps| > BLOCK_SIZE - o {
        assert Span(c, n)[BLOCK_SIZE - o] == (seg + 1) * BLOCK_SIZE;
        assert Visits(c, n, size)[..|ps|][BLOCK_SIZE - o] == ps[BLOCK_SIZE - o];
      }
    }
  }

  lemma VisitsFar(c: nat, n: nat, size: nat, seg: nat, o: nat)
    requires 0 < n && c == seg * BLOCK_SIZE + o && o < BLOCK_SIZE && FIRST_ROW < seg < LEAVES
    ensures Visits(c, n, size) == Stretch(FIRST_ROW + (seg - FIRST_ROW) / PTRS, LEAVES, o, n, size)
  {
    hide DirectPart, SinglePart, DoublePart, Stretch;
    DirectIs(c, n, size, seg, o);
    SingleIs(c, n, 0, size, seg, o);
    DoubleIs(c, n, 0, size, seg, o);
  }

  /** A read that starts astray begins with the run of its own level; if that run gives only the rest of its
      first block, no later level is entered. */
  lemma OnlyStretch(c: nat, n: nat, size: nat, seg: nat, o: nat, hi: nat)
    requires 0 < n && c == seg * BLOCK_SIZE + o && 0 < o < BLOCK_SIZE && o + n > BLOCK_SIZE
    requires seg <= FIRST_ROW && seg != DIRECT - 1 && seg != FIRST_ROW - 1
    requires hi == if seg < DIRECT then DIRECT else if seg < FIRST_ROW then FIRST_ROW else LEAVES
    ensures var ps := Stretch(seg, hi, o, n, size);
            && |Visits(c, n, size)| >= |ps| && Visits(c, n, size)[..|ps|] == ps
            && (|ps| == BLOCK_SIZE - o ==> Visits(c, n, size) == ps)
  {
    hide DirectPart, SinglePart, DoublePart, Stretch;
    var ps := Stretch(seg, hi, o, n, size);
    DirectIs(c, n, size, seg, o);
    var a := DirectPart(c, n, size);
    if seg >= DIRECT { SingleIs(c, n, 0, size, seg, o); }
    if seg >= FIRST_ROW { DoubleIs(c, n, 0, size, seg, o); }
    if |ps| == BLOCK_SIZE - o {
      SingleIs(c, n, |ps|, size, seg + 1, 0);
      DoubleIs(c, n, |ps|, size, seg + 1, 0);
    }
  }

  /** rd_read visits exactly the bytes from the cursor on if and only if the transfer is in its domain. */
  lemma VisitsIff(c: nat, n: nat, size: nat)
    requires 0 < n && c + n <= size <= MAX_FILE_SIZE
    ensures Visits(c, n, size) == Span(c, n) <==> ReadDomain(c, n)
  {
    if ReadDomain(c, n) { VisitsStraight(c, n, size); } else { VisitsAstray(c, n, size); }
  }

  /** A request for no bytes is answered with bytes wherever the direct blocks have any left. */
  lemma VisitsForNothing(c: nat, size: nat)
    requires c <= size <= MAX_FILE_SIZE
    ensures Visits(c, 0, size) == [] <==> c == size || c / BLOCK_SIZE >= DIRECT
  {
    var seg, o := c / BLOCK_SIZE, c % BLOCK_SIZE;
    NothingLeft(c, 0, |DirectPart(c, 0, size)|, size);
    if seg < DIRECT {
      if c < size { StretchFirst(seg, DIRECT, o, MAX_FILE_SIZE, size); }
          else { StretchBeyond(seg, DIRECT, o, MAX_FILE_SIZE, size); }
    }
  }

  /** With the cursor in the double-indirect level, what is read inside one block comes from a place in its first row.
      It is the cursor's only in the first block of the level. */
  lemma FarVisits(c: nat, n: nat, size: nat)
    requires 18432 <= c && 0 < n && c + n <= size <= MAX_FILE_SIZE && c % BLOCK_SIZE + n <= BLOCK_SIZE
    ensures Visits(c, n, size) == Span(18432 + 256 * ((c - 18432) / 16384) + c % 256, n)
  {
    hide Stretch, DirectPart, SinglePart, DoublePart, Span;
    var seg, o := c / BLOCK_SIZE, c % BLOCK_SIZE;
    var start := FIRST_ROW + (seg - FIRST_ROW) / PTRS;
    assert (seg - FIRST_ROW) / PTRS == (c - 18432) / 16384;
    DirectIs(c, n, size, seg, o);
    SingleIs(c, n, 0, size, seg, o);
    DoubleIs(c, n, 0, size, seg, o);
    StretchInside(start, LEAVES, o, n, size);
  }
}
