/** Which blocks of a file's tree a write asks for, in which order, and which of them it takes. */
module BlockTour {
  import opened Options
  import opened Disk
  import opened FileData
  import FileSteps
  import opened ReadPath
  import opened WritePath

  // ---------------------------------------------------------------- taking blocks

  /** The slots of a tour that have no pointer, in order. */
  function Lacking(d: Disk, ino: nat, tour: seq<Slot>): seq<Slot> {
    if tour == [] then []
    else (if PtrAt(d, ino, tour[0]) == None then [tour[0]] else []) + Lacking(d, ino, tour[1..])
  }

  /** A file asked for the slots of a tour, one after the other. Each one it lacked took a block that was counted free,
      until there was none left, which is what stuck says; no other pointer came or went. */
  ghost predicate Toured(d: Disk, d': Disk, ino: nat, tour: seq<Slot>, stuck: bool) {
    var ls := Lacking(d, ino, tour);
    var got := if stuck then d.freeBlocks else |ls|;
    && (stuck <==> |ls| > d.freeBlocks)
    && d'.freeBlocks == d.freeBlocks - got
    && forall t :: PtrAt(d', ino, t).Some? <==> PtrAt(d, ino, t).Some? || t in ls[..got]
  }

  lemma {:induction false} LackingSplit(d: Disk, ino: nat, a: seq<Slot>, b: seq<Slot>)
    ensures Lacking(d, ino, a + b) == Lacking(d, ino, a) + Lacking(d, ino, b)
    decreases |a|
  {
    hide PtrAt;
    if a == [] {
      assert a + b == b;
    } else {
      assert (a + b)[0] == a[0] && (a + b)[1..] == a[1..] + b;
      LackingSplit(d, ino, a[1..], b);
    }
  }

  lemma {:induction false} LackingAgree(d: Disk, d': Disk, ino: nat, b: seq<Slot>)
    requires forall t :: t in b ==> (PtrAt(d', ino, t) == None <==> PtrAt(d, ino, t) == None)
    ensures Lacking(d', ino, b) == Lacking(d, ino, b)
    decreases |b|
  {
    hide PtrAt;
    if b != [] {
      assert b[0] in b;
      LackingAgree(d, d', ino, b[1..]);
    }
  }

  lemma {:induction false} LackingFrom(d: Disk, ino: nat, a: seq<Slot>)
    ensures forall t :: t in Lacking(d, ino, a) <==> t in a && PtrAt(d, ino, t) == None
    decreases |a|
  {
    hide PtrAt;
    if a != [] {
      LackingFrom(d, ino, a[1..]);
      assert a == [a[0]] + a[1..];
    }
  }

  lemma TouredNone(d: Disk, d': Disk, ino: nat)
    requires d'.freeBlocks == d.freeBlocks && forall t :: PtrAt(d', ino, t).Some? <==> PtrAt(d, ino, t).Some?
    ensures Toured(d, d', ino, [], false)
  {
    hide PtrAt;
  }

  lemma LackingOne(d: Disk, ino: nat, t: Slot)
    ensures Lacking(d, ino, [t]) == if PtrAt(d, ino, t) == None then [t] else []
  {
    hide PtrAt;
    assert [t][1..] == [];
  }

  /** One slot, which is there afterwards. */
  lemma TouredHere(d: Disk, d': Disk, ino: nat, t: Slot)
    requires d'.freeBlocks + (if PtrAt(d, ino, t) == None then 1 else 0) == d.freeBlocks
    requires forall s :: PtrAt(d', ino, s).Some? <==> PtrAt(d, ino, s).Some? || s == t
    ensures Toured(d, d', ino, [t], false)
  {
    hide PtrAt;
    LackingOne(d, ino, t);
  }

  /** One slot, for which there was no block. */
  lemma TouredStop(d: Disk, ino: nat, t: Slot)
    requires d.freeBlocks == 0 && PtrAt(d, ino, t) == None
    ensures Toured(d, d, ino, [t], true)
  {
    hide PtrAt;
    LackingOne(d, ino, t);
  }

  ghost predicate Disjoint(a: seq<Slot>, b: seq<Slot>) { forall t :: t in b ==> t !in a }

  lemma TouredTwice(d: Disk, d1: Disk, d2: Disk, ino: nat, a: seq<Slot>, b: seq<Slot>, stuck: bool)
    requires Toured(d, d1, ino, a, false) && Toured(d1, d2, ino, b, stuck) && Disjoint(a, b)
    ensures Toured(d, d2, ino, a + b, stuck)
  {
    hide PtrAt, Lacking;
    LackingSplit(d, ino, a, b);
    LackingFrom(d, ino, a);
    LackingAgree(d, d1, ino, b);
    var la, lb := Lacking(d, ino, a), Lacking(d, ino, b);
    assert la[..|la|] == la;
    assert stuck ==> (la + lb)[..d.freeBlocks] == la + lb[..d1.freeBlocks];
    assert !stuck ==> (la + lb)[..|la + lb|] == la + lb[..|lb|];
  }

  /** What comes behind the slot that could not be had is never asked for. */
  lemma TouredLonger(d: Disk, d': Disk, ino: nat, a: seq<Slot>, b: seq<Slot>)
    requires Toured(d, d', ino, a, true)
    ensures Toured(d, d', ino, a + b, true)
  {
    hide PtrAt, Lacking;
    LackingSplit(d, ino, a, b);
    var la, lb := Lacking(d, ino, a), Lacking(d, ino, b);
    assert (la + lb)[..d.freeBlocks] == la[..d.freeBlocks];
  }

  // ---------------------------------------------------------------- the leaves of one level

  /** The leaf where a loop over the leaves lo..hi ends that fills each from position o on, with left bytes to go.
      whole: the request ends with them; otherwise a zero byte follows, which the loop never passes, and it runs on. */
  function PassEnd(lo: nat, hi: nat, o: nat, left: nat, whole: bool): (e: nat)
    requires lo <= hi && o < BLOCK_SIZE
    ensures lo <= e <= hi
    decreases hi - lo
  {
    if lo == hi || (whole && left == 0) then lo
    else PassEnd(lo + 1, hi, o, if left <= BLOCK_SIZE - o then 0 else left - (BLOCK_SIZE - o), whole)
  }

  /** What k leaves hold, each from position o on. */
  function Hold(k: nat, o: nat): nat
    requires o < BLOCK_SIZE
  {
    k * (BLOCK_SIZE - o)
  }

  lemma HoldMore(k: nat, o: nat)
    requires o < BLOCK_SIZE
    ensures Hold(0, o) == 0 && Hold(k + 1, o) == Hold(k, o) + (BLOCK_SIZE - o)
  {
  }

  /** A leaf is passed exactly if the leaves before it do not hold all that is left. */
  lemma {:induction false} PassedIff(lo: nat, hi: nat, o: nat, left: nat, whole: bool, q: nat)
    requires lo <= q < hi && o < BLOCK_SIZE
    ensures q < PassEnd(lo, hi, o, left, whole) <==> !whole || Hold(q - lo, o) < left
    decreases q - lo
  {
    hide Hold;
    HoldMore(0, o);
    if lo < q {
      HoldMore(q - lo - 1, o);
      if !(whole && left == 0) {
        PassedIff(lo + 1, hi, o, if left <= BLOCK_SIZE - o then 0 else left - (BLOCK_SIZE - o), whole, q);
      }
    }
  }

  function RunTour(lo: nat, hi: nat): seq<Slot>
    requires lo <= hi <= LEAVES
  {
    seq(hi - lo, i requires 0 <= i < hi - lo => LeafSlot(lo + i))
  }

  lemma RunTourSnoc(lo: nat, i: nat)
    requires lo <= i < LEAVES
    ensures RunTour(lo, i) + [LeafSlot(i)] == RunTour(lo, i + 1)
  {
    hide LeafSlot;
  }

  lemma RunTourSplit(lo: nat, i: nat, e: nat)
    requires lo <= i <= e <= LEAVES
    ensures RunTour(lo, i) + RunTour(i, e) == RunTour(lo, e)
  {
    hide LeafSlot;
  }

  /** The loops go through the slots of a tree in this order. */
  function Order(t: Slot): nat {
    match t
    case Direct(i) => 3 * i + 2
    case Single(i) => 3 * (DIRECT + i) + 2
    case Row(k, j) => 3 * (FIRST_ROW + PTRS * k + j) + 2
    case SingleIx => 3 * DIRECT
    case DoubleIx => 3 * FIRST_ROW
    case RowIx(k) => 3 * (FIRST_ROW + PTRS * k) + 1
  }

  lemma OrderOfLeaf(q: nat)
    requires q < LEAVES
    ensures Order(LeafSlot(q)) == 3 * q + 2
  {
    if q >= FIRST_ROW { assert q - FIRST_ROW == PTRS * ((q - FIRST_ROW) / PTRS) + (q - FIRST_ROW) % PTRS; }
  }

  /** All slots of the tour lie between x and y. */
  ghost predicate Amid(tour: seq<Slot>, x: nat, y: nat) { forall t :: t in tour ==> x <= Order(t) < y }

  lemma AmidDisjoint(a: seq<Slot>, b: seq<Slot>, x: nat, y: nat, z: nat)
    requires Amid(a, x, y) && Amid(b, y, z)
    ensures Disjoint(a, b)
  {
    hide Order;
  }

  lemma AmidJoin(a: seq<Slot>, b: seq<Slot>, x: nat, y: nat, z: nat)
    requires Amid(a, x, y) && Amid(b, y, z) && x <= y <= z
    ensures Amid(a + b, x, z)
  {
    hide Order;
  }

  lemma RunAmid(lo: nat, hi: nat)
    requires lo <= hi <= LEAVES
    ensures Amid(RunTour(lo, hi), 3 * lo + 2, 3 * hi)
  {
    hide LeafSlot, Order;
    forall t | t in RunTour(lo, hi) ensures 3 * lo + 2 <= Order(t) < 3 * hi {
      var i :| 0 <= i < |RunTour(lo, hi)| && RunTour(lo, hi)[i] == t;
      OrderOfLeaf(lo + i);
    }
  }

  /** A level can be cut in two, as its positions can. */
  lemma {:induction false} PassSplit(lo: nat, mid: nat, hi: nat, o: nat, left: nat, whole: bool)
    requires lo <= mid <= hi <= LEAVES && o < BLOCK_SIZE
    ensures var e, k := PassEnd(lo, hi, o, left, whole), |Stretch(lo, mid, o, left, MAX_FILE_SIZE)|;
            && k <= left
            && PassEnd(lo, mid, o, left, whole) == (if e <= mid then e else mid)
            && (e >= mid ==> PassEnd(mid, hi, o, left - k, whole) == e)
            && (e < mid ==> whole && k == left)
    decreases mid - lo
  {
    hide Stretch;
    if lo == mid {
      NothingToStretch(lo, mid, o, left, MAX_FILE_SIZE);
    } else {
      var k := if left <= BLOCK_SIZE - o then left else BLOCK_SIZE - o;
      RoundIs(lo, mid, o, left, k);
      PassSplit(lo + 1, mid, hi, o, left - k, whole);
      if left == 0 { NothingToStretch(lo, mid, o, left, MAX_FILE_SIZE); }
    }
  }

  // ---------------------------------------------------------------- one level, leaf by leaf

  /** The leaves of a level from lo to i were passed, and rest of the left bytes remain for those from i to hi. */
  ghost predicate Passing(d: Disk, d': Disk, ino: nat, lo: nat, i: nat, hi: nat, o: nat, left: nat, rest: nat,
          whole: bool) {
    && lo <= i <= hi <= LEAVES && o < BLOCK_SIZE
    && Toured(d, d', ino, RunTour(lo, i), false)
    && PassEnd(i, hi, o, rest, whole) == PassEnd(lo, hi, o, left, whole)
  }

  lemma PassingStart(d: Disk, ino: nat, lo: nat, hi: nat, o: nat, left: nat, whole: bool)
    requires lo <= hi <= LEAVES && o < BLOCK_SIZE
    ensures Passing(d, d, ino, lo, lo, hi, o, left, left, whole)
  {
    hide PtrAt, Toured;
    assert RunTour(lo, lo) == [];
    TouredNone(d, d, ino);
  }

  lemma PassingMore(d: Disk, d1: Disk, d2: Disk, ino: nat, lo: nat, i: nat, hi: nat, o: nat, left: nat, rest: nat,
          whole: bool, bytes: seq<Byte>)
    requires Passing(d, d1, ino, lo, i, hi, o, left, rest, whole) && i < hi && !(whole && rest == 0)
    requires FileSteps.LeafWritten(d1, d2, ino, i, o, bytes)
    requires |bytes| == if rest <= BLOCK_SIZE - o then rest else BLOCK_SIZE - o
    ensures Passing(d, d2, ino, lo, i + 1, hi, o, left, rest - |bytes|, whole)
  {
    hide PtrAt, LeafSlot, FByte, Toured, RunTour;
    LeafToured(d1, d2, ino, i, o, bytes);
    NextLeaf(lo, i);
    TouredTwice(d, d1, d2, ino, RunTour(lo, i), [LeafSlot(i)], false);
  }

  lemma LeafToured(d: Disk, d': Disk, ino: nat, q: nat, o: nat, bytes: seq<Byte>)
    requires FileSteps.LeafWritten(d, d', ino, q, o, bytes)
    ensures Toured(d, d', ino, [LeafSlot(q)], false)
  {
    hide PtrAt, LeafSlot, FByte;
    TouredHere(d, d', ino, LeafSlot(q));
  }

  lemma NextLeaf(lo: nat, i: nat)
    requires lo <= i < LEAVES
    ensures RunTour(lo, i) + [LeafSlot(i)] == RunTour(lo, i + 1) && Disjoint(RunTour(lo, i), [LeafSlot(i)])
  {
    hide LeafSlot, RunTour, Order;
    RunTourSnoc(lo, i);
    RunAmid(lo, i);
    OrderOfLeaf(i);
  }

  lemma PassingDone(d: Disk, d': Disk, ino: nat, lo: nat, i: nat, hi: nat, o: nat, left: nat, rest: nat, whole: bool)
    requires Passing(d, d', ino, lo, i, hi, o, left, rest, whole) && (i == hi || (whole && rest == 0))
    ensures Toured(d, d', ino, RunTour(lo, PassEnd(lo, hi, o, left, whole)), false)
  {
    hide Toured, RunTour;
  }

  lemma PassingStuck(d: Disk, d': Disk, ino: nat, lo: nat, i: nat, hi: nat, o: nat, left: nat, rest: nat, whole: bool)
    requires Passing(d, d', ino, lo, i, hi, o, left, rest, whole) && i < hi && !(whole && rest == 0)
    requires d'.freeBlocks == 0 && PtrAt(d', ino, LeafSlot(i)) == None
    ensures Toured(d, d', ino, RunTour(lo, PassEnd(lo, hi, o, left, whole)), true)
  {
    hide PtrAt, LeafSlot, Toured, RunTour;
    var e := PassEnd(lo, hi, o, left, whole);
    TouredStop(d', ino, LeafSlot(i));
    NextLeaf(lo, i);
    TouredTwice(d, d', d', ino, RunTour(lo, i), [LeafSlot(i)], true);
    RunTourSplit(lo, i + 1, e);
    TouredLonger(d, d', ino, RunTour(lo, i + 1), RunTour(i + 1, e));
  }

  // ---------------------------------------------------------------- whole tours

  function RowEnd(i: nat): nat { FIRST_ROW + PTRS * (i + 1) }

  /** The rows from i on, and their leaves from leaf from to leaf e. */
  function RowsTour(i: nat, from: nat, e: nat): seq<Slot>
    requires i <= PTRS && e <= LEAVES && FIRST_ROW + PTRS * i <= from <= RowEnd(i)
    decreases PTRS - i
  {
    if i == PTRS || from >= e then []
    else RowTour(i, from, if e <= RowEnd(i) then e else RowEnd(i)) + RowsTour(i + 1, RowEnd(i), e)
  }

  function RowTour(i: nat, from: nat, e: nat): seq<Slot>
    requires from <= e <= LEAVES
  {
    [RowIx(i)] + RunTour(from, e)
  }

  /** The slots of the direct stage, with m bytes to lay. */
  function DirectTour(c: nat, m: nat, whole: bool): seq<Slot> {
    if c / BLOCK_SIZE < DIRECT
    then RunTour(c / BLOCK_SIZE, PassEnd(c / BLOCK_SIZE, DIRECT, c % BLOCK_SIZE, m, whole)) else []
  }

  /** Those of the single-indirect stage; if the request is complete there is none. */
  function SingleTour(size: nat, left: nat, whole: bool): seq<Slot> {
    var seg := size / BLOCK_SIZE;
    if DIRECT <= seg < FIRST_ROW && !(whole && left == 0)
    then [SingleIx] + RunTour(seg, PassEnd(seg, FIRST_ROW, size % BLOCK_SIZE, left, whole)) else []
  }

  function DoubleStart(seg: nat): (q: nat)
    requires FIRST_ROW <= seg < LEAVES
    ensures FIRST_ROW <= q < RowEnd(0)
  {
    FIRST_ROW + (seg - FIRST_ROW) / PTRS
  }

  function DoubleTour(size: nat, left: nat, whole: bool): seq<Slot> {
    var seg := size / BLOCK_SIZE;
    if FIRST_ROW <= seg < LEAVES && !(whole && left == 0)
    then [DoubleIx] + RowsTour(0, DoubleStart(seg), PassEnd(DoubleStart(seg), LEAVES, size % BLOCK_SIZE, left, whole))
    else []
  }

  /** Every slot that a write asks for, of a file of the given size, with the cursor at c: m of its bytes come before
      the first zero byte, and whole says that these are all. */
  function WriteTour(c: nat, size: U32, m: nat, whole: bool): seq<Slot> {
    var a, b := |DirectLands(c, m)|, |LowLands(c, size, m)|;
    DirectTour(c, m, whole) + SingleTour(Plus32(size, a), m - a, whole) + DoubleTour(Plus32(size, b), m - b, whole)
  }

  lemma RowAmid(i: nat, from: nat, e: nat)
    requires i < PTRS && FIRST_ROW + PTRS * i <= from <= e <= RowEnd(i) && e <= LEAVES
    ensures Amid(RowTour(i, from, e), 3 * (FIRST_ROW + PTRS * i) + 1, 3 * RowEnd(i) + 1)
  {
    hide RunTour;
    RunAmid(from, e);
  }

  lemma DirectAmid(c: nat, m: nat, whole: bool)
    ensures Amid(DirectTour(c, m, whole), 0, 3 * DIRECT)
  {
    hide RunTour, PassEnd;
    if c / BLOCK_SIZE < DIRECT { RunAmid(c / BLOCK_SIZE, PassEnd(c / BLOCK_SIZE, DIRECT, c % BLOCK_SIZE, m, whole)); }
  }

  lemma SingleAmid(size: nat, left: nat, whole: bool)
    ensures Amid(SingleTour(size, left, whole), 3 * DIRECT, 3 * FIRST_ROW)
  {
    hide RunTour, PassEnd;
    var seg := size / BLOCK_SIZE;
    if DIRECT <= seg < FIRST_ROW { RunAmid(seg, PassEnd(seg, FIRST_ROW, size % BLOCK_SIZE, left, whole)); }
  }

  lemma {:induction false} RowsAmid(i: nat, from: nat, e: nat)
    requires i <= PTRS && e <= LEAVES && FIRST_ROW + PTRS * i <= from <= RowEnd(i)
    ensures Amid(RowsTour(i, from, e), 3 * (FIRST_ROW + PTRS * i) + 1, 3 * LEAVES + 1)
    decreases PTRS - i
  {
    hide RowTour;
    if i < PTRS && from < e {
      RowAmid(i, from, if e <= RowEnd(i) then e else RowEnd(i));
      RowsAmid(i + 1, RowEnd(i), e);
      AmidJoin(RowTour(i, from, if e <= RowEnd(i) then e else RowEnd(i)), RowsTour(i + 1, RowEnd(i), e),
          3 * (FIRST_ROW + PTRS * i) + 1, 3 * RowEnd(i) + 1, 3 * LEAVES + 1);
    }
  }

  lemma DoubleAmid(size: nat, left: nat, whole: bool)
    ensures Amid(DoubleTour(size, left, whole), 3 * FIRST_ROW, 3 * LEAVES + 1)
  {
    hide RowsTour, PassEnd;
    var seg := size / BLOCK_SIZE;
    if FIRST_ROW <= seg < LEAVES {
      RowsAmid(0, DoubleStart(seg), PassEnd(DoubleStart(seg), LEAVES, size % BLOCK_SIZE, left, whole));
    }
  }

  // ---------------------------------------------------------------- the double-indirect level, row by row

  /** The leaf where row i goes on. */
  function RowFrom(start: nat, i: nat): nat { if i == 0 then start else FIRST_ROW + PTRS * i }

  /** The double-indirect block and the rows before row i were passed, along tour, and rest of the left bytes remain. */
  ghost predicate RowsPassed(d: Disk, d': Disk, ino: nat, tour: seq<Slot>, start: nat, i: nat, o: nat, left: nat,
          rest: nat, whole: bool) {
    && FIRST_ROW <= start < RowEnd(0) && i <= PTRS && o < BLOCK_SIZE && rest <= left
    && Toured(d, d', ino, tour, false) && Amid(tour, 3 * FIRST_ROW, 3 * (FIRST_ROW + PTRS * i) + 1)
    && var e := PassEnd(start, LEAVES, o, left, whole);
       && PassEnd(RowFrom(start, i), LEAVES, o, rest, whole) == e
       && tour + RowsTour(i, RowFrom(start, i), e) == [DoubleIx] + RowsTour(0, start, e)
  }

  lemma RowsStart(d: Disk, d': Disk, ino: nat, start: nat, o: nat, left: nat, whole: bool) returns (tour: seq<Slot>)
    requires FIRST_ROW <= start < RowEnd(0) && o < BLOCK_SIZE && Toured(d, d', ino, [DoubleIx], false)
    ensures RowsPassed(d, d', ino, tour, start, 0, o, left, left, whole)
  {
    hide Toured, RowsTour, PassEnd;
    tour := [DoubleIx];
  }

  /** Row i comes next. If blocks run out in it, no later one is asked for. */
  lemma RowsMore(d: Disk, d1: Disk, d2: Disk, ino: nat, tour: seq<Slot>, start: nat, i: nat, o: nat, left: nat,
          rest: nat, whole: bool, stuck: bool) returns (more: seq<Slot>)
    requires RowsPassed(d, d1, ino, tour, start, i, o, left, rest, whole) && i < PTRS && !(whole && rest == 0)
    requires var from := RowFrom(start, i);
             Toured(d1, d2, ino, RowTour(i, from, PassEnd(from, RowEnd(i), o, rest, whole)), stuck)
    ensures var k := |Stretch(RowFrom(start, i), RowEnd(i), o, rest, MAX_FILE_SIZE)|;
            && k <= rest
            && (!stuck ==> RowsPassed(d, d2, ino, more, start, i + 1, o, left, rest - k, whole)
                           || (whole && rest == k && Toured(d, d2, ino, [DoubleIx] + RowsTour(0, start,
                               PassEnd(start, LEAVES, o, left, whole)), false)))
    ensures stuck ==>
            Toured(d, d2, ino, [DoubleIx] + RowsTour(0, start, PassEnd(start, LEAVES, o, left, whole)), true)
  {
    hide Toured, PassEnd, RowTour, Stretch, Amid, RowsTour;
    var from, e := RowFrom(start, i), PassEnd(start, LEAVES, o, left, whole);
    PassSplit(from, RowEnd(i), LEAVES, o, rest, whole);
    var to := if e <= RowEnd(i) then e else RowEnd(i);
    RowsUnfold(i, from, e, o, rest, whole);
    RowAmid(i, from, to);
    var row, later := RowTour(i, from, to), RowsTour(i + 1, RowEnd(i), e);
    more := tour + row;
    AmidDisjoint(tour, row, 3 * FIRST_ROW, 3 * (FIRST_ROW + PTRS * i) + 1, 3 * RowEnd(i) + 1);
    AmidJoin(tour, row, 3 * FIRST_ROW, 3 * (FIRST_ROW + PTRS * i) + 1, 3 * RowEnd(i) + 1);
    TouredTwice(d, d1, d2, ino, tour, row, stuck);
    assert tour + (row + later) == more + later;
    if stuck {
      TouredLonger(d, d2, ino, more, later);
    } else if e < RowEnd(i) {
      RowsOver(i + 1, RowEnd(i), e);
      assert more + [] == more;
    }
  }

  lemma RowsUnfold(i: nat, from: nat, e: nat, o: nat, rest: nat, whole: bool)
    requires i < PTRS && FIRST_ROW + PTRS * i <= from < RowEnd(i) && o < BLOCK_SIZE && !(whole && rest == 0)
    requires e == PassEnd(from, LEAVES, o, rest, whole)
    ensures from < e
    ensures RowsTour(i, from, e)
            == RowTour(i, from, if e <= RowEnd(i) then e else RowEnd(i)) + RowsTour(i + 1, RowEnd(i), e)
  {
    hide RowTour;
  }

  lemma RowsOver(i: nat, from: nat, e: nat)
    requires i <= PTRS && e <= LEAVES && FIRST_ROW + PTRS * i <= from <= RowEnd(i) && (i == PTRS || from >= e)
    ensures RowsTour(i, from, e) == []
  {
  }

  /** The rows are used up, or the bytes are. */
  lemma RowsDone(d: Disk, d': Disk, ino: nat, tour: seq<Slot>, start: nat, i: nat, o: nat, left: nat, rest: nat,
          whole: bool)
    requires RowsPassed(d, d', ino, tour, start, i, o, left, rest, whole) && i > 0
             && (i == PTRS || (whole && rest == 0))
    ensures Toured(d, d', ino, [DoubleIx] + RowsTour(0, start, PassEnd(start, LEAVES, o, left, whole)), false)
  {
    hide Toured, RowsTour, Amid;
    var e := PassEnd(start, LEAVES, o, left, whole);
    RowsOver(i, RowFrom(start, i), e);
    assert tour + [] == tour;
  }

  // ---------------------------------------------------------------- how many

  lemma {:induction false} LackingShort(d: Disk, ino: nat, tour: seq<Slot>)
    ensures |Lacking(d, ino, tour)| <= |tour|
    decreases |tour|
  {
    if tour != [] { LackingShort(d, ino, tour[1..]); }
  }

  lemma {:induction false} LackingAll(d: Disk, ino: nat, tour: seq<Slot>)
    requires forall t :: t in tour ==> PtrAt(d, ino, t) == None
    ensures Lacking(d, ino, tour) == tour
    decreases |tour|
  {
    hide PtrAt;
    if tour != [] {
      assert tour[0] in tour;
      LackingAll(d, ino, tour[1..]);
    }
  }

  lemma {:induction false} LackingNone(d: Disk, ino: nat, tour: seq<Slot>)
    requires forall t :: t in tour ==> PtrAt(d, ino, t).Some?
    ensures Lacking(d, ino, tour) == []
    decreases |tour|
  {
    hide PtrAt;
    if tour != [] {
      assert tour[0] in tour;
      LackingNone(d, ino, tour[1..]);
    }
  }

  /** A request that ends in the direct blocks asks for no others. */
  lemma DirectTourEnds(c: nat, size: U32, m: nat)
    requires |DirectLands(c, m)| == m
    ensures WriteTour(c, size, m, true) == DirectTour(c, m, true) && |DirectTour(c, m, true)| <= DIRECT
  {
    hide Stretch, DirectLands, PassEnd, Plus32;
    assert |LowLands(c, size, m)| == m;
    assert DirectTour(c, m, true) + [] + [] == DirectTour(c, m, true);
  }

  /** A request that comes upon a zero byte in the direct blocks runs on through all of them, but, if the size reached
      lies in the direct blocks as well, no further. */
  lemma ZeroTour(c: nat, size: U32, m: nat)
    requires c / BLOCK_SIZE < DIRECT && Plus32(size, |DirectLands(c, m)|) / BLOCK_SIZE < DIRECT
    ensures WriteTour(c, size, m, false) == RunTour(c / BLOCK_SIZE, DIRECT)
  {
    hide Stretch, DirectLands, PassEnd, Plus32, RunTour;
    var a := |DirectLands(c, m)|;
    ToTheEnd(c / BLOCK_SIZE, DIRECT, c % BLOCK_SIZE, m);
    assert DirectTour(c, m, false) == RunTour(c / BLOCK_SIZE, DIRECT);
    LandsApart(c, size, m);
    assert LowLands(c, size, m) == DirectLands(c, m) + [];
    assert DirectTour(c, m, false) + [] + [] == DirectTour(c, m, false);
  }

  lemma {:induction false} ToTheEnd(lo: nat, hi: nat, o: nat, left: nat)
    requires lo <= hi && o < BLOCK_SIZE
    ensures PassEnd(lo, hi, o, left, false) == hi
    decreases hi - lo
  {
    if lo < hi { ToTheEnd(lo + 1, hi, o, if left <= BLOCK_SIZE - o then 0 else left - (BLOCK_SIZE - o)); }
  }

  // ---------------------------------------------------------------- which slots

  lemma LeafInRun(lo: nat, hi: nat, q: nat)
    requires lo <= hi <= LEAVES && q < LEAVES
    ensures LeafSlot(q) in RunTour(lo, hi) <==> lo <= q < hi
  {
    hide LeafSlot, Order;
    var tour := RunTour(lo, hi);
    OrderOfLeaf(q);
    RunAmid(lo, hi);
    if lo <= q < hi { assert tour[q - lo] == LeafSlot(q); }
  }

  lemma NotAnIndex(q: nat)
    requires q < LEAVES
    ensures var t := LeafSlot(q); t != SingleIx && t != DoubleIx && !t.RowIx?
  {
  }

  /** The double-indirect stage asks for row k exactly if it asks for a leaf of the row, that is, for the one where the
      row goes on. */
  lemma {:induction false} RowsHave(i: nat, from: nat, e: nat, k: nat)
    requires i <= k < PTRS && e <= LEAVES && FIRST_ROW + PTRS * i <= from < RowEnd(i)
    ensures RowIx(k) in RowsTour(i, from, e) <==> (if k == i then from else FIRST_ROW + PTRS * k) < e
    decreases PTRS - i
  {
    hide RowTour;
    if from < e {
      RowInRow(i, from, if e <= RowEnd(i) then e else RowEnd(i), k);
      if k > i { RowsHave(i + 1, RowEnd(i), e, k); } else { LaterRows(i + 1, RowEnd(i), e, k); }
    }
  }

  lemma RowInRow(i: nat, from: nat, e: nat, k: nat)
    requires from <= e <= LEAVES
    ensures RowIx(k) in RowTour(i, from, e) <==> k == i
  {
    hide LeafSlot;
    assert RowTour(i, from, e)[0] == RowIx(i);
    forall t | t in RunTour(from, e) ensures !t.RowIx? {
      var j :| 0 <= j < |RunTour(from, e)| && RunTour(from, e)[j] == t;
      NotAnIndex(from + j);
    }
  }

  lemma LaterRows(i: nat, from: nat, e: nat, k: nat)
    requires i <= PTRS && e <= LEAVES && FIRST_ROW + PTRS * i <= from <= RowEnd(i) && k < i
    ensures RowIx(k) !in RowsTour(i, from, e)
  {
    hide RowsTour;
    RowsAmid(i, from, e);
  }

  lemma {:induction false} LeafInRows(i: nat, from: nat, e: nat, q: nat)
    requires i <= PTRS && e <= LEAVES && FIRST_ROW + PTRS * i <= from <= RowEnd(i) && q < LEAVES
    ensures LeafSlot(q) in RowsTour(i, from, e) <==> from <= q < e
    decreases PTRS - i
  {
    hide RunTour, LeafSlot;
    if i < PTRS && from < e {
      var to := if e <= RowEnd(i) then e else RowEnd(i);
      LeafInRun(from, to, q);
      LeafInRows(i + 1, RowEnd(i), e, q);
      NotAnIndex(q);
    }
  }

  /** Leaf q is passed by a loop that begins at leaf lo and fills each leaf from position o on: the leaves from lo to it
      do not hold all of the left bytes, or a zero byte is to follow them, which is never passed. */
  predicate Passes(lo: nat, o: nat, left: nat, whole: bool, q: nat)
    requires o < BLOCK_SIZE
  {
    lo <= q && (!whole || Hold(q - lo, o) < left)
  }

  lemma RunHas(lo: nat, hi: nat, o: nat, left: nat, whole: bool, q: nat)
    requires lo <= hi <= LEAVES && o < BLOCK_SIZE && q < LEAVES
    ensures LeafSlot(q) in RunTour(lo, PassEnd(lo, hi, o, left, whole)) <==> q < hi && Passes(lo, o, left, whole, q)
    ensures !(whole && left == 0) || !Passes(lo, o, left, whole, q)
  {
    hide PassEnd, RunTour, LeafSlot, Hold;
    LeafInRun(lo, PassEnd(lo, hi, o, left, whole), q);
    if lo <= q < hi { PassedIff(lo, hi, o, left, whole, q); }
  }

  lemma DirectHas(c: nat, m: nat, whole: bool, q: nat)
    requires q < LEAVES
    ensures LeafSlot(q) in DirectTour(c, m, whole)
            <==> q < DIRECT && Passes(c / BLOCK_SIZE, c % BLOCK_SIZE, m, whole, q)
  {
    hide PassEnd, RunTour, LeafSlot, Hold;
    var seg := c / BLOCK_SIZE;
    if seg < DIRECT { RunHas(seg, DIRECT, c % BLOCK_SIZE, m, whole, q); }
  }

  lemma SingleHas(size: nat, left: nat, whole: bool, q: nat)
    requires q < LEAVES
    ensures var seg := size / BLOCK_SIZE;
            && (LeafSlot(q) in SingleTour(size, left, whole)
               <==> DIRECT <= seg && q < FIRST_ROW && Passes(seg, size % BLOCK_SIZE, left, whole, q))
            && (SingleIx in SingleTour(size, left, whole) <==> DIRECT <= seg < FIRST_ROW && (!whole || left > 0))
  {
    hide PassEnd, RunTour, LeafSlot, Hold;
    var seg := size / BLOCK_SIZE;
    NotAnIndex(q);
    if DIRECT <= seg < FIRST_ROW { RunHas(seg, FIRST_ROW, size % BLOCK_SIZE, left, whole, q); }
  }

  lemma DoubleHas(size: nat, left: nat, whole: bool, q: nat, k: nat)
    requires FIRST_ROW <= size / BLOCK_SIZE < LEAVES && q < LEAVES && k < PTRS
    ensures var start := DoubleStart(size / BLOCK_SIZE); var o := size % BLOCK_SIZE;
            && (LeafSlot(q) in DoubleTour(size, left, whole) <==> Passes(start, o, left, whole, q))
            && (DoubleIx in DoubleTour(size, left, whole) <==> !whole || left > 0)
            && (RowIx(k) in DoubleTour(size, left, whole) <==> Passes(start, o, left, whole, RowFrom(start, k)))
  {
    hide PassEnd, RowsTour, LeafSlot, Hold;
    var start, o := DoubleStart(size / BLOCK_SIZE), size % BLOCK_SIZE;
    var e, p := PassEnd(start, LEAVES, o, left, whole), RowFrom(start, k);
    NotAnIndex(q);
    LeafInRows(0, start, e, q);
    RowsHave(0, start, e, k);
    if start <= q { PassedIff(start, LEAVES, o, left, whole, q); }
    PassedIff(start, LEAVES, o, left, whole, p);
  }

  /** Each stage has its own part of the tree. */
  lemma InStage(c: nat, size: U32, m: nat, whole: bool, t: Slot)
    ensures |DirectLands(c, m)| <= m
    ensures var a, b := |DirectLands(c, m)|, |LowLands(c, size, m)|;
            t in WriteTour(c, size, m, whole) <==>
            t in (if Order(t) < 3 * DIRECT then DirectTour(c, m, whole)
                  else if Order(t) < 3 * FIRST_ROW then SingleTour(Plus32(size, a), m - a, whole)
                  else DoubleTour(Plus32(size, b), m - b, whole))
  {
    hide Order, DirectLands, LowLands, Plus32, DirectTour, SingleTour, DoubleTour;
    var a, b := |DirectLands(c, m)|, |LowLands(c, size, m)|;
    LandsApart(c, size, m);
    DirectAmid(c, m, whole);
    SingleAmid(Plus32(size, a), m - a, whole);
    DoubleAmid(Plus32(size, b), m - b, whole);
  }

  /** The slots that a write asks for, one by one: the leaves that each stage passes, which starts from the cursor or
      from the size reached with the bytes before it, the index block of a level in which a leaf is passed, and every
      row in which one is. */
  lemma WriteTourIff(c: nat, size: U32, m: nat, whole: bool, q: nat, k: nat)
    requires q < LEAVES && k < PTRS
    ensures var a, b := |DirectLands(c, m)|, |LowLands(c, size, m)|;
            var s1, s2 := Plus32(size, a), Plus32(size, b); var tour := WriteTour(c, size, m, whole);
            && (LeafSlot(q) in tour <==>
                 if q < DIRECT then Passes(c / BLOCK_SIZE, c % BLOCK_SIZE, m, whole, q)
                 else if q < FIRST_ROW
                 then 2048 <= s1 && Passes(s1 / BLOCK_SIZE, s1 % BLOCK_SIZE, m - a, whole, q)
                 else 18432 <= s2 < MAX_FILE_SIZE
                      && Passes(DoubleStart(s2 / BLOCK_SIZE), s2 % BLOCK_SIZE, m - b, whole, q))
            && (SingleIx in tour <==> 2048 <= s1 < 18432 && (!whole || m > a))
            && (DoubleIx in tour <==> 18432 <= s2 < MAX_FILE_SIZE && (!whole || m > b))
            && (RowIx(k) in tour <==>
                 18432 <= s2 < MAX_FILE_SIZE
                 && var start := DoubleStart(s2 / BLOCK_SIZE);
                    Passes(start, s2 % BLOCK_SIZE, m - b, whole, RowFrom(start, k)))
  {
    hide PassEnd, RunTour, RowsTour, LeafSlot, Passes, DirectLands, LowLands, Plus32, DirectTour, SingleTour,
         DoubleStart, RowFrom, WriteTour;
    var a, b := |DirectLands(c, m)|, |LowLands(c, size, m)|;
    var s1, s2 := Plus32(size, a), Plus32(size, b);
    InStage(c, size, m, whole, LeafSlot(q));
    InStage(c, size, m, whole, SingleIx);
    InStage(c, size, m, whole, DoubleIx);
    InStage(c, size, m, whole, RowIx(k));
    OrderOfLeaf(q);
    DirectHas(c, m, whole, q);
    SingleHas(s1, m - a, whole, q);
    if FIRST_ROW <= s2 / BLOCK_SIZE < LEAVES { DoubleHas(s2, m - b, whole, q, k); }
  }

  // ---------------------------------------------------------------- in which order

  /** No slot comes twice, and each behind those the loops go through earlier. */
  ghost predicate Rising(tour: seq<Slot>) { forall i, j :: 0 <= i < j < |tour| ==> Order(tour[i]) < Order(tour[j]) }

  lemma RisingJoin(a: seq<Slot>, b: seq<Slot>, x: nat, y: nat, z: nat)
    requires Rising(a) && Rising(b) && Amid(a, x, y) && Amid(b, y, z)
    ensures Rising(a + b)
  {
    hide Order;
    forall i, j | 0 <= i < j < |a + b| ensures Order((a + b)[i]) < Order((a + b)[j]) {
      if i < |a| <= j { assert a[i] in a && b[j - |a|] in b; }
    }
  }

  lemma RunRises(lo: nat, hi: nat)
    requires lo <= hi <= LEAVES
    ensures Rising(RunTour(lo, hi))
  {
    hide LeafSlot, Order;
    forall i, j | 0 <= i < j < hi - lo ensures Order(RunTour(lo, hi)[i]) < Order(RunTour(lo, hi)[j]) {
      OrderOfLeaf(lo + i);
      OrderOfLeaf(lo + j);
    }
  }

  lemma IndexRises(t: Slot, lo: nat, hi: nat)
    requires lo <= hi <= LEAVES && Order(t) < 3 * lo + 2
    ensures Rising([t] + RunTour(lo, hi))
  {
    hide RunTour, Order;
    RunRises(lo, hi);
    RunAmid(lo, hi);
    RisingJoin([t], RunTour(lo, hi), 0, 3 * lo + 2, 3 * hi);
  }

  lemma RowRises(i: nat, from: nat, e: nat)
    requires from <= e <= LEAVES && FIRST_ROW + PTRS * i <= from
    ensures Rising(RowTour(i, from, e))
  {
    hide RunTour, Rising;
    IndexRises(RowIx(i), from, e);
  }

  lemma {:induction false} RowsRise(i: nat, from: nat, e: nat)
    requires i <= PTRS && e <= LEAVES && FIRST_ROW + PTRS * i <= from <= RowEnd(i)
    ensures Rising(RowsTour(i, from, e))
    decreases PTRS - i
  {
    hide RowTour, Rising;
    if i < PTRS && from < e {
      var to := if e <= RowEnd(i) then e else RowEnd(i);
      RowRises(i, from, to);
      RowsRise(i + 1, RowEnd(i), e);
      RowAmid(i, from, to);
      RowsAmid(i + 1, RowEnd(i), e);
      RisingJoin(RowTour(i, from, to), RowsTour(i + 1, RowEnd(i), e),
          3 * (FIRST_ROW + PTRS * i) + 1, 3 * RowEnd(i) + 1, 3 * LEAVES + 1);
    } else {
      assert RowsTour(i, from, e) == [];
      NoneRises();
    }
  }

  lemma NoneRises()
    ensures Rising([])
  {
  }

  /** The slots are asked for in the order of the file, an index block before what it leads to, and no slot twice. With
      WriteTourIff this determines the tour. */
  lemma WriteTourRises(c: nat, size: U32, m: nat, whole: bool)
    ensures Rising(WriteTour(c, size, m, whole))
  {
    hide PassEnd, RunTour, RowsTour, Order, Rising, DirectLands, LowLands, Plus32, DirectTour, SingleTour, DoubleTour;
    var a, b := |DirectLands(c, m)|, |LowLands(c, size, m)|;
    LandsApart(c, size, m);
    var x, y, z := DirectTour(c, m, whole), SingleTour(Plus32(size, a), m - a, whole),
                   DoubleTour(Plus32(size, b), m - b, whole);
    StagesRise(c, m, whole, Plus32(size, a), m - a, Plus32(size, b), m - b);
    DirectAmid(c, m, whole);
    SingleAmid(Plus32(size, a), m - a, whole);
    DoubleAmid(Plus32(size, b), m - b, whole);
    RisingJoin(x, y, 0, 3 * DIRECT, 3 * FIRST_ROW);
    AmidJoin(x, y, 0, 3 * DIRECT, 3 * FIRST_ROW);
    RisingJoin(x + y, z, 0, 3 * FIRST_ROW, 3 * LEAVES + 1);
  }

  lemma StagesRise(c: nat, m: nat, whole: bool, s1: nat, left1: nat, s2: nat, left2: nat)
    ensures Rising(DirectTour(c, m, whole)) && Rising(SingleTour(s1, left1, whole))
            && Rising(DoubleTour(s2, left2, whole))
  {
    hide PassEnd, RunTour, RowsTour, Rising;
    NoneRises();
    var seg := c / BLOCK_SIZE;
    if seg < DIRECT { RunRises(seg, PassEnd(seg, DIRECT, c % BLOCK_SIZE, m, whole)); }
    seg := s1 / BLOCK_SIZE;
    if DIRECT <= seg < FIRST_ROW {
      IndexRises(SingleIx, seg, PassEnd(seg, FIRST_ROW, s1 % BLOCK_SIZE, left1, whole));
    }
    seg := s2 / BLOCK_SIZE;
    if FIRST_ROW <= seg < LEAVES {
      var e := PassEnd(DoubleStart(seg), LEAVES, s2 % BLOCK_SIZE, left2, whole);
      RowsRise(0, DoubleStart(seg), e);
      RowsAmid(0, DoubleStart(seg), e);
      DoubleIxRises(RowsTour(0, DoubleStart(seg), e));
    }
  }

  lemma DoubleIxRises(rows: seq<Slot>)
    requires Rising(rows) && Amid(rows, 3 * FIRST_ROW + 1, 3 * LEAVES + 1)
    ensures Rising([DoubleIx] + rows)
  {
    assert Amid([DoubleIx], 0, 3 * FIRST_ROW + 1) && Rising([DoubleIx]);
    RisingJoin([DoubleIx], rows, 0, 3 * FIRST_ROW + 1, 3 * LEAVES + 1);
  }
}
