/** Which bytes rd_read delivers, of any file, whatever it holds: the non-zero ones along the leaves it passes. */
module ReadTape {
  import opened Options
  import opened Disk
  import opened FileData
  import opened ReadPath

  // ---------------------------------------------------------------- bytes

  /** The bytes that are not zero, in order. */
  function NonZero(bs: seq<Byte>): (r: seq<Byte>)
    ensures |r| <= |bs| && NoZero(r)
  {
    if bs == [] then [] else (if bs[0] == 0 then [] else [bs[0]]) + NonZero(bs[1..])
  }

  function First(bs: seq<Byte>, n: nat): seq<Byte> { if n <= |bs| then bs[..n] else bs }

  lemma {:induction false} NonZeroSplit(a: seq<Byte>, b: seq<Byte>)
    ensures NonZero(a + b) == NonZero(a) + NonZero(b)
    decreases |a|
  {
    if a == [] {
      assert a + b == b;
    } else {
      assert (a + b)[1..] == a[1..] + b;
      NonZeroSplit(a[1..], b);
    }
  }

  lemma {:induction false} NonZeroNone(bs: seq<Byte>)
    ensures NonZero(bs) == [] <==> forall i :: 0 <= i < |bs| ==> bs[i] == 0
    decreases |bs|
  {
    if bs != [] {
      NonZeroNone(bs[1..]);
      forall i | 0 < i < |bs| ensures bs[i] == bs[1..][i - 1] {}
      assert bs[0] != 0 ==> NonZero(bs) != [];
    }
  }

  /** Bytes without a zero, and then zeros only. */
  lemma {:induction false} NonZeroDense(bs: seq<Byte>, k: nat)
    requires k <= |bs| && forall j :: 0 <= j < |bs| ==> (bs[j] != 0 <==> j < k)
    ensures NonZero(bs) == bs[..k]
    decreases |bs|
  {
    if k == 0 {
      NonZeroNone(bs);
    } else {
      NonZeroDense(bs[1..], k - 1);
      assert bs[..k] == [bs[0]] + bs[1..][..k - 1];
    }
  }

  lemma FirstSplit(a: seq<Byte>, b: seq<Byte>, n: nat)
    ensures First(a + b, n) == First(a, n) + First(b, if n <= |a| then 0 else n - |a|)
  {
  }

  // ---------------------------------------------------------------- leaves

  /** Leaf q of a file from position o on; a leaf that is not there reads as zeros. */
  function LeafTape(d: Disk, ino: nat, q: nat, o: nat): (bs: seq<Byte>)
    requires q < LEAVES && o < BLOCK_SIZE
    ensures |bs| == BLOCK_SIZE - o && forall j :: 0 <= j < |bs| ==> bs[j] == FByte(d, ino, q, o + j)
  {
    var p := PtrAt(d, ino, LeafSlot(q));
    if p == None then DataOf(Zeroed)[o..] else DataOf(BlockAt(d, p.value))[o..]
  }

  /** The leaves lo..hi, each from position o on. */
  function Tape(d: Disk, ino: nat, lo: nat, hi: nat, o: nat): seq<Byte>
    requires hi <= LEAVES && o < BLOCK_SIZE
    decreases hi - lo
  {
    if lo >= hi then [] else LeafTape(d, ino, lo, o) + Tape(d, ino, lo + 1, hi, o)
  }

  /** What reading them delivers, without a limit. */
  function Heard(d: Disk, ino: nat, lo: nat, hi: nat, o: nat): seq<Byte>
    requires hi <= LEAVES && o < BLOCK_SIZE
  {
    NonZero(Tape(d, ino, lo, hi, o))
  }

  lemma HeardStep(d: Disk, ino: nat, lo: nat, hi: nat, o: nat)
    requires hi <= LEAVES && o < BLOCK_SIZE
    ensures lo < hi ==> Heard(d, ino, lo, hi, o) == NonZero(LeafTape(d, ino, lo, o)) + Heard(d, ino, lo + 1, hi, o)
    ensures lo >= hi ==> Heard(d, ino, lo, hi, o) == []
  {
    hide LeafTape, NonZero;
    if lo < hi { NonZeroSplit(LeafTape(d, ino, lo, o), Tape(d, ino, lo + 1, hi, o)); }
        else { NonZeroNone([]); }
  }

  lemma {:induction false} HeardSplit(d: Disk, ino: nat, lo: nat, mid: nat, hi: nat, o: nat)
    requires lo <= mid <= hi <= LEAVES && o < BLOCK_SIZE
    ensures Heard(d, ino, lo, hi, o) == Heard(d, ino, lo, mid, o) + Heard(d, ino, mid, hi, o)
    decreases mid - lo
  {
    hide Heard, LeafTape, NonZero;
    HeardStep(d, ino, lo, hi, o);
    HeardStep(d, ino, lo, mid, o);
    if lo < mid { HeardSplit(d, ino, lo + 1, mid, hi, o); }
  }

  /** Leaves that are not there are not heard. */
  lemma {:induction false} Silent(d: Disk, ino: nat, lo: nat, hi: nat, o: nat)
    requires hi <= LEAVES && o < BLOCK_SIZE && forall q :: lo <= q < hi ==> PtrAt(d, ino, LeafSlot(q)) == None
    ensures Heard(d, ino, lo, hi, o) == []
    decreases hi - lo
  {
    hide Heard, NonZero, PtrAt, LeafSlot;
    HeardStep(d, ino, lo, hi, o);
    if lo < hi {
      assert forall j :: 0 <= j < BLOCK_SIZE - o ==> LeafTape(d, ino, lo, o)[j] == 0;
      NonZeroNone(LeafTape(d, ino, lo, o));
      Silent(d, ino, lo + 1, hi, o);
    }
  }

  // ---------------------------------------------------------------- what a read delivers

  /** The direct level. With n == 0 the test for the last byte, which follows the count, fires only behind a first leaf
      that has nothing. */
  function DirectHeard(d: Disk, ino: nat, c: nat, n: nat): seq<Byte> {
    var seg, o := c / BLOCK_SIZE, c % BLOCK_SIZE;
    if seg >= DIRECT then []
    else if n > 0 then First(Heard(d, ino, seg, DIRECT, o), n)
    else if NonZero(LeafTape(d, ino, seg, o)) == [] then []
    else Heard(d, ino, seg, DIRECT, o)
  }

  /** The single-indirect level, where the cursor has come to c and got bytes are there. */
  function SingleHeard(d: Disk, ino: nat, c: nat, n: nat, got: nat): seq<Byte> {
    var seg, o := c / BLOCK_SIZE, c % BLOCK_SIZE;
    if got < n && DIRECT <= seg < FIRST_ROW then First(Heard(d, ino, seg, FIRST_ROW, o), n - got) else []
  }

  /** The lowest row from i on that is there, or PTRS. */
  function FirstRow(d: Disk, ino: nat, i: nat): (k: nat)
    requires i <= PTRS
    ensures i <= k <= PTRS && (k < PTRS ==> PtrAt(d, ino, RowIx(k)).Some?)
    ensures forall r :: i <= r < k ==> PtrAt(d, ino, RowIx(r)) == None
    decreases PTRS - i
  {
    if i == PTRS || PtrAt(d, ino, RowIx(i)).Some? then i else FirstRow(d, ino, i + 1)
  }

  /** The double-indirect level: from entry (seg - 72) / 64 of the first row that is there, to the end. */
  function DoubleHeard(d: Disk, ino: nat, c: nat, n: nat, got: nat): seq<Byte> {
    var seg, o := c / BLOCK_SIZE, c % BLOCK_SIZE;
    if got < n && FIRST_ROW <= seg < LEAVES
    then First(Heard(d, ino, FIRST_ROW + PTRS * FirstRow(d, ino, 0) + (seg - FIRST_ROW) / PTRS, LEAVES, o), n - got)
    else []
  }

  /** What rd_read delivers from cursor c on, if n bytes are wanted. */
  function Delivered(d: Disk, ino: nat, c: U32, n: nat): seq<Byte> {
    var a := DirectHeard(d, ino, c, n);
    var b := a + SingleHeard(d, ino, Plus32(c, |a|), n, |a|);
    b + DoubleHeard(d, ino, Plus32(c, |b|), n, |b|)
  }

  // ---------------------------------------------------------------- a file that shows text

  /** The bytes of text at the positions ps. */
  function Pick(text: seq<Byte>, ps: seq<nat>): seq<Byte>
    requires forall i :: 0 <= i < |ps| ==> ps[i] < |text|
  {
    seq(|ps|, i requires 0 <= i < |ps| => text[ps[i]])
  }

  lemma PickSpan(text: seq<Byte>, p: nat, m: nat)
    requires p + m <= |text|
    ensures Pick(text, Span(p, m)) == text[p..p + m]
  {
  }

  lemma PickAppend(text: seq<Byte>, ps: seq<nat>, qs: seq<nat>)
    requires forall i :: 0 <= i < |ps| ==> ps[i] < |text|
    requires forall i :: 0 <= i < |qs| ==> qs[i] < |text|
    ensures forall i :: 0 <= i < |ps + qs| ==> (ps + qs)[i] < |text|
    ensures Pick(text, ps + qs) == Pick(text, ps) + Pick(text, qs)
  {
  }

  lemma PickNone(text: seq<Byte>)
    ensures Pick(text, []) == []
  {
  }

  lemma PickLength(text: seq<Byte>, ps: seq<nat>)
    requires forall i :: 0 <= i < |ps| ==> ps[i] < |text|
    ensures |Pick(text, ps)| == |ps|
  {
  }

  /** One leaf of a file that shows text. */
  lemma LeafShown(d: Disk, ino: nat, text: seq<Byte>, q: nat, o: nat)
    requires Shows(d, ino, text) && q < LEAVES && o < BLOCK_SIZE
    ensures var m := Here(q, o, BLOCK_SIZE, |text|);
            && (m == 0 || q * BLOCK_SIZE + o + m <= |text|)
            && NonZero(LeafTape(d, ino, q, o)) == if m == 0 then []
                   else text[q * BLOCK_SIZE + o..q * BLOCK_SIZE + o + m]
  {
    hide FByte;
    var m, bs := Here(q, o, BLOCK_SIZE, |text|), LeafTape(d, ino, q, o);
    forall j | 0 <= j < |bs|
      ensures bs[j] == if q * BLOCK_SIZE + o + j < |text| then text[q * BLOCK_SIZE + o + j] else 0
      ensures bs[j] != 0 <==> j < m
    {
      assert bs[j] == FByte(d, ino, q, o + j);
    }
    NonZeroDense(bs, m);
  }

  /** A level of a file that shows text, with left bytes to go. */
  lemma {:induction false} StretchShown(d: Disk, ino: nat, text: seq<Byte>, lo: nat, hi: nat, o: nat, left: nat)
    requires Shows(d, ino, text) && hi <= LEAVES && o < BLOCK_SIZE
    ensures First(Heard(d, ino, lo, hi, o), left) == Pick(text, Stretch(lo, hi, o, left, |text|))
    decreases hi - lo
  {
    hide Shows, Heard, NonZero, LeafTape, Pick, Here;
    PickNone(text);
    HeardStep(d, ino, lo, hi, o);
    if lo < hi && left > 0 {
      var k, m := Here(lo, o, BLOCK_SIZE, |text|), Here(lo, o, left, |text|);
      HereCut(lo, o, left, |text|);
      LeafShown(d, ino, text, lo, o);
      FirstSplit(NonZero(LeafTape(d, ino, lo, o)), Heard(d, ino, lo + 1, hi, o), left);
      StretchShown(d, ino, text, lo + 1, hi, o, left - m);
      PickAppend(text, Span(lo * BLOCK_SIZE + o, m), Stretch(lo + 1, hi, o, left - m, |text|));
      if m > 0 { PickSpan(text, lo * BLOCK_SIZE + o, m); }
    }
  }

  lemma HereCut(q: nat, o: nat, left: nat, size: nat)
    requires o < BLOCK_SIZE
    ensures var k := Here(q, o, BLOCK_SIZE, size);
            && Here(q, o, left, size) == (if left <= k then left else k)
            && |Span(q * BLOCK_SIZE + o, Here(q, o, left, size))| == Here(q, o, left, size)
  {
  }

  /** A level has no more than its leaves hold. */
  lemma {:induction false} HeardShort(d: Disk, ino: nat, lo: nat, hi: nat, o: nat)
    requires hi <= LEAVES && o < BLOCK_SIZE && lo <= hi
    ensures |Heard(d, ino, lo, hi, o)| <= (hi - lo) * BLOCK_SIZE
    decreases hi - lo
  {
    hide Heard, NonZero;
    HeardStep(d, ino, lo, hi, o);
    if lo < hi { HeardShort(d, ino, lo + 1, hi, o); }
  }

  lemma DirectShown(d: Disk, ino: nat, text: seq<Byte>, c: nat, n: nat)
    requires Shows(d, ino, text)
    ensures DirectHeard(d, ino, c, n) == Pick(text, DirectPart(c, n, |text|))
  {
    hide Shows, Heard, NonZero, LeafTape, Pick, Stretch;
    PickNone(text);
    var seg, o := c / BLOCK_SIZE, c % BLOCK_SIZE;
    if seg < DIRECT {
      StretchShown(d, ino, text, seg, DIRECT, o, Quota(n));
      if n == 0 {
        HeardShort(d, ino, seg, DIRECT, o);
        LeafShown(d, ino, text, seg, o);
        if NonZero(LeafTape(d, ino, seg, o)) == [] {
          NothingHere(seg, o, |text|);
          StretchBeyond(seg, DIRECT, o, Quota(n), |text|);
        }
      }
    }
  }

  lemma NothingHere(q: nat, o: nat, size: nat)
    requires o < BLOCK_SIZE && Here(q, o, BLOCK_SIZE, size) == 0
    ensures size <= q * BLOCK_SIZE + o
  {
  }

  lemma SingleShown(d: Disk, ino: nat, text: seq<Byte>, c: nat, n: nat, got: nat)
    requires Shows(d, ino, text)
    ensures SingleHeard(d, ino, c + got, n, got) == Pick(text, SinglePart(c, n, got, |text|))
  {
    hide Shows, Heard, Pick, Stretch;
    PickNone(text);
    var seg, o := (c + got) / BLOCK_SIZE, (c + got) % BLOCK_SIZE;
    if got < n && DIRECT <= seg < FIRST_ROW { StretchShown(d, ino, text, seg, FIRST_ROW, o, n - got); }
  }

  /** A row that is not there lies beyond the text. */
  lemma RowBeyond(d: Disk, ino: nat, text: seq<Byte>, k: nat)
    requires Shows(d, ino, text) && k < PTRS && PtrAt(d, ino, RowIx(k)) == None
    ensures |text| <= (FIRST_ROW + PTRS * k) * BLOCK_SIZE
  {
    RowLeaf(k, 0);
    assert PtrAt(d, ino, LeafSlot(FIRST_ROW + PTRS * k)) == None;
    hide PtrAt, LeafSlot;
    assert FByte(d, ino, FIRST_ROW + PTRS * k, 0) == 0;
  }

  lemma DoubleShown(d: Disk, ino: nat, text: seq<Byte>, c: nat, n: nat, got: nat)
    requires Shows(d, ino, text)
    ensures DoubleHeard(d, ino, c + got, n, got) == Pick(text, DoublePart(c, n, got, |text|))
  {
    hide Shows, Heard, Pick, Stretch, PtrAt, FirstRow;
    PickNone(text);
    var seg, o := (c + got) / BLOCK_SIZE, (c + got) % BLOCK_SIZE;
    if got < n && FIRST_ROW <= seg < LEAVES {
      var lo, k := FIRST_ROW + (seg - FIRST_ROW) / PTRS, FirstRow(d, ino, 0);
      StretchShown(d, ino, text, lo, LEAVES, o, n - got);
      if k > 0 {
        RowBeyond(d, ino, text, 0);
        StretchShown(d, ino, text, lo + PTRS * k, LEAVES, o, n - got);
        StretchBeyond(lo, LEAVES, o, n - got, |text|);
        StretchBeyond(lo + PTRS * k, LEAVES, o, n - got, |text|);
      }
    }
  }

  /** Of a file that shows text, a read inside it delivers the bytes at the positions it visits. */
  lemma DeliveredShown(d: Disk, ino: nat, text: seq<Byte>, c: U32, n: nat)
    requires Shows(d, ino, text) && c + n <= |text|
    ensures Delivered(d, ino, c, n) == Pick(text, Visits(c, n, |text|))
  {
    hide Shows, DirectHeard, SingleHeard, DoubleHeard, Pick, DirectPart, SinglePart, DoublePart;
    assert |text| <= MAX_FILE_SIZE by { TextBound(d, ino, text); }
    var a := DirectPart(c, n, |text|);
    DirectShown(d, ino, text, c, n);
    PickLength(text, a);
    DirectInside(c, n, |text|);
    assert Plus32(c, |a|) == c + |a|;
    SingleShown(d, ino, text, c, n, |a|);
    PickAppend(text, a, SinglePart(c, n, |a|, |text|));
    var b := a + SinglePart(c, n, |a|, |text|);
    PickLength(text, b);
    SingleInside(c, n, |a|, |text|);
    assert Plus32(c, |b|) == c + |b|;
    DoubleShown(d, ino, text, c, n, |b|);
    PickAppend(text, b, DoublePart(c, n, |b|, |text|));
  }

  lemma TextBound(d: Disk, ino: nat, text: seq<Byte>)
    requires Shows(d, ino, text)
    ensures |text| <= MAX_FILE_SIZE
  {
  }

  lemma DirectInside(c: nat, n: nat, size: nat)
    ensures |DirectPart(c, n, size)| <= Quota(n)
  {
    hide Stretch;
  }

  lemma SingleInside(c: nat, n: nat, got: nat, size: nat)
    ensures |SinglePart(c, n, got, size)| <= n
  {
    hide Stretch;
  }
}
