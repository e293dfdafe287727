/** Pieces written one after the other into the direct blocks, at any alignment, and read back together: when they come
    back in order. */
module Pieces {
  import opened Options
  import Bitmap
  import opened Disk
  import opened FileData
  import FileSteps
  import opened RamDisks
  import opened FdTable
  import opened FileWrite
  import opened FileIo
  import opened ReadPath
  import opened ReadTape
  import FileRead
  import opened WritePath
  import opened BlockTour
  import opened Overwriting
  import opened RoundTrip

  const DIRECT_BYTES: nat := 2048

  // ---------------------------------------------------------------- what the direct blocks hold

  /** The bytes bs laid over an image at the positions ps. */
  function Lay(img: seq<Byte>, ps: seq<nat>, bs: seq<Byte>): (r: seq<Byte>)
    requires |ps| == |bs| && forall i :: 0 <= i < |ps| ==> ps[i] < |img|
    ensures |r| == |img|
    decreases |ps|
  {
    if ps == [] then img else Lay(img[ps[0] := bs[0]], ps[1..], bs[1..])
  }

  lemma {:induction false} LayAt(img: seq<Byte>, ps: seq<nat>, bs: seq<Byte>)
    requires |ps| == |bs| && Increasing(ps) && forall i :: 0 <= i < |ps| ==> ps[i] < |img|
    ensures forall i :: 0 <= i < |ps| ==> Lay(img, ps, bs)[ps[i]] == bs[i]
    ensures forall p :: 0 <= p < |img| && p !in ps ==> Lay(img, ps, bs)[p] == img[p]
    decreases |ps|
  {
    if ps != [] {
      var img1 := img[ps[0] := bs[0]];
      LayAt(img1, ps[1..], bs[1..]);
      var r := Lay(img, ps, bs);
      assert ps[0] !in ps[1..];
      forall i | 0 < i < |ps| ensures r[ps[i]] == bs[i] {
        assert ps[1..][i - 1] == ps[i] && bs[1..][i - 1] == bs[i];
      }
      forall p | 0 <= p < |img| && p !in ps ensures r[p] == img[p] {
        assert p !in ps[1..] && p != ps[0];
      }
    }
  }

  /** Where a piece of n bytes lands, if it lands in the direct blocks. */
  predicate InDirect(c: nat, n: nat) { 0 < n && c / BLOCK_SIZE < DIRECT && |DirectLands(c, n)| == n }

  lemma DirectIsIncreasing(c: nat, n: nat)
    requires InDirect(c, n)
    ensures var ps := DirectLands(c, n);
            Increasing(ps) && Below(ps, DIRECT_BYTES) && AllFrom(ps, c) && ps[0] == c
    ensures c + n <= DIRECT_BYTES
  {
    hide Stretch, Increasing;
    var seg, o := c / BLOCK_SIZE, c % BLOCK_SIZE;
    StretchIncreasing(seg, DIRECT, o, n, MAX_FILE_SIZE);
    StretchWithin(seg, DIRECT, o, n, MAX_FILE_SIZE);
    StretchFirst(seg, DIRECT, o, n, MAX_FILE_SIZE);
    var ps := DirectLands(c, n);
    Spaced(ps);
  }

  lemma Spaced(ps: seq<nat>)
    requires Increasing(ps) && ps != []
    ensures AllFrom(ps, ps[0]) && ps[|ps| - 1] >= ps[0] + |ps| - 1
  {
    SpacedBy(ps, |ps| - 1);
  }

  lemma {:induction false} SpacedBy(ps: seq<nat>, i: nat)
    requires Increasing(ps) && i < |ps|
    ensures ps[i] >= ps[0] + i
  {
    if i > 0 { SpacedBy(ps, i - 1); }
  }

  /** A piece lands straight behind the cursor exactly if the transfer is in the domain of the loops. */
  lemma StraightIff(c: nat, n: nat)
    requires InDirect(c, n)
    ensures DirectLands(c, n) == Span(c, n) <==> ReadDomain(c, n)
  {
    hide Stretch, ReadDomain, Plus32, Increasing;
    DirectIsIncreasing(c, n);
    LandsIff(c, n);
    assert LowLands(c, c, n) == DirectLands(c, n) by {
      NoneLeft(Plus32(c, n));
      assert DirectLands(c, n) + [] == DirectLands(c, n);
    }
    NoneLeft(Plus32(c, n));
    assert DirectLands(c, n) + [] == DirectLands(c, n);
  }

  /** Non-empty pieces without zero bytes that all land in the direct blocks, from cursor c on. */
  predicate StaysDirect(c: nat, pieces: seq<seq<Byte>>)
    decreases |pieces|
  {
    pieces == []
    || (NoZero(pieces[0]) && InDirect(c, |pieces[0]|) && StaysDirect(c + |pieces[0]|, pieces[1..]))
  }

  /** The image after one more piece. */
  function Next(img: seq<Byte>, c: nat, piece: seq<Byte>): (r: seq<Byte>)
    requires |img| == DIRECT_BYTES && InDirect(c, |piece|)
    ensures |r| == DIRECT_BYTES
  {
    DirectIsIncreasing(c, |piece|);
    Lay(img, DirectLands(c, |piece|), piece)
  }

  /** What the direct blocks hold after the pieces were written, if they held img before. */
  function ImageOf(img: seq<Byte>, c: nat, pieces: seq<seq<Byte>>): (r: seq<Byte>)
    requires |img| == DIRECT_BYTES && StaysDirect(c, pieces)
    ensures |r| == DIRECT_BYTES
    decreases |pieces|
  {
    if pieces == [] then img
    else
      ImageOf(Next(img, c, pieces[0]), c + |pieces[0]|, pieces[1..])
  }

  function Blank(): (r: seq<Byte>)
    ensures |r| == DIRECT_BYTES
  {
    seq(2048, _ => 0)
  }

  /** What reading as many bytes as were written delivers then, from the start of a new file. */
  function ReadBack(pieces: seq<seq<Byte>>): seq<Byte>
    requires StaysDirect(0, pieces)
  {
    First(NonZero(ImageOf(Blank(), 0, pieces)), |Flat(pieces)|)
  }

  // ---------------------------------------------------------------- they come back

  /** Every piece but the last one starts on a block boundary, lies inside one block, or in the last direct block. */
  predicate StraightButLast(c: nat, sizes: seq<nat>)
    decreases |sizes|
  {
    |sizes| <= 1 || (ReadDomain(c, sizes[0]) && StraightButLast(c + sizes[0], sizes[1..]))
  }

  function Lengths(pieces: seq<seq<Byte>>): (r: seq<nat>)
    ensures |r| == |pieces|
  {
    seq(|pieces|, i requires 0 <= i < |pieces| => |pieces[i]|)
  }

  /** The image holds text, and nothing behind it. */
  predicate Holds(img: seq<Byte>, text: seq<Byte>) {
    |text| <= |img| && NoZero(text) && forall p :: 0 <= p < |img| ==> img[p] == if p < |text| then text[p] else 0
  }

  /** Non-zero bytes at increasing positions, and zeros elsewhere. */
  lemma {:induction false} NonZeroAt(img: seq<Byte>, ps: seq<nat>, bs: seq<Byte>)
    requires |ps| == |bs| && NoZero(bs) && Increasing(ps) && forall i :: 0 <= i < |ps| ==> ps[i] < |img|
    requires forall i :: 0 <= i < |ps| ==> img[ps[i]] == bs[i]
    requires forall p :: 0 <= p < |img| && p !in ps ==> img[p] == 0
    ensures NonZero(img) == bs
    decreases |img|
  {
    hide NonZero;
    NonZeroNone(img);
    if img == [] {
      assert ps == [];
    } else {
      var n := |img| - 1;
      var front := img[..n];
      assert img == front + [img[n]];
      NonZeroSplit(front, [img[n]]);
      if ps != [] && ps[|ps| - 1] == n {
        var qs, cs := ps[..|ps| - 1], bs[..|ps| - 1];
        forall p | 0 <= p < n && p !in qs ensures front[p] == 0 { assert p !in ps by { NotLast(ps, p); } }
        NonZeroAt(front, qs, cs);
        assert bs == cs + [bs[|ps| - 1]];
        assert img[n] == bs[|ps| - 1] != 0;
        OneByte(img[n]);
      } else {
        if ps != [] { assert forall i :: 0 <= i < |ps| ==> ps[i] <= ps[|ps| - 1] < n; }
        assert n !in ps;
        NonZeroAt(front, ps, bs);
        OneByte(img[n]);
        assert bs + [] == bs;
      }
    }
  }

  lemma NotLast(ps: seq<nat>, p: nat)
    requires ps != [] && p !in ps[..|ps| - 1] && p != ps[|ps| - 1]
    ensures p !in ps
  {
    assert ps == ps[..|ps| - 1] + [ps[|ps| - 1]];
  }

  lemma OneByte(b: Byte)
    ensures NonZero([b]) == if b == 0 then [] else [b]
  {
    assert [b][1..] == [];
  }

  /** A piece laid straight behind the text. */
  lemma HoldsMore(img: seq<Byte>, text: seq<Byte>, piece: seq<Byte>)
    requires |img| == DIRECT_BYTES && Holds(img, text) && InDirect(|text|, |piece|) && NoZero(piece)
    requires ReadDomain(|text|, |piece|)
    ensures Holds(Next(img, |text|, piece), text + piece)
  {
    hide ReadDomain, Stretch, DirectLands;
    var c, ps := |text|, DirectLands(|text|, |piece|);
    StraightIff(c, |piece|);
    DirectIsIncreasing(c, |piece|);
    LayAt(img, ps, piece);
    InSpan(c, |piece|);
    forall p | 0 <= p < |img|
      ensures Lay(img, ps, piece)[p] == if p < |text + piece| then (text + piece)[p] else 0 {
      if c <= p < c + |piece| { assert ps[p - c] == p; } else { assert p !in ps; }
    }
  }

  /** The last piece, anywhere behind the text. */
  lemma LastPiece(img: seq<Byte>, text: seq<Byte>, piece: seq<Byte>)
    requires |img| == DIRECT_BYTES && Holds(img, text) && InDirect(|text|, |piece|) && NoZero(piece)
    ensures NonZero(Next(img, |text|, piece)) == text + piece
  {
    hide Stretch, DirectLands;
    var c, ps := |text|, DirectLands(|text|, |piece|);
    DirectIsIncreasing(c, |piece|);
    LayAt(img, ps, piece);
    InSpan(0, c);
    var all := Span(0, c) + ps;
    var r := Lay(img, ps, piece);
    forall i | 0 <= i < |all| ensures all[i] < |r| && r[all[i]] == (text + piece)[i] {
      if i < c { assert all[i] == i && i !in ps; } else { assert all[i] == ps[i - c]; }
    }
    assert Increasing(all) by { JoinIncreasing(Span(0, c), ps, c); }
    forall p | 0 <= p < |r| && p !in all ensures r[p] == 0 { assert p !in ps && p !in Span(0, c); }
    NonZeroAt(r, all, text + piece);
  }

  lemma ImageStep(img: seq<Byte>, c: nat, pieces: seq<seq<Byte>>)
    requires |img| == DIRECT_BYTES && StaysDirect(c, pieces)
    ensures pieces == [] ==> ImageOf(img, c, pieces) == img && Flat(pieces) == []
    ensures pieces != [] ==>
            && NoZero(pieces[0]) && InDirect(c, |pieces[0]|) && StaysDirect(c + |pieces[0]|, pieces[1..])
            && ImageOf(img, c, pieces) == ImageOf(Next(img, c, pieces[0]), c + |pieces[0]|, pieces[1..])
            && Flat(pieces) == pieces[0] + Flat(pieces[1..])
  {
    hide Lay, InDirect;
  }

  lemma {:induction false} ComesBack(img: seq<Byte>, text: seq<Byte>, pieces: seq<seq<Byte>>)
    requires |img| == DIRECT_BYTES && Holds(img, text) && StaysDirect(|text|, pieces)
    requires StraightButLast(|text|, Lengths(pieces))
    ensures NonZero(ImageOf(img, |text|, pieces)) == text + Flat(pieces)
    decreases |pieces|
  {
    hide ReadDomain, InDirect, Holds, ImageOf, Next, StaysDirect, Flat, NonZero;
    ImageStep(img, |text|, pieces);
    if pieces == [] {
      HoldsNonZero(img, text);
      assert text + [] == text;
    } else {
      var piece, rest := pieces[0], pieces[1..];
      assert text + (piece + Flat(rest)) == text + piece + Flat(rest);
      if |pieces| == 1 {
        LastPiece(img, text, piece);
        ImageStep(Next(img, |text|, piece), |text + piece|, rest);
        assert text + piece + [] == text + piece;
      } else {
        LengthsRest(pieces);
        HoldsMore(img, text, piece);
        ComesBack(Next(img, |text|, piece), text + piece, rest);
      }
    }
  }

  lemma LengthsRest(pieces: seq<seq<Byte>>)
    requires pieces != []
    ensures Lengths(pieces)[0] == |pieces[0]| && Lengths(pieces)[1..] == Lengths(pieces[1..])
  {
  }

  lemma HoldsNonZero(img: seq<Byte>, text: seq<Byte>)
    requires Holds(img, text)
    ensures NonZero(img) == text
  {
    NonZeroDense(img, |text|);
    assert img[..|text|] == text;
  }

  // ---------------------------------------------------------------- they do not

  function Ones(n: nat): (r: seq<Byte>)
    ensures |r| == n && NoZero(r) && forall i :: 0 <= i < n ==> r[i] == 1
  {
    seq(n, _ => 1)
  }

  /** The sizes of pieces that all land in the direct blocks. */
  predicate FitsDirect(c: nat, sizes: seq<nat>)
    decreases |sizes|
  {
    sizes == [] || (InDirect(c, sizes[0]) && FitsDirect(c + sizes[0], sizes[1..]))
  }

  lemma {:induction false} StaysIff(c: nat, pieces: seq<seq<Byte>>)
    requires forall i :: 0 <= i < |pieces| ==> NoZero(pieces[i])
    ensures StaysDirect(c, pieces) <==> FitsDirect(c, Lengths(pieces))
    decreases |pieces|
  {
    hide InDirect;
    if pieces != [] {
      LengthsRest(pieces);
      StaysIff(c + |pieces[0]|, pieces[1..]);
    }
  }

  /** What lies in front of the cursor is never touched again. */
  lemma {:induction false} Untouched(img: seq<Byte>, c: nat, pieces: seq<seq<Byte>>, p: nat)
    requires |img| == DIRECT_BYTES && StaysDirect(c, pieces) && p < c && p < DIRECT_BYTES
    ensures ImageOf(img, c, pieces)[p] == img[p]
    decreases |pieces|
  {
    hide InDirect, ImageOf, StaysDirect, Flat, DirectLands;
    ImageStep(img, c, pieces);
    if pieces != [] {
      NextAt(img, c, pieces[0]);
      Untouched(Next(img, c, pieces[0]), c + |pieces[0]|, pieces[1..], p);
    }
  }

  lemma NextAt(img: seq<Byte>, c: nat, piece: seq<Byte>)
    requires |img| == DIRECT_BYTES && InDirect(c, |piece|)
    ensures c < DIRECT_BYTES && Next(img, c, piece)[c] == piece[0]
    ensures forall p :: 0 <= p < DIRECT_BYTES && p !in DirectLands(c, |piece|) ==> Next(img, c, piece)[p] == img[p]
    ensures forall p :: 0 <= p < c ==> p !in DirectLands(c, |piece|)
  {
    hide DirectLands;
    DirectIsIncreasing(c, |piece|);
    LayAt(img, DirectLands(c, |piece|), piece);
    assert DirectLands(c, |piece|)[0] == c;
  }

  /** A piece that does not land straight leaves a hole in front of where the next one starts. */
  lemma HoleLeft(c: nat, n: nat) returns (p: nat)
    requires InDirect(c, n) && !ReadDomain(c, n)
    ensures c <= p < c + n && p !in DirectLands(c, n)
  {
    hide DirectLands, ReadDomain, Increasing;
    StraightIff(c, n);
    DirectIsIncreasing(c, n);
    if forall x :: c <= x < c + n ==> x in DirectLands(c, n) {
      Dense(DirectLands(c, n), c, n);
    }
    p :| c <= p < c + n && p !in DirectLands(c, n);
  }

  lemma {:induction false} NonZeroShort(bs: seq<Byte>, i: nat)
    requires i < |bs| && bs[i] == 0
    ensures |NonZero(bs)| < |bs|
    decreases i
  {
    if i > 0 { NonZeroShort(bs[1..], i - 1); }
  }

  /** A 2 behind a hole comes too early. */
  lemma TooEarly(img: seq<Byte>, c: nat, hole: nat, right: seq<Byte>)
    requires hole < c < |img| && img[hole] == 0 && img[c] == 2
    requires c < |right| && forall j :: 0 <= j < c ==> right[j] == 1
    ensures First(NonZero(img), |right|) != right
  {
    hide NonZero;
    var a, b := img[..c], img[c + 1..];
    assert img == a + ([img[c]] + b);
    NonZeroSplit(a, [img[c]] + b);
    NonZeroSplit([img[c]], b);
    OneByte(img[c]);
    NonZeroShort(a, hole);
    assert NonZero(img)[|NonZero(a)|] == 2;
  }

  function AllOnes(sizes: seq<nat>): (r: seq<seq<Byte>>)
    ensures |r| == |sizes| && forall i :: 0 <= i < |sizes| ==> |r[i]| == sizes[i] && NoZero(r[i])
  {
    seq(|sizes|, i requires 0 <= i < |sizes| => Ones(sizes[i]))
  }

  /** Contents of these sizes that do not come back in order: ones, and a 2 where the piece behind the first one begins
      that does not land straight. */
  function WrongPieces(c: nat, sizes: seq<nat>): seq<seq<Byte>>
    requires !StraightButLast(c, sizes)
    decreases |sizes|
  {
    if ReadDomain(c, sizes[0]) then [Ones(sizes[0])] + WrongPieces(c + sizes[0], sizes[1..])
    else Breaking(sizes)
  }

  function Breaking(sizes: seq<nat>): seq<seq<Byte>>
    requires |sizes| > 1
  {
    [Ones(sizes[0])] + ([[2] + Ones(if sizes[1] > 0 then sizes[1] - 1 else 0)] + AllOnes(sizes[2..]))
  }

  lemma {:induction false} FallsApart(img: seq<Byte>, c: nat, sizes: seq<nat>)
    requires |img| == DIRECT_BYTES && Holds(img, Ones(c)) && FitsDirect(c, sizes) && !StraightButLast(c, sizes)
    ensures var pieces := WrongPieces(c, sizes);
            && StaysDirect(c, pieces) && Lengths(pieces) == sizes
            && First(NonZero(ImageOf(img, c, pieces)), c + |Flat(pieces)|) != Ones(c) + Flat(pieces)
    decreases |sizes|
  {
    hide ReadDomain, InDirect, Holds, ImageOf, Next, StaysDirect, NonZero, Flat, First, Breaking;
    var n := sizes[0];
    var piece, pieces := Ones(n), WrongPieces(c, sizes);
    if ReadDomain(c, n) {
      OnesJoin(c, n);
      HoldsMore(img, Ones(c), piece);
      FallsApart(Next(img, c, piece), c + n, sizes[1..]);
      var rest := WrongPieces(c + n, sizes[1..]);
      LengthsRest(pieces);
      StaysMore(c, piece, rest);
      ImageStep(img, c, pieces);
      assert Ones(c) + (piece + Flat(rest)) == Ones(c) + piece + Flat(rest);
      assert |Flat(pieces)| == n + |Flat(rest)|;
    } else {
      BreaksHere(img, c, sizes);
    }
  }

  lemma OnesJoin(c: nat, n: nat)
    ensures Ones(c) + Ones(n) == Ones(c + n)
  {
  }

  lemma StaysMore(c: nat, piece: seq<Byte>, rest: seq<seq<Byte>>)
    requires NoZero(piece) && InDirect(c, |piece|) && StaysDirect(c + |piece|, rest)
    ensures StaysDirect(c, [piece] + rest) && ([piece] + rest)[1..] == rest
  {
    hide InDirect;
  }

  lemma BreakingIs(c: nat, sizes: seq<nat>)
    requires FitsDirect(c, sizes) && |sizes| > 1
    ensures var n, m := sizes[0], sizes[1];
            && m > 0 && InDirect(c, n) && InDirect(c + n, m)
            && var one, two, rest := Ones(n), [2] + Ones(m - 1), AllOnes(sizes[2..]);
               && Breaking(sizes) == [one] + ([two] + rest) && NoZero(two)
               && StaysDirect(c, Breaking(sizes)) && StaysDirect(c + n, [two] + rest) && StaysDirect(c + n + m, rest)
               && Breaking(sizes)[1..] == [two] + rest && ([two] + rest)[1..] == rest
               && Lengths(Breaking(sizes)) == sizes
  {
    hide InDirect, StaysDirect;
    var n, m := sizes[0], sizes[1];
    assert sizes[1..][0] == m && sizes[1..][1..] == sizes[2..];
    DirectPositive(c + n, m);
    var one, two, rest := Ones(n), [2] + Ones(m - 1), AllOnes(sizes[2..]);
    assert Lengths(rest) == sizes[2..];
    StaysIff(c + n + m, rest);
    StaysMore(c + n, two, rest);
    StaysMore(c, one, [two] + rest);
    assert Lengths(Breaking(sizes)) == sizes;
  }

  lemma BreaksHere(img: seq<Byte>, c: nat, sizes: seq<nat>)
    requires |img| == DIRECT_BYTES && Holds(img, Ones(c)) && FitsDirect(c, sizes) && |sizes| > 1
    requires !ReadDomain(c, sizes[0])
    ensures var pieces := Breaking(sizes);
            && StaysDirect(c, pieces) && Lengths(pieces) == sizes
            && First(NonZero(ImageOf(img, c, pieces)), c + |Flat(pieces)|) != Ones(c) + Flat(pieces)
  {
    hide ReadDomain, InDirect, ImageOf, Next, StaysDirect, NonZero, Flat, First, DirectLands, Breaking, Lengths,
         FitsDirect, AllOnes;
    BreakingIs(c, sizes);
    var n, m, pieces := sizes[0], sizes[1], Breaking(sizes);
    var one, two, rest := Ones(n), [2] + Ones(m - 1), AllOnes(sizes[2..]);
    ImageStep(img, c, pieces);
    ImageStep(Next(img, c, one), c + n, [two] + rest);
    var img1 := Next(img, c, one);
    var img2 := Next(img1, c + n, two);
    var hole := HoleLeft(c, n);
    NextAt(img, c, one);
    NextAt(img1, c + n, two);
    Untouched(img2, c + n + m, rest, hole);
    Untouched(img2, c + n + m, rest, c + n);
    TooEarly(ImageOf(img, c, pieces), c + n, hole, Ones(c) + Flat(pieces));
  }

  lemma DirectPositive(c: nat, n: nat)
    requires InDirect(c, n)
    ensures n > 0 && c + n <= DIRECT_BYTES
  {
    DirectIsIncreasing(c, n);
  }

  /** Pieces of given sizes, all landing in the direct blocks of a new file, come back in order, whatever is in them, if
      and only if every piece but the last one lands straight behind the one before. */
  lemma BackInOrderIff(sizes: seq<nat>)
    requires FitsDirect(0, sizes)
    ensures StraightButLast(0, sizes) <==>
            forall pieces :: Lengths(pieces) == sizes && StaysDirect(0, pieces) ==> ReadBack(pieces) == Flat(pieces)
  {
    hide ImageOf, StaysDirect, Flat, Lengths, StraightButLast, FitsDirect, First, NonZero;
    assert Holds(Blank(), []) && Ones(0) == [];
    if StraightButLast(0, sizes) {
      forall pieces | Lengths(pieces) == sizes && StaysDirect(0, pieces) ensures ReadBack(pieces) == Flat(pieces) {
        ComesBack(Blank(), [], pieces);
        FirstAll(Flat(pieces));
        assert [] + Flat(pieces) == Flat(pieces);
      }
    } else {
      FallsApart(Blank(), 0, sizes);
      var pieces := WrongPieces(0, sizes);
      assert [] + Flat(pieces) == Flat(pieces);
      assert ReadBack(pieces) != Flat(pieces);
    }
  }

  lemma FirstAll(bs: seq<Byte>)
    ensures First(bs, |bs|) == bs
  {
  }

  // ---------------------------------------------------------------- on the disk

  /** The direct blocks of the file hold the image. */
  ghost predicate Bears(d: Disk, ino: nat, img: seq<Byte>) {
    |img| == DIRECT_BYTES && forall p :: 0 <= p < DIRECT_BYTES ==> ByteOf(d, ino, p) == img[p]
  }

  /** Enough blocks are counted free for all direct blocks that are not there. */
  ghost predicate Covered(d: Disk, ino: nat) { |Lacking(d, ino, RunTour(0, DIRECT))| <= d.freeBlocks }

  lemma EmptyBears(d: Disk, ino: nat)
    requires Shows(d, ino, [])
    ensures Bears(d, ino, Blank())
  {
    hide ByteOf, Shows;
    forall p | 0 <= p < DIRECT_BYTES ensures ByteOf(d, ino, p) == 0 { ShownBytes(d, ino, [], p); }
  }

  lemma RunShare(d: Disk, ino: nat, lo: nat, e: nat)
    requires lo <= e <= DIRECT
    ensures |Lacking(d, ino, RunTour(0, DIRECT))|
            == |Lacking(d, ino, RunTour(0, lo))| + |Lacking(d, ino, RunTour(lo, e))|
               + |Lacking(d, ino, RunTour(e, DIRECT))|
  {
    hide RunTour, Lacking;
    RunTourSplit(0, lo, DIRECT);
    RunTourSplit(lo, e, DIRECT);
    LackingSplit(d, ino, RunTour(0, lo), RunTour(lo, DIRECT));
    LackingSplit(d, ino, RunTour(lo, e), RunTour(e, DIRECT));
  }

  lemma HasOne(tour: seq<Slot>)
    ensures tour == [] || exists t :: t in tour
  {
    if tour != [] { assert tour[0] in tour; }
  }

  /** A write that asks for some of the direct blocks only does not get stuck, and leaves enough for the others. */
  lemma StaysCovered(d: Disk, d': Disk, ino: nat, lo: nat, e: nat, stuck: bool)
    requires lo <= e <= DIRECT && Covered(d, ino) && Toured(d, d', ino, RunTour(lo, e), stuck)
    ensures !stuck && Covered(d', ino)
  {
    hide RunTour, Lacking, PtrAt, Order;
    RunShare(d, ino, lo, e);
    RunShare(d', ino, lo, e);
    var tour := RunTour(lo, e);
    LackingFrom(d, ino, tour);
    LackingFrom(d', ino, tour);
    var ls := Lacking(d, ino, tour);
    assert ls[..|ls|] == ls;
    HasOne(Lacking(d', ino, tour));
    RunAmid(0, lo);
    RunAmid(lo, e);
    RunAmid(e, DIRECT);
    LackingAgree(d, d', ino, RunTour(0, lo));
    LackingAgree(d, d', ino, RunTour(e, DIRECT));
  }

  lemma PieceLaid(d: Disk, d': Disk, ino: nat, img: seq<Byte>, c: nat, piece: seq<Byte>)
    requires Bears(d, ino, img) && InDirect(c, |piece|) && Laid(d, d', ino, DirectLands(c, |piece|), piece)
    ensures Bears(d', ino, Next(img, c, piece))
  {
    hide ByteOf, DirectLands;
    var ps := DirectLands(c, |piece|);
    DirectIsIncreasing(c, |piece|);
    LayAt(img, ps, piece);
    forall p | 0 <= p < DIRECT_BYTES ensures ByteOf(d', ino, p) == Next(img, c, piece)[p] {
      if p in ps {
        var i :| 0 <= i < |ps| && ps[i] == p;
        assert ByteOf(d', ino, ps[i]) == piece[i];
      }
    }
  }

  /** One call of rd_write with one piece. */
  lemma PieceWritten(d: Disk, os: seq<FileObj>, d': Disk, h: nat, ino: nat, img: seq<Byte>, c: nat, piece: seq<Byte>,
          r: int, k: nat)
    requires h < |os| && ino < INODES && Bears(d, ino, img) && Covered(d, ino)
    requires os[h].cursor == c && d.inodes[ino].size == c && InDirect(c, |piece|) && NoZero(piece)
    requires Scattered(d, os, d', h, ino, piece, |piece|, r, k)
    ensures r == k == |piece| && Bears(d', ino, Next(img, c, piece)) && Covered(d', ino)
  {
    hide ByteOf, DirectLands, Solid, Bears, Covered, WriteTour, RunTour, Lacking, PassEnd, PtrAt, Laid, NextMissing,
         Next, Plus32, Toured;
    var n := |piece|;
    SolidAll(piece, n);
    assert piece[..n] == piece && piece[0..n] == piece;
    DirectTourEnds(c, c, n);
    OnlyDirect(c, n);
    var seg := c / BLOCK_SIZE;
    StaysCovered(d, d', ino, seg, PassEnd(seg, DIRECT, c % BLOCK_SIZE, n, true), r == -1);
    var ps := DirectLands(c, n);
    assert ps[..n] == ps;
    PieceLaid(d, d', ino, img, c, piece);
  }

  lemma OnlyDirect(c: nat, n: nat)
    requires InDirect(c, n) && c < 0x1_0000_0000
    ensures Lands(c, c, n) == DirectLands(c, n) && LowLands(c, c, n) == DirectLands(c, n)
  {
    hide DirectLands, Plus32, Stretch;
    NoneLeft(Plus32(c, n));
    assert DirectLands(c, n) + [] == DirectLands(c, n);
  }

  lemma {:induction false} TapeIsImage(d: Disk, ino: nat, img: seq<Byte>, lo: nat)
    requires Bears(d, ino, img) && lo <= DIRECT
    ensures Tape(d, ino, lo, DIRECT, 0) == img[BLOCK_SIZE * lo..]
    decreases DIRECT - lo
  {
    hide FByte, ByteOf, LeafTape;
    if lo < DIRECT {
      TapeIsImage(d, ino, img, lo + 1);
      var leaf := LeafTape(d, ino, lo, 0);
      forall j | 0 <= j < BLOCK_SIZE ensures leaf[j] == img[BLOCK_SIZE * lo + j] {
        assert leaf[j] == FByte(d, ino, lo, 0 + j);
        Located(d, ino, lo, j);
      }
      assert img[BLOCK_SIZE * lo..] == leaf + img[BLOCK_SIZE * (lo + 1)..];
    }
  }

  /** Reading from the start, no more than the direct blocks hold. */
  lemma ImageDelivered(d: Disk, ino: nat, img: seq<Byte>, n: nat)
    requires Bears(d, ino, img) && 0 < n <= DIRECT_BYTES
    ensures Delivered(d, ino, 0, n) == First(NonZero(img), n)
  {
    hide Bears, NonZero, LeafTape, Tape;
    TapeIsImage(d, ino, img, 0);
    assert img[BLOCK_SIZE * 0..] == img;
    var a := DirectHeard(d, ino, 0, n);
    assert a == First(NonZero(img), n);
    assert |a| <= n;
    assert SingleHeard(d, ino, Plus32(0, |a|), n, |a|) == [];
    assert DoubleHeard(d, ino, Plus32(0, |a|), n, |a|) == [];
    assert a + [] + [] == a;
  }

  lemma {:induction false} PiecesFit(c: nat, pieces: seq<seq<Byte>>)
    requires StaysDirect(c, pieces) && (pieces != [] || c <= DIRECT_BYTES)
    ensures c + |Flat(pieces)| <= DIRECT_BYTES
    decreases |pieces|
  {
    hide InDirect;
    if pieces != [] {
      DirectPositive(c, |pieces[0]|);
      PiecesFit(c + |pieces[0]|, pieces[1..]);
    }
  }

  /** The file is written up to c, and its direct blocks hold img. */
  ghost predicate Midway(disk: RamDisk, fds: Table, fd: int, ino: nat, img: seq<Byte>, c: nat)
    reads disk, disk.bitmap, disk.inodes, disk.blocks, fds.files
  {
    && disk.Valid() && fds.Valid() && Apart(disk, fds) && OpenFilesExist(disk, fds) && CanWrite(disk, fds, fd)
    && 0 <= fd < FD_TABLE_SIZE && ino < INODES && fds.files[fd].inode == Some(ino) && fds.files[fd].cursor == c
    && disk.View().inodes[ino].size == c <= DIRECT_BYTES
    && Bears(disk.View(), ino, img) && Covered(disk.View(), ino)
  }

  /** One piece. */
  method WritePiece(disk: RamDisk, fds: Table, fd: int, piece: seq<Byte>, ghost ino: nat, ghost img: seq<Byte>,
          ghost c: nat)
    requires Midway(disk, fds, fd, ino, img, c) && InDirect(c, |piece|) && NoZero(piece)
    modifies disk`freeBlocks, disk`owner, disk.bitmap, disk.inodes, disk.blocks, fds.files
    ensures Midway(disk, fds, fd, ino, Next(img, c, piece), c + |piece|)
  {
    hide Shows, Sound, Bitmap.Used, Bears, Covered, InDirect, Next, Scattered, AtEnd, InDomain, Missing, Needed, Join,
         RamDisk.View, FileSteps.Kept;
    ghost var d, os := disk.View(), fds.files[..];
    DirectPositive(c, |piece|);
    ViewSize(disk);
    ghost var k, g;
    var r;
    r, k, g := RdWrite(disk, fds, fd, piece, |piece|, [], Needed(0));
    PieceWritten(d, os, disk.View(), fd, ino, img, c, piece, r, k);
    WentKeepsTable(d, os, disk.View(), fds.files[..], fd, ino, k);
    WentKeepsAccess(d, os, disk.View(), fds.files[..], fd, ino, k);
    ViewSize(disk);
  }

  lemma ViewSize(disk: RamDisk)
    requires disk.Shape()
    ensures disk.View().inodes == disk.inodes[..]
  {
  }

  lemma StartsMidway(disk: RamDisk, fds: Table, fd: int)
    requires disk.Valid() && fds.Valid() && Apart(disk, fds) && OpenFilesExist(disk, fds)
    requires CanWrite(disk, fds, fd) && Built(disk, fds, fd, []) && disk.freeBlocks >= DIRECT
    ensures Midway(disk, fds, fd, fds.files[fd].inode.value, Blank(), 0)
  {
    hide Shaped, FByte, PtrAt, Sound, Bears, RunTour, Lacking;
    var d, ino := disk.View(), fds.files[fd].inode.value;
    EmptyBears(d, ino);
    LackingShort(d, ino, RunTour(0, DIRECT));
    assert |RunTour(0, DIRECT)| == DIRECT by { RunLength(DIRECT); }
  }

  lemma RunLength(hi: nat)
    requires hi <= LEAVES
    ensures |RunTour(0, hi)| == hi
  {
  }

  /** Pieces are written one after the other to a new file, all landing in its direct blocks, at any alignment; then the
      cursor goes back to the start, and as many bytes are read. What comes back is ReadBack; if every piece but the
      last one lands straight, it is the pieces in order. */
  method WriteAndReadBack(disk: RamDisk, fds: Table, fd: int, pieces: seq<seq<Byte>>, dst: array<Byte>,
          buf: array<Byte>) returns (r: int)
    requires disk.Valid() && fds.Valid() && OpenFilesExist(disk, fds)
    requires FileRead.BufferApart(disk, fds, buf) && buf.Length == FileRead.READ_BUFFER
             && dst.Length == FileRead.READ_BUFFER
    requires dst != buf && dst as object != fds.files && dst as object != disk.bitmap && dst as object != disk.inodes
             && dst as object != disk.blocks
    requires CanWrite(disk, fds, fd) && Built(disk, fds, fd, []) && disk.freeBlocks >= DIRECT
    requires pieces != [] && StaysDirect(0, pieces)
    modifies disk`freeBlocks, disk`owner, disk.bitmap, disk.inodes, disk.blocks, fds.files, buf, dst
    ensures disk.Valid() && fds.Valid()
    ensures r == |ReadBack(pieces)| <= |Flat(pieces)| <= dst.Length && dst[..r] == ReadBack(pieces)
    ensures StraightButLast(0, Lengths(pieces)) ==> dst[..|Flat(pieces)|] == Flat(pieces)
  {
    hide Shows, Sound, Bitmap.Used, Built, StaysDirect, ImageOf, Flat, Lengths, StraightButLast, InDirect, Next, Midway,
         RamDisk.View, Delivered, TooMany, First, NonZero, Bears;
    ghost var ino := fds.files[fd].inode.value;
    StartsMidway(disk, fds, fd);
    ghost var img := Blank();
    ghost var c: nat := 0;
    var i := 0;
    assert pieces[0..] == pieces;
    while i < |pieces|
      invariant i <= |pieces| && |img| == DIRECT_BYTES && StaysDirect(c, pieces[i..])
      invariant Midway(disk, fds, fd, ino, img, c) && c + |Flat(pieces[i..])| == |Flat(pieces)|
      invariant ImageOf(img, c, pieces[i..]) == ImageOf(Blank(), 0, pieces)
    {
      ImageStep(img, c, pieces[i..]);
      assert pieces[i..][1..] == pieces[i + 1..];
      WritePiece(disk, fds, fd, pieces[i], ino, img, c);
      img, c := Next(img, c, pieces[i]), c + |pieces[i]|;
      i := i + 1;
    }
    ImageStep(img, c, pieces[i..]);
    NotEmpty(pieces);
    MidwayFacts(disk, fds, fd, ino, img, c);
    var at := RdLseek(disk, fds, fd, 0);
    assert !TooMany(c, c, 0) by { NotTooMany(c); }
    r := RdRead(disk, fds, fd, dst, |Flat(pieces)|, buf, []);
    ImageDelivered(disk.View(), ino, img, c);
    FirstShort(NonZero(img), c);
    if StraightButLast(0, Lengths(pieces)) {
      assert Holds(Blank(), []);
      ComesBack(Blank(), [], pieces);
      assert [] + Flat(pieces) == Flat(pieces);
      FirstAll(Flat(pieces));
    }
  }

  lemma NotEmpty(pieces: seq<seq<Byte>>)
    requires pieces != [] && StaysDirect(0, pieces)
    ensures 0 < |Flat(pieces)| <= DIRECT_BYTES
  {
    PiecesFit(0, pieces);
  }

  lemma FirstShort(bs: seq<Byte>, n: nat)
    ensures |First(bs, n)| <= n
  {
  }

  lemma NotTooMany(c: nat)
    requires 0 < c <= DIRECT_BYTES
    ensures !TooMany(c, c, 0)
  {
  }

  lemma MidwayFacts(disk: RamDisk, fds: Table, fd: int, ino: nat, img: seq<Byte>, c: nat)
    requires Midway(disk, fds, fd, ino, img, c)
    ensures disk.Valid() && fds.Valid() && OpenFilesExist(disk, fds) && CanRead(disk, fds, fd)
    ensures 0 <= fd < FD_TABLE_SIZE && ino < INODES && fds.files[fd].inode == Some(ino) && disk.inodes[ino].size == c
    ensures Bears(disk.View(), ino, img)
  {
    hide Bears, Covered, Sound;
  }
}