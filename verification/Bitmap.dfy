/** The free-block bitmap: 1024 bytes, of whose 8192 bits the first 7931 stand for data blocks. */
module Bitmap {

  const DATA_BLOCKS_NUM: nat := 7931
  const BITMAP_BYTES: nat := 1024

  /** The byte with only bit k set, (unsigned char)1 << k. */
  function Mask(k: nat): bv8
    requires k < 8
  {
    match k
    case 0 => 1 case 1 => 2 case 2 => 4 case 3 => 8
    case 4 => 16 case 5 => 32 case 6 => 64 case 7 => 128
  }

  predicate Bit8(x: bv8, k: nat)
    requires k < 8
  {
    x & Mask(k) != 0
  }

  lemma SetByte(x: bv8, k: nat, j: nat)
    requires k < 8 && j < 8
    ensures Bit8(x | Mask(k), j) <==> j == k || Bit8(x, j)
  {
  }

  lemma ClearByte(x: bv8, k: nat, j: nat)
    requires k < 8 && j < 8
    ensures Bit8(x & !Mask(k), j) <==> j != k && Bit8(x, j)
  {
  }

  lemma ShiftByte(x: bv8, j: nat)
    requires j < 8
    ensures Bit8(x >> 1, j) <==> j < 7 && Bit8(x, j + 1)
  {
  }

  lemma FullByte(x: bv8)
    ensures x == 255 <==> forall j :: 0 <= j < 8 ==> Bit8(x, j)
  {
    if forall j :: 0 <= j < 8 ==> Bit8(x, j) {
      assert Bit8(x, 0) && Bit8(x, 1) && Bit8(x, 2) && Bit8(x, 3);
      assert Bit8(x, 4) && Bit8(x, 5) && Bit8(x, 6) && Bit8(x, 7);
    }
  }

  /** Bit b of the map. */
  predicate Bit(bits: seq<bv8>, b: nat)
    requires b / 8 < |bits|
  {
    Bit8(bits[b / 8], b % 8)
  }

  /** The data blocks marked as taken. */
  ghost function Used(bits: seq<bv8>): set<nat>
    requires |bits| == BITMAP_BYTES
  {
    set b: nat | b < DATA_BLOCKS_NUM && Bit(bits, b)
  }

  lemma SetBit(bits: seq<bv8>, k: nat, b: nat)
    requires k / 8 < |bits| && b / 8 < |bits|
    ensures Bit(WithBit(bits, k), b) <==> b == k || Bit(bits, b)
  {
    SetByte(bits[k / 8], k % 8, b % 8);
  }

  lemma ClearBit(bits: seq<bv8>, k: nat, b: nat)
    requires k / 8 < |bits| && b / 8 < |bits|
    ensures Bit(WithoutBit(bits, k), b) <==> b != k && Bit(bits, b)
  {
    ClearByte(bits[k / 8], k % 8, b % 8);
  }

  function WithBit(bits: seq<bv8>, k: nat): (r: seq<bv8>)
    requires k / 8 < |bits|
    ensures |r| == |bits|
  {
    bits[k / 8 := bits[k / 8] | Mask(k % 8)]
  }

  function WithoutBit(bits: seq<bv8>, k: nat): (r: seq<bv8>)
    requires k / 8 < |bits|
    ensures |r| == |bits|
  {
    bits[k / 8 := bits[k / 8] & !Mask(k % 8)]
  }

  lemma SetUsed(bits: seq<bv8>, k: nat)
    requires |bits| == BITMAP_BYTES && k <= DATA_BLOCKS_NUM
    ensures forall b: nat :: b / 8 < BITMAP_BYTES ==> (Bit(WithBit(bits, k), b) <==> b == k || Bit(bits, b))
    ensures Used(WithBit(bits, k)) == Used(bits) + if k < DATA_BLOCKS_NUM then {k} else {}
  {
    hide Bit, WithBit;
    forall b: nat | b / 8 < BITMAP_BYTES ensures Bit(WithBit(bits, k), b) <==> b == k || Bit(bits, b) {
      SetBit(bits, k, b);
    }
  }

  lemma ClearUsed(bits: seq<bv8>, k: nat)
    requires |bits| == BITMAP_BYTES && k <= DATA_BLOCKS_NUM
    ensures forall b: nat :: b / 8 < BITMAP_BYTES ==> (Bit(WithoutBit(bits, k), b) <==> b != k && Bit(bits, b))
    ensures Used(WithoutBit(bits, k)) == Used(bits) - {k}
  {
    hide Bit, WithoutBit;
    forall b: nat | b / 8 < BITMAP_BYTES ensures Bit(WithoutBit(bits, k), b) <==> b != k && Bit(bits, b) {
      ClearBit(bits, k, b);
    }
  }

  /** set_bitmap. Its range check lets 7931 through, one more than there are blocks. */
  method SetBitmap(bits: array<bv8>, index: int) returns (r: int)
    requires bits.Length == BITMAP_BYTES
    modifies bits
    ensures r == -1 <==> index < 0 || index > DATA_BLOCKS_NUM
    ensures r == -1 || r == 0
    ensures r == -1 ==> bits[..] == old(bits[..])
    ensures r == 0 ==> forall b: nat :: b / 8 < BITMAP_BYTES ==>
            (Bit(bits[..], b) <==> b == index || Bit(old(bits[..]), b))
    ensures r == 0 ==> Used(bits[..]) == Used(old(bits[..])) + if index < DATA_BLOCKS_NUM then {index as nat} else {}
  {
    hide Bit, Used, Mask;
    if index < 0 || index > DATA_BLOCKS_NUM {
      return -1;
    }
    ghost var was := bits[..];
    var seg, offset := index / 8, index % 8;
    bits[seg] := bits[seg] | Mask(offset);
    assert bits[..] == WithBit(was, index);
    SetUsed(was, index);
    r := 0;
  }

  /** clear_bitmap, with the same range check. */
  method ClearBitmap(bits: array<bv8>, index: int) returns (r: int)
    requires bits.Length == BITMAP_BYTES
    modifies bits
    ensures r == -1 <==> index < 0 || index > DATA_BLOCKS_NUM
    ensures r == -1 || r == 0
    ensures r == -1 ==> bits[..] == old(bits[..])
    ensures r == 0 ==> forall b: nat :: b / 8 < BITMAP_BYTES ==>
            (Bit(bits[..], b) <==> b != index && Bit(old(bits[..]), b))
    ensures r == 0 ==> Used(bits[..]) == Used(old(bits[..])) - {index as nat}
  {
    hide Bit, Used, Mask;
    if index < 0 || index > DATA_BLOCKS_NUM {
      return -1;
    }
    ghost var was := bits[..];
    var seg, offset := index / 8, index % 8;
    bits[seg] := bits[seg] & !Mask(offset);
    assert bits[..] == WithoutBit(was, index);
    ClearUsed(was, index);
    r := 0;
  }

  /** get_free_block_num_from_bitmap: the lowest clear bit that stands for a block, unless the
      superblock says that nothing is free. */
  method GetFreeBlockNum(bits: array<bv8>, freeBlocks: nat) returns (r: int)
    requires bits.Length == BITMAP_BYTES
    ensures r == -1 || 0 <= r < DATA_BLOCKS_NUM
    ensures r == -1 <==> freeBlocks == 0 || forall b: nat :: b < DATA_BLOCKS_NUM ==> b in Used(bits[..])
    ensures r != -1 ==> r !in Used(bits[..]) && forall b: nat :: b < r ==> b in Used(bits[..])
  {
    if freeBlocks <= 0 {
      return -1;
    }
    hide Bit8;
    var i: nat := 0;
    while i < BITMAP_BYTES && bits[i] == 255
      invariant i <= BITMAP_BYTES
      invariant forall b: nat :: b < 8 * i ==> Bit(bits[..], b)
    {
      FullByte(bits[i]);
      i := i + 1;
    }
    if i == BITMAP_BYTES {
      assert forall b: nat :: b < DATA_BLOCKS_NUM ==> Bit(bits[..], b);
      return -1;
    }
    var k := FirstClearBit(bits[i]);
    var freeBit := 8 * i + k;
    assert !Bit(bits[..], freeBit);
    assert forall b: nat :: b < freeBit ==> Bit(bits[..], b);
    if freeBit >= DATA_BLOCKS_NUM {
      assert forall b: nat :: b < DATA_BLOCKS_NUM ==> Bit(bits[..], b);
      return -1;
    }
    assert freeBit !in Used(bits[..]);
    r := freeBit;
  }

  /** The bit loop of the search: shift right until the lowest bit is clear. */
  method FirstClearBit(byte: bv8) returns (k: nat)
    requires byte != 255
    ensures k < 8 && !Bit8(byte, k)
    ensures forall j :: 0 <= j < k ==> Bit8(byte, j)
  {
    hide Bit8;
    FullByte(byte);
    k := 0;
    var rest := byte;
    while k < 8 && !LowestClear(rest)
      invariant k <= 8
      invariant forall j :: 0 <= j < 8 - k ==> Bit8(rest, j) == Bit8(byte, j + k)
      invariant forall j :: 0 <= j < k ==> Bit8(byte, j)
    {
      assert Bit8(rest, 0) == Bit8(byte, 0 + k);
      var next := rest >> 1;
      forall j | 0 <= j < 8 - k - 1 ensures Bit8(next, j) == Bit8(byte, j + (k + 1)) {
        ShiftByte(rest, j);
        assert Bit8(rest, j + 1) == Bit8(byte, (j + 1) + k);
      }
      rest := next;
      k := k + 1;
    }
    assert k < 8 ==> Bit8(rest, 0) == Bit8(byte, 0 + k);
  }

  predicate LowestClear(x: bv8)
    ensures LowestClear(x) <==> !Bit8(x, 0)
  {
    x & 1 == 0
  }
}
