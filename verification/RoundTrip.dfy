/** rd_read and rd_lseek as a whole, and what writing, seeking and reading add up to. */
module RoundTrip {
  import opened Options
  import Bitmap
  import opened Disk
  import opened FileData
  import opened FileSteps
  import opened RamDisks
  import opened FdTable
  import opened FileWrite
  import opened FileIo
  import opened ReadPath
  import opened ReadTape
  import opened FileRead

  /** The inode behind descriptor fd, if rd_read and rd_lseek accept it: an open file that is no directory. */
  predicate CanRead(disk: RamDisk, fds: Table, fd: int)
    reads disk, disk.inodes, fds.files
    requires disk.Shape() && fds.Valid()
  {
    0 <= fd < FD_TABLE_SIZE && fds.files[fd].usable == 1 && disk.inodes[fds.files[fd].inode.value].kind != Dir
  }

  /** num_bytes > inode->size - cursor, compared as unsigned numbers. */
  predicate TooMany(num: int, size: U32, c: U32) {
    num % 0x1_0000_0000 > Minus32(size, c)
  }

  /** rd_read, with its static buffer buf. A read that is not rejected must fit the two buffers. */
  method RdRead(disk: RamDisk, fds: Table, fd: int, dst: array<Byte>, num: int, buf: array<Byte>,
          ghost text: seq<Byte>) returns (r: int)
    requires disk.Valid() && fds.Valid() && BufferApart(disk, fds, buf) && buf.Length == READ_BUFFER
    requires CanRead(disk, fds, fd)
             && !TooMany(num, disk.inodes[fds.files[fd].inode.value].size, fds.files[fd].cursor) ==>
             0 <= num <= READ_BUFFER && num <= dst.Length
    requires dst != buf && dst as object != fds.files && dst as object != disk.bitmap && dst as object != disk.inodes
             && dst as object != disk.blocks
    modifies fds.files, buf, dst
    ensures disk.Valid() && fds.Valid() && (old(OpenFilesExist(disk, fds)) ==> OpenFilesExist(disk, fds))
            && disk.View() == old(disk.View())
    ensures old(!CanRead(disk, fds, fd)) ==> r == -1 && fds.files[..] == old(fds.files[..]) && dst[..] == old(dst[..])
    ensures old(CanRead(disk, fds, fd)) ==>
            var c := old(fds.files[fd].cursor);
            var ino := old(fds.files[fd].inode.value);
            && (r == -1 <==> TooMany(num, old(disk.inodes[ino].size), c))
            && (c <= old(disk.inodes[ino].size) && 0 <= num < 0x1_0000_0000 ==>
                 (r == -1 <==> c + num > old(disk.inodes[ino].size)))
            && (r == -1 ==> fds.files[..] == old(fds.files[..]) && dst[..] == old(dst[..]))
            && (r != -1 ==>
                 var n: nat := num; var del := Delivered(disk.View(), ino, c, n);
                 && r == |del| && (n > 0 ==> r <= n) && fds.files[..] == Advanced(old(fds.files[..]), fd, r)
                 && (r <= n ==> dst[..r] == del) && dst[n..] == old(dst[n..]))
            && (Shows(disk.View(), ino, text) && 0 <= num && c + num <= |text| ==>
                 var n: nat := num;
                 && r == |Visits(c, n, |text|)|
                 && (r <= n ==> dst[..r] == Pick(text, Visits(c, n, |text|)))
                 && (0 < n && ReadDomain(c, n) ==> r == n && dst[..n] == text[c..c + n]))
  {
    hide Advanced, Visits, Pick, Shows, Sound, Bitmap.Used, ReadDomain, TooMany, Delivered;
    var slot := fds.Lookup(fd);
    if slot == None {
      return -1;
    }
    var h := slot.value;
    ghost var os := fds.files[..];
    assert SlotOk(fds.files[h], h);
    var ino := fds.files[h].inode.value;
    if disk.inodes[ino].kind == Dir {
      return -1;
    }
    InsideFile(disk.View(), ino, text, fds.files[h].cursor, num);
    if 0 <= num < 0x1_0000_0000 && fds.files[h].cursor <= disk.inodes[ino].size {
      TooManyIff(num, disk.inodes[ino].size, fds.files[h].cursor);
    }
    if TooMany(num, disk.inodes[ino].size, fds.files[h].cursor) {
      return -1;
    }
    var n: nat := num;
    for i := 0 to 4
      invariant fds.files[..] == os && disk.View() == old(disk.View()) && dst[..] == old(dst[..])
    {
      buf[i] := 0;
    }
    ghost var c := fds.files[h].cursor;
    var got := ReadLevels(disk, fds, h, ino, buf, n);
    AdvancedOk(os, h, got);
    assert dst[..] == old(dst[..]) && dst[..][n..] == dst[n..];
    CopyPages(dst, buf, n);
    r := got;
    if got <= n { assert dst[..got] == dst[..n][..got] == buf[..got]; }
    if Shows(disk.View(), ino, text) && c + n <= |text| {
      DeliveredShown(disk.View(), ino, text, c, n);
      PickLength(text, Visits(c, n, |text|));
      if 0 < n && ReadDomain(c, n) { ReadRight(disk.View(), ino, text, c, n); }
    }
  }

  lemma AdvancedOk(os: seq<FileObj>, h: nat, k: nat)
    requires h < |os|
    ensures var os' := Advanced(os, h, k); |os'| == |os| && forall i :: 0 <= i < |os| ==>
            os'[i].(cursor := 0) == os[i].(cursor := 0)
  {
    hide Plus32;
  }

  lemma ReadRight(d: Disk, ino: nat, text: seq<Byte>, c: nat, n: nat)
    requires Shows(d, ino, text) && 0 < n && c + n <= |text| && ReadDomain(c, n)
    ensures |Visits(c, n, |text|)| == n && Pick(text, Visits(c, n, |text|)) == text[c..c + n]
  {
    VisitsStraight(c, n, |text|);
    PickSpan(text, c, n);
  }

  /** rd_read delivers the bytes from the cursor on, whatever the text is, if and only if the transfer is in its
      domain. */
  lemma ReadRightIff(c: nat, n: nat, size: nat)
    requires 0 < n && c + n <= size <= MAX_FILE_SIZE
    ensures ReadDomain(c, n) <==>
            forall text: seq<Byte> :: |text| == size && NoZero(text) ==>
                   Pick(text, Visits(c, n, size)) == text[c..c + n]
  {
    hide Visits, ReadDomain;
    VisitsIff(c, n, size);
    var ps := Visits(c, n, size);
    if ReadDomain(c, n) {
      forall text: seq<Byte> | |text| == size ensures Pick(text, ps) == text[c..c + n] { PickSpan(text, c, n); }
    } else {
      var text := WrongText(ps, c, n, size);
      assert |text| == size && NoZero(text) && Pick(text, ps) != text[c..c + n];
    }
  }

  /** Bytes that tell the positions ps from the n positions from c on. */
  lemma WrongText(ps: seq<nat>, c: nat, n: nat, size: nat) returns (text: seq<Byte>)
    requires c + n <= size && ps != Span(c, n) && forall i :: 0 <= i < |ps| ==> ps[i] < size
    ensures |text| == size && NoZero(text) && Pick(text, ps) != text[c..c + n]
  {
    var i := 0;
    if |ps| == n {
      i :| 0 <= i < n && ps[i] != Span(c, n)[i];
    }
    text := seq(size, k => if k == c + i then 1 else 2);
    if |ps| == n {
      assert Pick(text, ps)[i] == 2;
      assert n > 0 && text[c..c + n][i] == 1;
    }
  }

  lemma TooManyIff(num: int, size: U32, c: U32)
    requires 0 <= num < 0x1_0000_0000 && c <= size
    ensures TooMany(num, size, c) <==> c + num > size
  {
  }

  lemma InsideFile(d: Disk, ino: nat, text: seq<Byte>, c: U32, num: int)
    requires ino < INODES
    ensures Shows(d, ino, text) && 0 <= num && c + num <= |text| ==> !TooMany(num, d.inodes[ino].size, c)
  {
  }

  /** rd_lseek. An offset at or beyond the end is moved to the last byte, not behind it; in an empty file the
      cursor wraps around to the largest unsigned number, and the result reads as -1. */
  method RdLseek(disk: RamDisk, fds: Table, fd: int, offset: int) returns (r: int)
    requires disk.Valid() && fds.Valid() && Apart(disk, fds) && offset < 0x8000_0000
    modifies fds.files
    ensures disk.Valid() && fds.Valid() && (old(OpenFilesExist(disk, fds)) ==> OpenFilesExist(disk, fds))
            && disk.View() == old(disk.View())
    ensures old(!CanRead(disk, fds, fd)) || offset < 0 ==> r == -1 && fds.files[..] == old(fds.files[..])
    ensures old(CanRead(disk, fds, fd)) && offset >= 0 ==>
            var size := old(disk.inodes[fds.files[fd].inode.value].size);
            var to := if offset < size then offset else if size > 0 then size - 1 else 0xFFFF_FFFF;
            && fds.files[..] == old(fds.files[..])[fd := old(fds.files[fd]).(cursor := to)]
            && r == if size == 0 then -1 else if to < 0x8000_0000 then to else to - 0x1_0000_0000
  {
    var slot := fds.Lookup(fd);
    if slot == None {
      return -1;
    }
    var h := slot.value;
    assert SlotOk(fds.files[h], h);
    var n := disk.inodes[fds.files[h].inode.value];
    if n.kind == Dir || offset < 0 {
      return -1;
    }
    var to := if offset >= n.size then (n.size - 1) % 0x1_0000_0000 else offset;
    fds.files[h] := fds.files[h].(cursor := to);
    r := if to < 0x8000_0000 then to else to - 0x1_0000_0000;
  }

  // ---------------------------------------------------------------- write, seek, read

  function Flat(chunks: seq<seq<Byte>>): seq<Byte> {
    if chunks == [] then [] else chunks[0] + Flat(chunks[1..])
  }

  /** Each chunk can be written where the ones before it end. */
  predicate ChunksFit(size: nat, chunks: seq<seq<Byte>>)
    decreases |chunks|
  {
    chunks == []
        || (chunks[0] != [] && InDomain(size, chunks[0], |chunks[0]|) && ChunksFit(size + |chunks[0]|, chunks[1..]))
  }

  function Sum(sizes: seq<nat>): nat {
    if sizes == [] then 0 else sizes[0] + Sum(sizes[1..])
  }

  /** Each read can start where the ones before it end. */
  predicate ReadsFit(c: nat, sizes: seq<nat>)
    decreases |sizes|
  {
    sizes == [] || (0 < sizes[0] <= READ_BUFFER && ReadDomain(c, sizes[0]) && ReadsFit(c + sizes[0], sizes[1..]))
  }

  lemma {:induction false} FlatSnoc(chunks: seq<seq<Byte>>, i: nat)
    requires i < |chunks|
    ensures Flat(chunks[..i + 1]) == Flat(chunks[..i]) + chunks[i]
  {
    if i == 0 {
      assert chunks[..1] == [chunks[0]];
    } else {
      FlatSnoc(chunks[1..], i - 1);
      assert chunks[..i + 1][1..] == chunks[1..][..i] && chunks[..i][1..] == chunks[1..][..i - 1];
    }
  }

  lemma {:induction false} SumSnoc(sizes: seq<nat>, i: nat)
    requires i < |sizes|
    ensures Sum(sizes[..i + 1]) == Sum(sizes[..i]) + sizes[i]
  {
    if i == 0 {
      assert sizes[..1] == [sizes[0]];
    } else {
      SumSnoc(sizes[1..], i - 1);
      assert sizes[..i + 1][1..] == sizes[1..][..i] && sizes[..i][1..] == sizes[1..][..i - 1];
    }
  }

  lemma {:induction false} ChunkFits(size: nat, chunks: seq<seq<Byte>>, i: nat)
    requires ChunksFit(size, chunks) && i < |chunks|
    decreases i
    ensures chunks[i] != [] && InDomain(size + |Flat(chunks[..i])|, chunks[i], |chunks[i]|)
  {
    if i > 0 {
      ChunkFits(size + |chunks[0]|, chunks[1..], i - 1);
      assert chunks[..i][1..] == chunks[1..][..i - 1];
    }
  }

  lemma {:induction false} ReadFits(c: nat, sizes: seq<nat>, i: nat)
    requires ReadsFit(c, sizes) && i < |sizes|
    decreases i
    ensures 0 < sizes[i] <= READ_BUFFER && ReadDomain(c + Sum(sizes[..i]), sizes[i])
  {
    if i > 0 {
      ReadFits(c + sizes[0], sizes[1..], i - 1);
      assert sizes[..i][1..] == sizes[1..][..i - 1];
    }
  }

  lemma {:induction false} FlatPrefix(chunks: seq<seq<Byte>>, i: nat)
    requires i <= |chunks|
    ensures |Flat(chunks[..i])| <= |Flat(chunks)|
    decreases |chunks| - i
  {
    if i == |chunks| { assert chunks[..i] == chunks; } else { FlatSnoc(chunks, i); FlatPrefix(chunks, i + 1); }
  }

  /** A file that was built by writes alone: its tree is exactly what its text needs. */
  ghost predicate Built(disk: RamDisk, fds: Table, fd: nat, text: seq<Byte>)
    reads disk, disk.bitmap, disk.inodes, disk.blocks, fds.files
    requires disk.Shape() && fds.Valid() && fd < FD_TABLE_SIZE && fds.files[fd].inode.Some?
  {
    AtEnd(disk.View(), fds.files[..], fd, fds.files[fd].inode.value, text, Needed(|text|))
  }

  /** Write the chunks one after the other. */
  method WriteAll(disk: RamDisk, fds: Table, fd: nat, chunks: seq<seq<Byte>>)
    requires disk.Valid() && fds.Valid() && Apart(disk, fds) && OpenFilesExist(disk, fds)
    requires CanWrite(disk, fds, fd) && Built(disk, fds, fd, [])
    requires ChunksFit(0, chunks) && disk.freeBlocks >= Blocks(Needed(|Flat(chunks)|))
    modifies disk`freeBlocks, disk`owner, disk.bitmap, disk.inodes, disk.blocks, fds.files
    ensures disk.Valid() && fds.Valid() && OpenFilesExist(disk, fds) && CanRead(disk, fds, fd)
            && CanWrite(disk, fds, fd)
    ensures fds.files[fd].inode == old(fds.files[fd].inode)
    ensures Built(disk, fds, fd, Flat(chunks))
    ensures disk.freeBlocks == old(disk.freeBlocks) - Blocks(Needed(|Flat(chunks)|))
    ensures Kept(old(disk.View()), disk.View(), old(fds.files[fd].inode).value)
  {
    hide Kept, AtEnd, Went, Shows, InDomain, Missing, Needed, Join, Sound, Bitmap.Used, ChunksFit, Flat, Blocks,
         Scattered;
    var i := 0;
    ghost var ino := fds.files[fd].inode.value;
    FlatNone();
    KeptSame(disk.View(), ino);
    assert chunks[..0] == [];
    while i < |chunks|
      invariant i <= |chunks|
      invariant disk.Valid() && fds.Valid() && OpenFilesExist(disk, fds) && CanWrite(disk, fds, fd)
                && fds.files[fd].inode == Some(ino)
      invariant AtEnd(disk.View(), fds.files[..], fd, ino, Flat(chunks[..i]), Needed(|Flat(chunks[..i])|))
      invariant Kept(old(disk.View()), disk.View(), ino)
      invariant disk.freeBlocks + Blocks(Needed(|Flat(chunks[..i])|)) == old(disk.freeBlocks)
    {
      ghost var text := Flat(chunks[..i]);
      ChunkFits(0, chunks, i);
      FlatSnoc(chunks, i);
      FlatPrefix(chunks, i + 1);
      GrowthIs(|text|, |text| + |chunks[i]|, |Flat(chunks)|);
      ghost var d, os := disk.View(), fds.files[..];
      ghost var k, g;
      var r;
      r, k, g := RdWrite(disk, fds, fd, chunks[i], |chunks[i]|, text, Needed(|text|));
      WentKeepsTable(d, os, disk.View(), fds.files[..], fd, ino, k);
      WentKeepsAccess(d, os, disk.View(), fds.files[..], fd, ino, k);
      KeptTwice(old(disk.View()), d, disk.View(), ino);
      assert chunks[i][..|chunks[i]|] == chunks[i];
      i := i + 1;
    }
    assert chunks[..i] == chunks;
  }

  lemma FlatNone()
    ensures Flat([]) == [] && Blocks(Needed(0)) == 0
  {
  }

  lemma WentKeepsAccess(d: Disk, os: seq<FileObj>, d': Disk, os': seq<FileObj>, h: nat, ino: nat, k: nat)
    requires Went(d, os, d', os', h, ino, k)
    ensures ino < INODES && d'.inodes[ino].access == d.inodes[ino].access && Kept(d, d', ino)
    ensures h < |os| == |os'| && os'[h].inode == os[h].inode && os'[h].status == os[h].status
            && os'[h].usable == os[h].usable
  {
  }

  lemma GrowthIs(m: nat, n: nat, all: nat)
    requires m <= n <= all
    ensures Missing(Needed(m), n) == Blocks(Needed(n)) - Blocks(Needed(m)) && Blocks(Needed(n)) <= Blocks(Needed(all))
    ensures Join(Needed(m), Needed(n)) == Needed(n)
  {
    PriceOfGrowth(m, n);
    FootprintGrows(m, n);
    FootprintGrows(n, all);
    WithinBlocks(Needed(n), Needed(all));
  }

  lemma {:induction false} SumPrefix(sizes: seq<nat>, i: nat)
    requires i <= |sizes|
    ensures Sum(sizes[..i]) <= Sum(sizes)
    decreases |sizes| - i
  {
    if i == |sizes| { assert sizes[..i] == sizes; } else { SumSnoc(sizes, i); SumPrefix(sizes, i + 1); }
  }

  /** Read pieces of the given sizes one after the other, from the start of the file. */
  method ReadAll(disk: RamDisk, fds: Table, fd: int, sizes: seq<nat>, dst: array<Byte>, buf: array<Byte>,
          ghost text: seq<Byte>)
    returns (out: seq<Byte>)
    requires disk.Valid() && fds.Valid() && OpenFilesExist(disk, fds)
    requires BufferApart(disk, fds, buf) && buf.Length == READ_BUFFER && dst.Length == READ_BUFFER
    requires dst != buf && dst as object != fds.files && dst as object != disk.bitmap && dst as object != disk.inodes
             && dst as object != disk.blocks
    requires CanRead(disk, fds, fd) && fds.files[fd].cursor == 0 && Shows(disk.View(), fds.files[fd].inode.value, text)
    requires ReadsFit(0, sizes) && Sum(sizes) <= |text|
    modifies fds.files, buf, dst
    ensures out == text[..Sum(sizes)]
    ensures disk.Valid() && disk.View() == old(disk.View()) && fds.Valid() && OpenFilesExist(disk, fds)
            && CanRead(disk, fds, fd)
    ensures fds.files[fd].inode == old(fds.files[fd].inode)
  {
    hide Advanced, Visits, Pick, Shows, Sound, Bitmap.Used, ReadDomain, Minus32, ReadsFit, Sum, RamDisk.View, Delivered;
    out := [];
    var i := 0;
    ghost var ino := fds.files[fd].inode.value;
    assert Sum([]) == 0 by { SumNone(); }
    assert sizes[..0] == [];
    while i < |sizes|
      invariant i <= |sizes|
      invariant disk.Valid() && disk.View() == old(disk.View()) && fds.Valid() && OpenFilesExist(disk, fds)
                && CanRead(disk, fds, fd)
      invariant fds.files[fd].inode == Some(ino) && fds.files[fd].cursor == Sum(sizes[..i]) <= |text|
      invariant out == text[..Sum(sizes[..i])]
    {
      ghost var c, n, os := Sum(sizes[..i]), sizes[i], fds.files[..];
      ReadFits(0, sizes, i);
      SumSnoc(sizes, i);
      SumPrefix(sizes, i + 1);
      ShowsBound(disk.View(), ino, text);
      var r := RdRead(disk, fds, fd, dst, sizes[i], buf, text);
      CursorNow(os, fds.files[..], fd, c, n);
      AdvancedSame(os, fd, n);
      assert text[..c] + text[c..c + n] == text[..c + n];
      out := out + dst[..sizes[i]];
      i := i + 1;
    }
    assert sizes[..i] == sizes;
  }

  lemma SumNone()
    ensures Sum([]) == 0
  {
  }

  lemma ShowsBound(d: Disk, ino: nat, text: seq<Byte>)
    requires Shows(d, ino, text)
    ensures |text| <= MAX_FILE_SIZE
  {
  }

  lemma AdvancedSame(os: seq<FileObj>, h: nat, k: nat)
    requires h < |os|
    ensures |Advanced(os, h, k)| == |os| && Advanced(os, h, k)[h].inode == os[h].inode
            && Advanced(os, h, k)[h].usable == os[h].usable
  {
  }

  /** The round trip: what is written to an empty file in any pieces that fit comes back in any pieces that fit. */
  method WriteSeekRead(disk: RamDisk, fds: Table, fd: int, chunks: seq<seq<Byte>>, sizes: seq<nat>, dst: array<Byte>,
          buf: array<Byte>)
    returns (out: seq<Byte>)
    requires disk.Valid() && fds.Valid() && OpenFilesExist(disk, fds)
    requires BufferApart(disk, fds, buf) && buf.Length == READ_BUFFER && dst.Length == READ_BUFFER
    requires dst != buf && dst as object != fds.files && dst as object != disk.bitmap && dst as object != disk.inodes
             && dst as object != disk.blocks
    requires CanWrite(disk, fds, fd) && Built(disk, fds, fd, [])
    requires chunks != [] && ChunksFit(0, chunks) && disk.freeBlocks >= Blocks(Needed(|Flat(chunks)|))
    requires ReadsFit(0, sizes) && Sum(sizes) == |Flat(chunks)|
    modifies disk`freeBlocks, disk`owner, disk.bitmap, disk.inodes, disk.blocks, fds.files, buf, dst
    ensures out == Flat(chunks)
    ensures disk.Valid() && fds.Valid() && OpenFilesExist(disk, fds) && CanRead(disk, fds, fd)
    ensures fds.files[fd].inode == old(fds.files[fd].inode)
    ensures Settled(disk.View(), old(fds.files[fd].inode).value, Flat(chunks), Needed(|Flat(chunks)|))
    ensures Kept(old(disk.View()), disk.View(), old(fds.files[fd].inode).value)
    ensures disk.freeBlocks == old(disk.freeBlocks) - Blocks(Needed(|Flat(chunks)|))
  {
    hide Shows, Sound, Bitmap.Used, ReadsFit, Sum, Needed, Blocks, Settled, Flat, InDomain, Kept;
    WriteAll(disk, fds, fd, chunks);
    ghost var ino := fds.files[fd].inode.value;
    assert Shows(disk.View(), ino, Flat(chunks)) by { BuiltShows(disk, fds, fd, Flat(chunks)); }
    ChunkFits(0, chunks, 0);
    FlatNonEmpty(chunks);
    ShowsSize(disk.View(), ino, Flat(chunks));
    var r := RdLseek(disk, fds, fd, 0);
    out := ReadAll(disk, fds, fd, sizes, dst, buf, Flat(chunks));
    assert Flat(chunks)[..|Flat(chunks)|] == Flat(chunks);
  }

  lemma BuiltShows(disk: RamDisk, fds: Table, fd: nat, text: seq<Byte>)
    requires disk.Shape() && fds.Valid() && fd < FD_TABLE_SIZE && fds.files[fd].inode.Some?
             && Built(disk, fds, fd, text)
    ensures Shows(disk.View(), fds.files[fd].inode.value, text)
  {
  }

  lemma FlatNonEmpty(chunks: seq<seq<Byte>>)
    requires chunks != [] && chunks[0] != []
    ensures |Flat(chunks)| > 0
  {
  }

  lemma ShowsSize(d: Disk, ino: nat, text: seq<Byte>)
    requires Shows(d, ino, text)
    ensures d.inodes[ino].size == |text|
  {
  }
}
