/** rd_open and rd_close. */
module OpenClose {
  import opened Options
  import Bitmap
  import opened Disk
  import opened FdTable
  import opened RamDisks
  import FileWrite
  import opened FileIo
  import RoundTrip
  import opened Tree
  import PathWalks
  import Ledgers
  import Create

  /** The three tests of rd_open: what the mode of a file lets it be opened for. */
  predicate Permitted(flags: nat, access: nat) {
    && !(flags == RD && access == WR)
    && !(flags == WR && access == RD)
    && !(flags == RW && access != RW)
  }

  /** What the three tests add up to, for the three flags and the three modes that the header defines: a file is opened
      with the flags it was created with, and one that was created with RW with any. */
  lemma PermittedIff(flags: nat, access: nat)
    requires flags in {RD, WR, RW} && access in {RD, WR, RW}
    ensures Permitted(flags, access) <==> flags == access || access == RW
  {
  }

  /** Some slot of the table is closed. */
  predicate SlotLeft(os: seq<FileObj>) { exists i :: 0 <= i < |os| && os[i].usable != 1 }

  /** rd_open, with a path that means the names cs. */
  method RdOpen(disk: RamDisk, fds: Table, path: string, flags: nat, ghost up: map<nat, Spot>, ghost cs: seq<string>)
          returns (fd: int)
    requires disk.Valid() && Ledgers.FsOk(disk.View(), up) && fds.Valid() && FileWrite.Apart(disk, fds)
    requires OnDirs(disk.View(), path) && PathWalks.Means(disk.View(), path, cs)
    modifies fds.files
    ensures disk.Valid() && fds.Valid() && disk.View() == old(disk.View())
    ensures old(OpenFilesExist(disk, fds)) ==> OpenFilesExist(disk, fds)
    ensures fd != -1 <==>
            path != "/" &&
            match Resolve(disk.View(), 0, cs)
            case None => false
            case Some(x) => x < INODES && Permitted(flags, disk.inodes[x].access) && old(SlotLeft(fds.files[..]))
    ensures path != "/" && Resolve(disk.View(), 0, cs).Some? && Resolve(disk.View(), 0, cs).value < INODES
            && old(SlotLeft(fds.files[..])) ==>
            var access := disk.inodes[Resolve(disk.View(), 0, cs).value].access;
            && (flags == access ==> fd != -1)
            && (access == RD ==> (flags == RD ==> fd != -1) && (flags == WR || flags == RW ==> fd == -1))
            && (access == WR ==> (flags == WR ==> fd != -1) && (flags == RD || flags == RW ==> fd == -1))
            && (access == RW && (flags == RD || flags == WR || flags == RW) ==> fd != -1)
    ensures fd != -1 ==>
            var x := Resolve(disk.View(), 0, cs).value;
            && x < INODES && 0 <= fd < FD_TABLE_SIZE
            && (disk.inodes[x].kind == Reg && (flags == WR || flags == RW) ==> CanWrite(disk, fds, fd))
            && (flags == RD ==> !CanWrite(disk, fds, fd))
            && (disk.inodes[x].kind == Reg ==> RoundTrip.CanRead(disk, fds, fd))
    ensures fd == -1 ==> fds.files[..] == old(fds.files[..])
    ensures fd != -1 ==>
            && 0 <= fd < FD_TABLE_SIZE && old(fds.files[..])[fd].usable == 0
            && (forall k :: 0 <= k < fd ==> old(fds.files[k]).usable == 1)
            && fds.files[..] == old(fds.files[..])[fd := FileObj(Resolve(disk.View(), 0, cs), flags, 0, fd, 1)]
  {
    hide Sound, TreeOk, Ledgers.Ledger, Resolve, Find, OnDirs, Bitmap.Used, RamDisk.View;
    Create.ViewCounters(disk);
    if path == "/" {
      return -1;
    }
    var x := MyFindInodeNumber(disk, path);
    if x == -1 {
      return -1;
    }
    Create.SoundOwned(disk.View());
    ResolvedInUse(disk.View(), up, cs);
    var access := disk.inodes[x].access;
    if flags == RD && access == WR {
      return -1;
    }
    if flags == WR && access == RD {
      return -1;
    }
    if flags == RW && access != RW {
      return -1;
    }
    fd := fds.Open(x, flags);
  }

  /** rd_close. Descriptors of directories cannot be closed. */
  method RdClose(disk: RamDisk, fds: Table, fd: int) returns (r: int)
    requires disk.Shape() && fds.Valid() && FileWrite.Apart(disk, fds)
    modifies fds.files
    ensures fds.Valid() && (old(OpenFilesExist(disk, fds)) ==> OpenFilesExist(disk, fds)) && (r == 0 || r == -1)
    ensures r == 0 <==>
            0 <= fd < FD_TABLE_SIZE && old(fds.files[fd]).usable == 1
            && disk.inodes[old(fds.files[fd]).inode.value].kind != Dir
    ensures r == 0 ==> fds.files[..] == old(fds.files[..])[fd := CLOSED]
    ensures r == -1 ==> fds.files[..] == old(fds.files[..])
  {
    var h := fds.Lookup(fd);
    if h == None {
      return -1;
    }
    assert SlotOk(fds.files[h.value], h.value);
    if disk.inodes[fds.files[h.value].inode.value].kind == Dir {
      return -1;
    }
    fds.Release(h.value);
    r := 0;
  }
}
