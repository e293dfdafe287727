/** The table of file objects. get_fd_table never records a pid, so every process gets the same table. */
module FdTable {
  import opened Options
  import opened Disk

  const FD_TABLE_SIZE: nat := 1024

  datatype FileObj = FileObj(inode: Option<nat>, status: nat, cursor: U32, pos: nat, usable: nat)

  const CLOSED: FileObj := FileObj(None, 0, 0, 0, 0)

  /** An open slot knows its own number and its inode; a closed one has number 0 and no inode. */
  predicate SlotOk(o: FileObj, i: nat) {
    || (o.usable == 1 && o.pos == i && o.inode.Some? && o.inode.value < INODES)
    || (o.usable == 0 && o.pos == 0 && o.inode == None)
  }

  class Table {
    const files: array<FileObj>

    ghost predicate Valid()
      reads files
    {
      files.Length == FD_TABLE_SIZE && forall i :: 0 <= i < FD_TABLE_SIZE ==> SlotOk(files[i], i)
    }

    constructor ()
      ensures Valid() && fresh(files)
      ensures forall i :: 0 <= i < FD_TABLE_SIZE ==> files[i] == CLOSED
    {
      files := new FileObj[FD_TABLE_SIZE](_ => CLOSED);
    }

    /** The search by pos that opens rd_write, rd_read, rd_lseek and rd_close, followed by their test for
        a null inode. Although it looks at pos alone, it accepts fd exactly if slot fd is open. */
    method Lookup(fd: int) returns (h: Option<nat>)
      requires Valid()
      ensures h.Some? <==> 0 <= fd < FD_TABLE_SIZE && files[fd].usable == 1
      ensures h.Some? ==> h.value == fd
    {
      var i := 0;
      while i < FD_TABLE_SIZE && files[i].pos != fd
        invariant i <= FD_TABLE_SIZE
        invariant forall k :: 0 <= k < i ==> files[k].pos != fd
      {
        i := i + 1;
      }
      if i == FD_TABLE_SIZE {
        return None;
      }
      assert SlotOk(files[i], i);
      if files[i].inode == None {
        return None;
      }
      h := Some(i);
    }

    /** create_file_object: the lowest unusable slot. */
    method CreateFileObject() returns (h: Option<nat>)
      requires Valid()
      modifies files
      ensures h == None <==> forall i :: 0 <= i < FD_TABLE_SIZE ==> old(files[i]).usable == 1
      ensures h == None ==> files[..] == old(files[..])
      ensures h.Some? ==>
        && h.value < FD_TABLE_SIZE && old(files[..])[h.value].usable == 0
        && (forall k :: 0 <= k < h.value ==> old(files[k]).usable == 1)
        && files[..] == old(files[..])[h.value := old(files[..])[h.value].(pos := h.value, usable := 1)]
    {
      var i: nat := 0;
      while i < FD_TABLE_SIZE
        invariant i <= FD_TABLE_SIZE
        invariant forall k :: 0 <= k < i ==> files[k].usable == 1
        invariant files[..] == old(files[..])
      {
        assert SlotOk(files[i], i);
        if files[i].usable == 0 {
          files[i] := files[i].(pos := i, usable := 1);
          return Some(i);
        }
        i := i + 1;
      }
      h := None;
    }

    /** The end of rd_open, once the path is resolved and the access rights are checked. */
    method Open(ino: nat, flags: nat) returns (fd: int)
      requires Valid() && ino < INODES
      modifies files
      ensures Valid()
      ensures fd == -1 <==> forall i :: 0 <= i < FD_TABLE_SIZE ==> old(files[i]).usable == 1
      ensures fd == -1 ==> files[..] == old(files[..])
      ensures fd != -1 ==>
        && 0 <= fd < FD_TABLE_SIZE && old(files[..])[fd].usable == 0
        && (forall k :: 0 <= k < fd ==> old(files[k]).usable == 1)
        && files[..] == old(files[..])[fd := FileObj(Some(ino), flags, 0, fd, 1)]
    {
      var h := CreateFileObject();
      if h == None {
        return -1;
      }
      var i := h.value;
      files[i] := files[i].(cursor := 0, inode := Some(ino), status := flags);
      fd := files[i].pos;
    }

    /** rd_close, past its tests. */
    method Release(h: nat)
      requires Valid() && h < FD_TABLE_SIZE && files[h].usable == 1
      modifies files
      ensures Valid() && files[..] == old(files[..])[h := CLOSED]
    {
      files[h] := files[h].(inode := None, usable := 0, cursor := 0, pos := 0, status := 0);
    }
  }
}
