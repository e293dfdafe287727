/** find_entry_in_current_dir and the search for one path component. */
module DirSearch {
  import opened Options
  import Bitmap
  import opened Disk
  import opened FileData
  import opened Directory
  import opened DirTree
  import opened RamDisks
  import WriteLevels

  /** The loop over the entries of one block. */
  method ScanEntries(es: Entries16, name: string) returns (k: nat)
    ensures k == FindFrom(es, name, 0)
  {
    hide FindFrom;
    k := 0;
    while k < ENTRIES && es[k].name != name
      invariant k <= ENTRIES && forall i :: 0 <= i < k ==> es[i].name != name
    {
      k := k + 1;
    }
    var j := FindFrom(es, name, 0);
  }

  /** Leaf q of a directory, as the loops see it: NULL, or a block of entries. */
  method LoadLeaf(disk: RamDisk, ino: nat, q: nat) returns (l: Leaf)
    requires disk.Valid() && ino < INODES && disk.View().inodes[ino].kind == Dir
    requires q < LEAVES && HasParent(disk.View(), ino, LeafSlot(q))
    ensures l == Table(disk.View(), ino)[q]
  {
    hide Owned, PtrAt, LeafSlot, HasParent, Bitmap.Used;
    var p := disk.GetPtr(ino, LeafSlot(q));
    if p == None {
      l := None;
    } else {
      DirLeafRole(disk.View(), ino, LeafSlot(q), p.value);
      assert disk.blocks[p.value].Zeroed? || disk.blocks[p.value].Entries?;
      l := Some(EntriesOf(disk.blocks[p.value]));
    }
  }

  /** The leaves lo..hi: the first match that is not the inode to skip. */
  method SearchRange(disk: RamDisk, ino: nat, name: string, skip: Option<nat>, lo: nat, hi: nat)
          returns (hit: Option<nat>)
    requires disk.Valid() && ino < INODES && disk.View().inodes[ino].kind == Dir
    requires lo <= hi <= LEAVES && WriteLevels.Reachable(disk.View(), ino, lo, hi)
    ensures hit.Some? ==> StepFrom(Table(disk.View(), ino), name, skip, lo) == hit
    ensures hit == None ==>
            StepFrom(Table(disk.View(), ino), name, skip, lo) == StepFrom(Table(disk.View(), ino), name, skip, hi)
  {
    hide Owned, PtrAt, LeafSlot, HasParent, Bitmap.Used, FindFrom, Table, RamDisk.View, Sound;
    ghost var t := Table(disk.View(), ino);
    var q := lo;
    while q < hi
      invariant lo <= q <= hi
      invariant StepFrom(t, name, skip, lo) == StepFrom(t, name, skip, q)
    {
      var l := LoadLeaf(disk, ino, q);
      if l != None {
        var k := ScanEntries(l.value, name);
        if k < ENTRIES && Some(l.value[k].ino) != skip {
          return Some(l.value[k].ino);
        }
      }
      q := q + 1;
    }
    hit := None;
  }

  /** The leaves of a level whose index block is not there. */
  lemma NothingThere(d: Disk, ino: nat, name: string, skip: Option<nat>, s: Slot, lo: nat, hi: nat)
    requires PtrAt(d, ino, s) == None && lo <= hi <= LEAVES
    requires match s
             case SingleIx => lo == DIRECT && hi == FIRST_ROW
             case DoubleIx => lo == FIRST_ROW && hi == LEAVES
             case RowIx(k) => k < PTRS && lo == FIRST_ROW + PTRS * k && hi == FIRST_ROW + PTRS * (k + 1)
             case _ => false
    ensures StepFrom(Table(d, ino), name, skip, lo) == StepFrom(Table(d, ino), name, skip, hi)
  {
    hide StepFrom;
    forall q | lo <= q < hi ensures LeafLookup(Table(d, ino)[q], name) == None {
      LeafNotThere(d, ino, s, q);
    }
    StepPasses(Table(d, ino), name, skip, lo, hi);
  }

  lemma LeafNotThere(d: Disk, ino: nat, s: Slot, q: nat)
    requires PtrAt(d, ino, s) == None && q < LEAVES
    requires match s
             case SingleIx => DIRECT <= q < FIRST_ROW
             case DoubleIx => FIRST_ROW <= q
             case RowIx(k) => k < PTRS && FIRST_ROW + PTRS * k <= q < FIRST_ROW + PTRS * (k + 1)
             case _ => false
    ensures Table(d, ino)[q] == None
  {
    if s.RowIx? { RowLeaf(s.k, q - FIRST_ROW - PTRS * s.k); }
    assert PtrAt(d, ino, LeafSlot(q)) == None;
  }

  /** The three levels, one after the other. */
  method Search(disk: RamDisk, ino: nat, name: string, skip: Option<nat>) returns (hit: Option<nat>)
    requires disk.Valid() && ino < INODES && disk.View().inodes[ino].kind == Dir
    ensures hit == StepFrom(Table(disk.View(), ino), name, skip, 0)
  {
    hide Owned, PtrAt, LeafSlot, Bitmap.Used, FindFrom, Table, RamDisk.View, Sound, StepFrom, WriteLevels.Reachable;
    ghost var d := disk.View();
    DirectsReachable(d, ino);
    hit := SearchRange(disk, ino, name, skip, 0, DIRECT);
    if hit != None {
      return;
    }
    var single := disk.GetPtr(ino, SingleIx);
    if single != None {
      WriteLevels.SingleReachable(d, ino);
      hit := SearchRange(disk, ino, name, skip, DIRECT, FIRST_ROW);
      if hit != None {
        return;
      }
    } else {
      NothingThere(d, ino, name, skip, SingleIx, DIRECT, FIRST_ROW);
    }
    hit := SearchDouble(disk, ino, name, skip);
    if hit == None { SearchedAll(Table(d, ino), name, skip); }
  }

  lemma DirectsReachable(d: Disk, ino: nat)
    ensures WriteLevels.Reachable(d, ino, 0, DIRECT)
  {
  }

  lemma SearchedAll(t: DirTable, name: string, skip: Option<nat>)
    ensures StepFrom(t, name, skip, LEAVES) == None
  {
  }

  /** The double-indirect level, row by row. */
  method SearchDouble(disk: RamDisk, ino: nat, name: string, skip: Option<nat>) returns (hit: Option<nat>)
    requires disk.Valid() && ino < INODES && disk.View().inodes[ino].kind == Dir
    ensures hit.Some? ==> StepFrom(Table(disk.View(), ino), name, skip, FIRST_ROW) == hit
    ensures hit == None ==>
            StepFrom(Table(disk.View(), ino), name, skip, FIRST_ROW) == StepFrom(Table(disk.View(), ino), name, skip,
            LEAVES)
  {
    hide Owned, PtrAt, LeafSlot, Bitmap.Used, FindFrom, Table, RamDisk.View, Sound, StepFrom, WriteLevels.Reachable;
    ghost var d := disk.View();
    var double := disk.GetPtr(ino, DoubleIx);
    if double == None {
      NothingThere(d, ino, name, skip, DoubleIx, FIRST_ROW, LEAVES);
      return None;
    }
    var k := 0;
    while k < PTRS
      invariant k <= PTRS
      invariant StepFrom(Table(d, ino), name, skip, FIRST_ROW) == StepFrom(Table(d, ino), name, skip,
                FIRST_ROW + PTRS * k)
    {
      var row := disk.GetPtr(ino, RowIx(k));
      if row != None {
        WriteLevels.RowReachable(d, ino, k);
        hit := SearchRange(disk, ino, name, skip, FIRST_ROW + PTRS * k, FIRST_ROW + PTRS * (k + 1));
        if hit != None {
          return;
        }
      } else {
        NothingThere(d, ino, name, skip, RowIx(k), FIRST_ROW + PTRS * k, FIRST_ROW + PTRS * (k + 1));
      }
      k := k + 1;
    }
    hit := None;
  }

  /** find_entry_in_current_dir: the inode number in the entry it returns. */
  method FindEntryInCurrentDir(disk: RamDisk, ino: nat, name: string) returns (hit: Option<nat>)
    requires disk.Valid() && ino < INODES && disk.View().inodes[ino].kind == Dir
    ensures hit == Lookup(Table(disk.View(), ino), name)
  {
    hide Sound, Table, StepFrom;
    StepIsLookupFrom(Table(disk.View(), ino), name, None, 0);
    hit := Search(disk, ino, name, None);
  }
}
