/** What removing an entry does to the tree: the state change of rd_unlink, and what follows from it. */
module Unlinking {
  import opened Options
  import opened Disk
  import Moves
  import opened Directory
  import opened DirTree
  import opened Tree
  import opened DirShrink
  import opened Ledgers
  import opened Creating

  /** size -= 16 */
  function Less16(size: U32): U32 { (size - 16) % 0x1_0000_0000 }

  /** File x is gone with all its blocks, and name c is cleared out of directory dir. */
  ghost predicate Unlinked(d: Disk, d': Disk, dir: nat, c: string, x: nat) {
    && dir < INODES && d.inodes[dir].kind == Dir && 0 < x < INODES && x != dir && c != ""
    && Moves.Evolves(d, d') && Elsewhere(d, d', dir, x)
    && d'.inodes[x] == NO_INODE
    && d'.inodes[dir].kind == Dir && d'.inodes[dir].access == d.inodes[dir].access
    && d'.inodes[dir].size == Less16(d.inodes[dir].size)
    && d'.freeInodes == d.freeInodes + 1
    && d'.freeBlocks == d.freeBlocks + |Moves.Owns(d, x)| && d'.used <= d.used - Moves.Owns(d, x)
    && Strays(d') == Strays(d)
    && Table(d', dir) == Cleared(Table(d, dir), c) && IndexesLeft(d, d', dir, c)
    && (forall t :: PtrAt(d', dir, t) == PtrAt(d, dir, t) || PtrAt(d', dir, t) == None)
  }

  // ---------------------------------------------------------------- the cleared directory

  /** Clearing brings no new entry. */
  lemma ClearedInUse(t: DirTable, name: string, r: nat, i: nat)
    requires r < LEAVES && i < ENTRIES && Cleared(t, name)[r].Some? && Cleared(t, name)[r].value[i] != NO_ENTRY
    ensures t[r].Some? && t[r].value[i] == Cleared(t, name)[r].value[i]
    ensures LevelLo(t, name) <= r < LevelHi(t, name) ==> t[r].value[i].name != name
  {
    hide LevelLo, LevelHi, Count;
    ClearedLeaf(t, name, r);
  }

  lemma ClearedTidy(t: DirTable, name: string)
    requires TidyTable(t)
    ensures TidyTable(Cleared(t, name))
  {
    hide Cleared, TidyTable;
    var u := Cleared(t, name);
    forall r | 0 <= r < LEAVES && u[r].Some? ensures Tidy(u[r].value) { ClearedTidyLeaf(t, name, r); }
    assert TidyTable(u) by { TidyIf(u); }
  }

  lemma TidyIf(u: DirTable)
    requires forall r :: 0 <= r < LEAVES && u[r].Some? ==> Tidy(u[r].value)
    ensures TidyTable(u)
  {
  }

  lemma ClearedTidyLeaf(t: DirTable, name: string, r: nat)
    requires TidyTable(t) && r < LEAVES && Cleared(t, name)[r].Some?
    ensures Tidy(Cleared(t, name)[r].value)
  {
    hide Cleared, Count, LevelLo, LevelHi;
    ClearedLeaf(t, name, r);
    assert Tidy(t[r].value);
  }

  /** The first leaf with the name is the one where clearing starts. */
  lemma FirstInLevel(t: DirTable, name: string, q: nat)
    requires NoDouble(t) && q < LEAVES && Has(t[q], name) && forall r :: 0 <= r < q ==> !Has(t[r], name)
    ensures LevelLo(t, name) == q < LevelHi(t, name)
  {
    assert t[q] != None;
    hide LeafLookup;
    var a := FirstWith(t, name, 0, DIRECT);
    var b := FirstWith(t, name, DIRECT, FIRST_ROW);
  }

  /** The file that was found is not in the directory any more. */
  lemma ClearedTarget(d: Disk, up: map<nat, Spot>, dir: nat, c: string, x: nat, r: nat, i: nat)
    requires TreeOk(d, up) && dir < INODES && d.inodes[dir].kind == Dir && c != ""
             && Lookup(Table(d, dir), c) == Some(x)
    requires r < LEAVES && i < ENTRIES && Cleared(Table(d, dir), c)[r].Some?
             && Cleared(Table(d, dir), c)[r].value[i] != NO_ENTRY
    ensures Cleared(Table(d, dir), c)[r].value[i].ino != x
  {
    hide Table, Cleared, LevelLo, LevelHi, FindFrom, LookupFrom;
    var t := Table(d, dir);
    assert DirOk(d, up, dir);
    ClearedInUse(t, c, r, i);
    assert Tidy(t[r].value);
    assert EntryOk(d, up, t[r].value[i].ino, Spot(dir, r, i));
    var q := LookupAt(t, c, 0);
    var k := HasWhere(t[q], c);
    NoRowsNoDouble(d, dir);
    FirstInLevel(t, c, q);
    assert Tidy(t[q].value);
    assert EntryOk(d, up, x, Spot(dir, q, k));
  }

  // ---------------------------------------------------------------- the invariant

  lemma UnlinkedRows(d: Disk, d': Disk, dir: nat, c: string, x: nat)
    requires Unlinked(d, d', dir, c, x) && NoRows(d, dir)
    ensures NoRows(d', dir)
  {
    hide PtrAt, Table, Elsewhere, Cleared;
    forall k | 0 <= k < PTRS ensures PtrAt(d', dir, RowIx(k)) == None { assert IsIndex(RowIx(k)); }
  }

  lemma UnlinkedKinds(d: Disk, d': Disk, dir: nat, c: string, x: nat)
    requires Unlinked(d, d', dir, c, x)
    ensures forall y :: 0 <= y < INODES && y != x ==> d'.inodes[y].kind == d.inodes[y].kind
  {
    hide Table, SameTree, PtrAt, Cleared, IndexesLeft;
  }

  /** The directory the file was in stays in order. */
  lemma ClearedDirOk(d: Disk, up: map<nat, Spot>, d': Disk, dir: nat, c: string, x: nat)
    requires TreeOk(d, up) && Unlinked(d, d', dir, c, x) && Lookup(Table(d, dir), c) == Some(x)
    ensures DirOk(d', up - {x}, dir)
  {
    hide Table, NoRows, TidyTable, Cleared, Elsewhere, PtrAt, IndexesLeft, Lookup, TreeOk;
    UnlinkedKinds(d, d', dir, c, x);
    assert DirOk(d, up, dir) by { DirIsOk(d, up, dir); }
    UnlinkedRows(d, d', dir, c, x);
    var t := Table(d, dir);
    ClearedTidy(t, c);
    forall r, i | 0 <= r < LEAVES && 0 <= i < ENTRIES && Cleared(t, c)[r].Some? && Cleared(t, c)[r].value[i].ino != 0
      ensures EntryOk(d', up - {x}, Cleared(t, c)[r].value[i].ino, Spot(dir, r, i))
    {
      ClearedInUse(t, c, r, i);
      ClearedTarget(d, up, dir, c, x, r, i);
    }
  }

  lemma DirIsOk(d: Disk, up: map<nat, Spot>, i: nat)
    requires TreeOk(d, up) && i < INODES && d.inodes[i].kind == Dir
    ensures DirOk(d, up, i)
  {
  }

  lemma OldDirStillOk(d: Disk, up: map<nat, Spot>, d': Disk, x: nat, i: nat)
    requires DirOk(d, up, i) && Table(d', i) == Table(d, i) && NoRows(d', i)
    requires x in up && up[x].dir != i
    requires forall y :: 0 <= y < INODES && y != x ==> d'.inodes[y].kind == d.inodes[y].kind
    ensures DirOk(d', up - {x}, i)
  {
    hide Table, NoRows, TidyTable;
  }

  lemma TargetEntered(d: Disk, up: map<nat, Spot>, dir: nat, c: string, x: nat)
    requires TreeOk(d, up) && dir < INODES && d.inodes[dir].kind == Dir && c != ""
             && Lookup(Table(d, dir), c) == Some(x)
    ensures x in up && up[x].dir == dir && x < INODES && d.inodes[x].kind != NoFile && x != 0 && x != dir
  {
    hide Table, TreeOk, LookupFrom;
    var s := Found(d, up, dir, c);
  }

  lemma UnlinkedTree(d: Disk, up: map<nat, Spot>, d': Disk, dir: nat, c: string, x: nat)
    requires TreeOk(d, up) && Unlinked(d, d', dir, c, x) && Lookup(Table(d, dir), c) == Some(x)
    ensures TreeOk(d', up - {x})
  {
    hide Table, NoRows, DirOk, Elsewhere, Cleared, PtrAt, IndexesLeft, Lookup;
    UnlinkedKinds(d, d', dir, c, x);
    TargetEntered(d, up, dir, c, x);
    forall i | 0 <= i < INODES && d'.inodes[i].kind == Dir ensures DirOk(d', up - {x}, i) {
      if i == dir {
        ClearedDirOk(d, up, d', dir, c, x);
      } else {
        assert DirOk(d, up, i);
        DirNoRows(d, up, i);
        OtherDir(d, d', dir, x, i);
        OldDirStillOk(d, up, d', x, i);
      }
    }
  }

  lemma KidsMinus(up: map<nat, Spot>, x: nat, i: nat)
    requires x in up
    ensures Kids(up - {x}, i) == Kids(up, i) - {x} && (x in Kids(up, i) <==> up[x].dir == i)
  {
  }

  /** A directory of size 0, or a file, has nothing entered in it. */
  lemma Childless(d: Disk, up: map<nat, Spot>, x: nat)
    requires Ledger(d, up) && x < INODES && (d.inodes[x].kind == Dir ==> d.inodes[x].size == 0)
    ensures Kids(up, x) == {}
  {
    hide Kids, Entered, Zeroes;
    if d.inodes[x].kind != Dir { NoKids(d, up, x); }
  }

  lemma UnlinkedLedger(d: Disk, up: map<nat, Spot>, d': Disk, dir: nat, c: string, x: nat)
    requires Ledger(d, up) && Unlinked(d, d', dir, c, x) && x in up && up[x].dir == dir
    requires d.inodes[x].kind == Dir ==> d.inodes[x].size == 0
    ensures Ledger(d', up - {x})
  {
    hide Table, NoRows, SameTree, PtrAt, Cleared, IndexesLeft, Kids, Entered, Zeroes, InDirs, Sizes;
    UnlinkedKinds(d, d', dir, c, x);
    Childless(d, up, x);
    assert (up - {x}).Keys == up.Keys - {x};
    assert Entered(d', up - {x}) by { EnteredMinus(d, up, d', x); }
    assert InDirs(d', up - {x}) by { InDirsMinus(d, up, d', x); }
    assert Sizes(d', up - {x}) by { SizesMinus(d, up, d', x); }
    assert Zeroes(d') by { ZeroesMinus(d, d', x); }
  }

  lemma EnteredMinus(d: Disk, up: map<nat, Spot>, d': Disk, x: nat)
    requires Entered(d, up) && x < INODES && d'.inodes[x].kind == NoFile
    requires forall y :: 0 <= y < INODES && y != x ==> d'.inodes[y].kind == d.inodes[y].kind
    ensures Entered(d', up - {x})
  {
    forall y: nat ensures y in up - {x} <==> InUse(d', y) { assert y in up <==> InUse(d, y); }
  }

  lemma InDirsMinus(d: Disk, up: map<nat, Spot>, d': Disk, x: nat)
    requires InDirs(d, up) && Kids(up, x) == {}
    requires forall y :: 0 <= y < INODES && y != x ==> d'.inodes[y].kind == d.inodes[y].kind
    ensures InDirs(d', up - {x})
  {
    forall y | y in up - {x} ensures up[y].dir != x { assert y !in Kids(up, x); }
  }

  lemma ZeroesMinus(d: Disk, d': Disk, x: nat)
    requires Zeroes(d) && x < INODES && d'.inodes[x] == NO_INODE
    requires forall y :: 0 <= y < INODES && y != x ==> d'.inodes[y] == d.inodes[y] || d'.inodes[y].kind == Dir
    ensures Zeroes(d')
  {
  }

  lemma SizesMinus(d: Disk, up: map<nat, Spot>, d': Disk, x: nat)
    requires Ledger(d, up) && x in up && x < INODES && d'.inodes[x].kind == NoFile && up[x].dir != x
    requires up[x].dir < INODES && d.inodes[up[x].dir].kind == Dir
             && d'.inodes[up[x].dir].size == Less16(d.inodes[up[x].dir].size)
    requires forall y :: 0 <= y < INODES && y != x && y != up[x].dir ==> d'.inodes[y] == d.inodes[y]
    ensures Sizes(d', up - {x})
  {
    hide Kids, Entered, Zeroes, InDirs;
    KidsBound(d, up, up[x].dir);
    forall i | 0 <= i < INODES && d'.inodes[i].kind == Dir ensures d'.inodes[i].size == 16 * |Kids(up - {x}, i)| {
      KidsMinus(up, x, i);
    }
  }

  // ---------------------------------------------------------------- what paths lead to

  lemma UnlinkedLookup(d: Disk, up: map<nat, Spot>, d': Disk, dir: nat, c: string, x: nat, y: nat, m: string)
    requires TreeOk(d, up) && Unlinked(d, d', dir, c, x) && y < INODES && y != x && m != ""
    requires y == dir ==> m != c && NoLaterSingleton(Table(d, dir), c)
    ensures Lookup(Table(d', y), m) == Lookup(Table(d, y), m)
  {
    hide Table, NoRows, Cleared, SameTree, Lookup, Elsewhere, PtrAt, IndexesLeft, NoLaterSingleton, TidyTable;
    if y != dir {
      OtherDir(d, d', dir, x, y);
    } else {
      assert DirOk(d, up, dir);
      ClearedKeeps(Table(d, dir), c, m);
    }
  }

  lemma UnlinkedBounds(d: Disk, d': Disk, dir: nat, c: string, x: nat)
    requires Unlinked(d, d', dir, c, x)
    ensures dir < INODES && d.inodes[dir].kind == Dir && x < INODES && x != dir && d'.inodes[x] == NO_INODE && c != ""
    ensures Table(d', dir) == Cleared(Table(d, dir), c)
  {
  }

  /** Paths that do not pass through the name resolve as before; those below the directory only if no later single-entry
      block was dropped. */
  lemma {:induction false} UnlinkedFrame(d: Disk, up: map<nat, Spot>, d': Disk, dir: nat, c: string, x: nat,
          cs: seq<string>, ds: seq<string>)
    requires Owned(d) && TreeOk(d, up) && Unlinked(d, d', dir, c, x)
    requires Named(cs) && Resolve(d, 0, cs) == Some(dir) && Resolve(d, 0, cs + [c]) == Some(x) && Named(ds)
    requires !(cs + [c] <= ds) && (NoLaterSingleton(Table(d, dir), c) || !(cs < ds))
    ensures Resolve(d', 0, ds) == Resolve(d, 0, ds)
    decreases |ds|
  {
    hide Owned, TreeOk, Unlinked, Table, Lookup, NoLaterSingleton;
    UnlinkedBounds(d, d', dir, c, x);
    if ds != [] {
      var a, m := ds[..|ds| - 1], ds[|ds| - 1];
      assert ds == a + [m];
      assert !(cs + [c] <= a) && (cs < a ==> cs < ds);
      UnlinkedFrame(d, up, d', dir, c, x, cs, a);
      ResolveSnoc(d, 0, a, m);
      ResolveSnoc(d', 0, a, m);
      if Resolve(d, 0, a).Some? {
        var y := Resolve(d, 0, a).value;
        ResolvedInUse(d, up, a);
        if y == dir {
          UniquePath(d, up, a, cs);
          assert m != c;
        }
        if y == x { UniquePath(d, up, a, cs + [c]); }
        UnlinkedLookup(d, up, d', dir, c, x, y, m);
      }
    }
  }

  /** Nothing is found in what has nothing entered in it. */
  lemma ChildlessLookup(d: Disk, up: map<nat, Spot>, x: nat, m: string)
    requires Owned(d) && TreeOk(d, up) && Kids(up, x) == {} && x < INODES && m != ""
    ensures Lookup(Table(d, x), m) == None
  {
    hide Owned, TreeOk, Table, Lookup, Kids;
    if d.inodes[x].kind != Dir {
      OnlyDirsHaveNames(d, x, m);
    } else if Lookup(Table(d, x), m).Some? {
      var s := Found(d, up, x, m);
      KidOf(up, Lookup(Table(d, x), m).value);
    }
  }

  lemma KidOf(up: map<nat, Spot>, y: nat)
    requires y in up
    ensures y in Kids(up, up[y].dir)
  {
  }

  /** The name is gone. */
  lemma UnlinkedGone(d: Disk, up: map<nat, Spot>, d': Disk, dir: nat, c: string, x: nat, cs: seq<string>)
    requires Owned(d) && TreeOk(d, up) && Unlinked(d, d', dir, c, x) && UniqueNames(Table(d, dir))
    requires Named(cs) && Resolve(d, 0, cs) == Some(dir) && Resolve(d, 0, cs + [c]) == Some(x)
    ensures Resolve(d', 0, cs + [c]) == None && Resolve(d', 0, cs) == Some(dir)
  {
    hide Owned, TreeOk, Unlinked, Table, Lookup, UniqueNames, NoLaterSingleton, DirOk, Cleared;
    UnlinkedBounds(d, d', dir, c, x);
    assert !(cs + [c] <= cs) && !(cs < cs);
    UnlinkedFrame(d, up, d', dir, c, x, cs, cs);
    ResolveSnoc(d', 0, cs, c);
    DirIsOk(d, up, dir);
    DirNoRows(d, up, dir);
    NoRowsNoDouble(d, dir);
    ClearedForgets(Table(d, dir), c);
  }

  /** What a path that goes on behind the name leads to: nothing, before and after. */
  lemma UnlinkedBehind(d: Disk, up: map<nat, Spot>, d': Disk, dir: nat, c: string, x: nat, cs: seq<string>,
          ds: seq<string>)
    requires Owned(d) && TreeOk(d, up) && Unlinked(d, d', dir, c, x) && UniqueNames(Table(d, dir)) && Kids(up, x) == {}
    requires Named(cs) && Resolve(d, 0, cs) == Some(dir) && Resolve(d, 0, cs + [c]) == Some(x)
    requires Named(ds) && cs + [c] < ds
    ensures Resolve(d', 0, ds) == None && Resolve(d, 0, ds) == None
  {
    hide Owned, TreeOk, Unlinked, Table, Lookup, UniqueNames, Kids;
    var es := ds[|cs + [c]|..];
    assert ds == cs + [c] + es && es != [] && es[0] != "";
    ResolveAppend(d, 0, cs + [c], es);
    ResolveAppend(d', 0, cs + [c], es);
    UnlinkedGone(d, up, d', dir, c, x, cs);
    UnlinkedBounds(d, d', dir, c, x);
    ChildlessLookup(d, up, x, es[0]);
    ResolveNone(d, x, es);
  }

  /** Path p alone has lost its meaning. */
  ghost predicate OnlyLostPath(d: Disk, d': Disk, p: seq<string>) {
    Resolve(d', 0, p) == None && forall ds :: Named(ds) && ds != p ==> Resolve(d', 0, ds) == Resolve(d, 0, ds)
  }

  /** rd_unlink removes exactly one path if and only if no later block of the level holds exactly one entry. */
  lemma UnlinkedPathsIff(d: Disk, up: map<nat, Spot>, d': Disk, dir: nat, c: string, x: nat, cs: seq<string>)
    requires Owned(d) && TreeOk(d, up) && Unlinked(d, d', dir, c, x) && UniqueNames(Table(d, dir)) && Kids(up, x) == {}
    requires Named(cs) && Resolve(d, 0, cs) == Some(dir) && Resolve(d, 0, cs + [c]) == Some(x)
    ensures Resolve(d', 0, cs + [c]) == None
    ensures OnlyLostPath(d, d', cs + [c]) <==> NoLaterSingleton(Table(d, dir), c)
  {
    hide Owned, TreeOk, Unlinked, Table, Lookup, UniqueNames, Kids, NoLaterSingleton, Resolve;
    UnlinkedGone(d, up, d', dir, c, x, cs);
    UnlinkedBounds(d, d', dir, c, x);
    if NoLaterSingleton(Table(d, dir), c) {
      forall ds | Named(ds) && ds != cs + [c] ensures Resolve(d', 0, ds) == Resolve(d, 0, ds) {
        if cs + [c] <= ds {
          UnlinkedBehind(d, up, d', dir, c, x, cs, ds);
        } else {
          UnlinkedFrame(d, up, d', dir, c, x, cs, ds);
        }
      }
    } else {
      var other := LostName(d, up, dir, c);
      ResolveSnoc(d, 0, cs, other);
      ResolveSnoc(d', 0, cs, other);
      assert Named(cs + [other])
             && cs + [other] != cs + [c] by { assert (cs + [other])[|cs|] == other != (cs + [c])[|cs|]; }
    }
  }

  lemma LostName(d: Disk, up: map<nat, Spot>, dir: nat, c: string) returns (other: string)
    requires TreeOk(d, up) && dir < INODES && d.inodes[dir].kind == Dir && UniqueNames(Table(d, dir)) && c != ""
    requires !NoLaterSingleton(Table(d, dir), c)
    ensures other != c && other != "" && Lookup(Table(d, dir), other) != None
            && Lookup(Cleared(Table(d, dir), c), other) == None
  {
    hide Table, UniqueNames, Lookup, Cleared, LevelLo, LevelHi, Count, TidyTable;
    var t := Table(d, dir);
    assert DirOk(d, up, dir);
    LevelStart(t, c);
    var q :| LevelLo(t, c) < q < LevelHi(t, c) && t[q].Some? && Count(t[q].value) == 1;
    other := ClearedLoses(t, c, q);
  }

  // ---------------------------------------------------------------- names stay unique

  lemma ClearedUnique(t: DirTable, name: string)
    requires UniqueNames(t) && name != ""
    ensures UniqueNames(Cleared(t, name))
  {
    hide Cleared;
    var u := Cleared(t, name);
    forall a, k, b, l | 0 <= a < LEAVES && 0 <= k < ENTRIES && 0 <= b < LEAVES && 0 <= l < ENTRIES
      && u[a].Some? && u[b].Some? && u[a].value[k].name == u[b].value[l].name && u[a].value[k].name != ""
      ensures a == b && k == l
    {
      ClearedInUse(t, name, a, k);
      ClearedInUse(t, name, b, l);
    }
  }

  lemma {:induction false} CountTwo(es: Entries16, j: nat, k: nat)
    requires j <= k < ENTRIES && es[k].ino != 0 && CountFrom(es, j) != 1
    ensures exists i :: j <= i < ENTRIES && i != k && es[i].ino != 0
    decreases ENTRIES - j
  {
    if j == k {
      CountZero(es, j + 1);
    } else if es[j].ino == 0 {
      CountTwo(es, j + 1, k);
    }
  }

  lemma ClearedNoEmptyLeaf(t: DirTable, name: string)
    requires UniqueNames(t) && NoEmptyLeaf(t) && name != ""
    ensures NoEmptyLeaf(Cleared(t, name))
  {
    hide Cleared, CountFrom, UniqueNames, LevelLo, LevelHi;
    forall q | 0 <= q < LEAVES && Cleared(t, name)[q].Some? ensures Count(Cleared(t, name)[q].value) > 0 {
      ClearedLeaf(t, name, q);
      if LevelLo(t, name) <= q < LevelHi(t, name) { ClearedLeafInUse(t, name, q); }
    }
  }

  lemma ClearedLeafInUse(t: DirTable, name: string, q: nat)
    requires UniqueNames(t) && NoEmptyLeaf(t) && name != "" && q < LEAVES && ClearLeaf(t[q], name).Some?
    ensures Count(ClearLeaf(t[q], name).value) > 0
  {
    hide CountFrom, UniqueNames;
    var es := t[q].value;
    CountZero(es, 0);
    var k :| 0 <= k < ENTRIES && es[k].ino != 0;
    CountTwo(es, 0, k);
    var i :| 0 <= i < ENTRIES && i != k && es[i].ino != 0;
    assert !(es[k].name == name && es[i].name == name) by { TwoNames(t, q, k, i); }
    var j := if es[k].name != name then k else i;
    assert Without(es, name)[j].ino != 0;
    CountPositive(Without(es, name), 0, j);
  }

  lemma TwoNames(t: DirTable, q: nat, k: nat, i: nat)
    requires UniqueNames(t) && q < LEAVES && t[q].Some? && k < ENTRIES && i < ENTRIES && k != i
    ensures t[q].value[k].name != t[q].value[i].name || t[q].value[k].name == ""
  {
  }

  lemma UnlinkedNeat(d: Disk, up: map<nat, Spot>, d': Disk, dir: nat, c: string, x: nat)
    requires Neat(d) && Unlinked(d, d', dir, c, x)
    ensures Neat(d')
  {
    hide Table, NoRows, SameTree, Elsewhere, UniqueNames, NoEmptyLeaf, Cleared, PtrAt, IndexesLeft;
    UnlinkedKinds(d, d', dir, c, x);
    forall i | 0 <= i < INODES && d'.inodes[i].kind == Dir
           ensures UniqueNames(Table(d', i)) && NoEmptyLeaf(Table(d', i)) {
      if i == dir {
        ClearedUnique(Table(d, dir), c);
        ClearedNoEmptyLeaf(Table(d, dir), c);
      } else {
        OtherDir(d, d', dir, x, i);
      }
    }
  }
}
