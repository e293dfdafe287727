/** What a new entry does to the tree: the state change of rd_create, and what follows from it. */
module Creating {
  import opened Options
  import opened Disk
  import Moves
  import FileData
  import opened FileSteps
  import opened Directory
  import opened DirTree
  import opened Tree
  import opened DirGrow
  import opened Ledgers

  /** The directory's pointers after it got room for an entry at w: none is lost, and only those on the way to the
      leaf are new. */
  ghost predicate Hung(d: Disk, d': Disk, dir: nat, w: Where) {
    && (forall t :: PtrAt(d, dir, t).Some? ==> PtrAt(d', dir, t) == PtrAt(d, dir, t))
    && (w.At? ==> w.q < LEAVES && Strays(d') == Strays(d)
                  && forall t :: Gained(d, d', dir, t) ==>
                     t == FileData.LeafSlot(w.q) || (t == SingleIx && DIRECT <= w.q < FIRST_ROW))
  }

  /** Inode x has been taken for a new file of the given kind and entered under name c in directory dir: at the
      place w, which may be one that nobody will ever look at. */
  ghost predicate Created(d: Disk, d': Disk, dir: nat, c: string, x: nat, kind: Kind, mode: nat, w: Where) {
    && dir < INODES && d.inodes[dir].kind == Dir && 0 < x < INODES && d.inodes[x].kind == NoFile && kind != NoFile
       && c != ""
    && Moves.Evolves(d, d') && Elsewhere(d, d', dir, x)
    && d'.inodes[x] == NO_INODE.(kind := kind, access := mode)
    && d'.inodes[dir].kind == Dir && d'.inodes[dir].access == d.inodes[dir].access
    && d'.inodes[dir].size == Plus32(d.inodes[dir].size, 16)
    && d'.freeInodes == d.freeInodes - 1 && Balance(d') == Balance(d)
    && (NoRows(d, dir) ==> NoRows(d', dir)) && Hung(d, d', dir, w)
    && (w.At? || w.Leaked?) && Aimed(d, dir, w)
    && (w.At? ==> w.q < LEAVES && FirstFree(BlockOf(Table(d, dir)[w.q]), w.j)
                  && Table(d', dir) == Put(Table(d, dir), w.q, w.j, Entry(c, x)))
    && (w.Leaked? ==> Table(d', dir) == Table(d, dir))
  }

  /** Where the new inode is entered; a leaked entry is in no leaf. */
  function NewSpot(dir: nat, w: Where): Spot {
    if w.At? then Spot(dir, w.q, w.j) else Spot(dir, LEAVES, 0)
  }

  lemma OtherDir(d: Disk, d': Disk, dir: nat, x: nat, i: nat)
    requires Elsewhere(d, d', dir, x) && i < INODES && i != dir && i != x
    ensures d'.inodes[i] == d.inodes[i] && Table(d', i) == Table(d, i) && (NoRows(d, i) ==> NoRows(d', i))
  {
    hide PtrAt, NoRows, SameTree;
    SameTreeTable(d, d', i);
  }

  lemma EmptyInode(d: Disk, x: nat)
    requires x < INODES && d.inodes[x].direct == NO_INODE.direct && d.inodes[x].single == None
             && d.inodes[x].double == None
    ensures NoRows(d, x) && Table(d, x) == seq(4168, _ => None)
  {
    forall q | 0 <= q < LEAVES ensures LeafOf(d, x, q) == None {}
    SameTable(d, x, seq(4168, _ => None));
  }

  /** A new directory is in order. */
  lemma NewDirOk(d: Disk, up: map<nat, Spot>, x: nat)
    requires x < INODES && d.inodes[x].direct == NO_INODE.direct && d.inodes[x].single == None
             && d.inodes[x].double == None
    ensures DirOk(d, up, x)
  {
    hide PtrAt, FileData.LeafSlot, Table;
    EmptyInode(d, x);
  }

  /** A directory whose table has not changed stays in order. */
  lemma OldDirOk(d: Disk, up: map<nat, Spot>, d': Disk, x: nat, s: Spot, i: nat)
    requires DirOk(d, up, i) && Table(d', i) == Table(d, i) && NoRows(d', i)
    requires x < INODES && d.inodes[x].kind == NoFile
    requires forall y :: 0 <= y < INODES && y != x ==> d'.inodes[y].kind == d.inodes[y].kind
    ensures DirOk(d', up[x := s], i)
  {
    hide Table, NoRows, TidyTable;
  }

  /** The free entry really is a zeroed one. */
  lemma FreeIsZeroed(t: DirTable, q: nat, j: nat)
    requires TidyTable(t) && q < LEAVES && FirstFree(BlockOf(t[q]), j)
    ensures FreeAt(t, q, j)
  {
    if t[q].Some? { assert Tidy(t[q].value); }
  }

  lemma PutTidy(t: DirTable, q: nat, j: nat, e: Entry)
    requires TidyTable(t) && q < LEAVES && j < ENTRIES && e.name != "" && e.ino != 0
    ensures TidyTable(Put(t, q, j, e))
  {
    var u := Put(t, q, j, e);
    assert Tidy(BlockOf(t[q]));
    assert Tidy(u[q].value);
  }

  /** What is in use after an entry was added: the entry, and what was in use before. */
  lemma PutInUse(t: DirTable, q: nat, j: nat, e: Entry, r: nat, i: nat)
    requires q < LEAVES && j < ENTRIES && r < LEAVES && i < ENTRIES
    requires Put(t, q, j, e)[r].Some? && Put(t, q, j, e)[r].value[i].ino != 0
    ensures (r == q && i == j && Put(t, q, j, e)[r].value[i] == e)
            || (t[r].Some? && t[r].value[i] == Put(t, q, j, e)[r].value[i])
  {
  }

  /** The directory with the new entry stays in order. */
  lemma PutDirOk(d: Disk, up: map<nat, Spot>, d': Disk, x: nat, dir: nat, q: nat, j: nat, c: string)
    requires DirOk(d, up, dir) && NoRows(d', dir) && c != ""
    requires q < LEAVES && FirstFree(BlockOf(Table(d, dir)[q]), j)
             && Table(d', dir) == Put(Table(d, dir), q, j, Entry(c, x))
    requires 0 < x < INODES && x != dir && d.inodes[x].kind == NoFile && d'.inodes[x].kind != NoFile
    requires forall y :: 0 <= y < INODES && y != x ==> d'.inodes[y].kind == d.inodes[y].kind
    ensures DirOk(d', up[x := Spot(dir, q, j)], dir)
  {
    hide Table, NoRows, TidyTable, Put, FirstFree;
    var t := Table(d, dir);
    assert j < ENTRIES by { FreeIsZeroed(t, q, j); }
    PutTidy(t, q, j, Entry(c, x));
    var up' := up[x := Spot(dir, q, j)];
    forall r, i | 0 <= r < LEAVES && 0 <= i < ENTRIES && Table(d', dir)[r].Some? && Table(d', dir)[r].value[i].ino != 0
      ensures EntryOk(d', up', Table(d', dir)[r].value[i].ino, Spot(dir, r, i))
    {
      PutInUse(t, q, j, Entry(c, x), r, i);
    }
  }

  lemma CreatedKinds(d: Disk, d': Disk, dir: nat, c: string, x: nat, kind: Kind, mode: nat, w: Where)
    requires Created(d, d', dir, c, x, kind, mode, w)
    ensures dir != x && forall y :: 0 <= y < INODES && y != x ==> d'.inodes[y].kind == d.inodes[y].kind
  {
    hide Table, NoRows, SameTree, Put, FirstFree, Balance;
  }

  /** The tree stays in order. */
  lemma CreatedTree(d: Disk, up: map<nat, Spot>, d': Disk, dir: nat, c: string, x: nat, kind: Kind, mode: nat, w: Where)
    requires TreeOk(d, up) && Created(d, d', dir, c, x, kind, mode, w)
    ensures TreeOk(d', up[x := NewSpot(dir, w)])
  {
    hide Table, NoRows, Put, FirstFree, Balance, DirOk, Elsewhere;
    CreatedKinds(d, d', dir, c, x, kind, mode, w);
    var up' := up[x := NewSpot(dir, w)];
    forall i | 0 <= i < INODES && d'.inodes[i].kind == Dir ensures DirOk(d', up', i) {
      if i == x {
        NewDirOk(d', up', x);
      } else {
        assert DirOk(d, up, i);
        assert NoRows(d, i) by { DirNoRows(d, up, i); }
        if i != dir { OtherDir(d, d', dir, x, i); }
        if i == dir && w.At? {
          PutDirOk(d, up, d', x, dir, w.q, w.j, c);
        } else {
          OldDirOk(d, up, d', x, NewSpot(dir, w), i);
        }
      }
    }
  }

  lemma DirNoRows(d: Disk, up: map<nat, Spot>, i: nat)
    requires DirOk(d, up, i)
    ensures NoRows(d, i)
  {
  }

  lemma KidsPlus(up: map<nat, Spot>, x: nat, s: Spot, i: nat)
    requires x !in up
    ensures Kids(up[x := s], i) == Kids(up, i) + (if i == s.dir then {x} else {}) && x !in Kids(up, i)
  {
  }

  /** The accounts stay balanced. */
  lemma CreatedLedger(d: Disk, up: map<nat, Spot>, d': Disk, dir: nat, c: string, x: nat, kind: Kind, mode: nat,
          w: Where)
    requires Ledger(d, up) && Created(d, d', dir, c, x, kind, mode, w)
    ensures Ledger(d', up[x := NewSpot(dir, w)])
  {
    hide Table, NoRows, Put, FirstFree, Balance, SameTree, Kids, Entered, Zeroes, InDirs, Sizes;
    CreatedKinds(d, d', dir, c, x, kind, mode, w);
    var s := NewSpot(dir, w);
    EnteredPlus(d, up, d', x, s);
    assert x !in up by { NotEntered(d, up, x); }
    assert (up[x := s]).Keys == up.Keys + {x};
    assert InDirs(d', up[x := s]) by { InDirsPlus(d, up, d', x, s); }
    assert Sizes(d', up[x := s]) by { SizesPlus(d, up, d', x, s); }
    assert Zeroes(d') by { ZeroesPlus(d, d', x); }
  }

  lemma NotEntered(d: Disk, up: map<nat, Spot>, x: nat)
    requires Entered(d, up) && x < INODES && d.inodes[x].kind == NoFile
    ensures x !in up
  {
    assert !InUse(d, x);
  }

  lemma EnteredPlus(d: Disk, up: map<nat, Spot>, d': Disk, x: nat, s: Spot)
    requires Entered(d, up) && 0 < x < INODES && d'.inodes[x].kind != NoFile
    requires forall y :: 0 <= y < INODES && y != x ==> d'.inodes[y].kind == d.inodes[y].kind
    ensures Entered(d', up[x := s])
  {
    forall y: nat ensures y in up[x := s] <==> InUse(d', y) { assert y in up <==> InUse(d, y); }
  }

  lemma InDirsPlus(d: Disk, up: map<nat, Spot>, d': Disk, x: nat, s: Spot)
    requires InDirs(d, up) && x < INODES && d.inodes[x].kind == NoFile
    requires s.dir < INODES && d'.inodes[s.dir].kind == Dir && s.dir != x
    requires forall y :: 0 <= y < INODES && y != x ==> d'.inodes[y].kind == d.inodes[y].kind
    ensures InDirs(d', up[x := s])
  {
  }

  lemma ZeroesPlus(d: Disk, d': Disk, x: nat)
    requires Zeroes(d) && x < INODES && d'.inodes[x].kind != NoFile
    requires forall y :: 0 <= y < INODES && y != x ==> d'.inodes[y] == d.inodes[y] || d'.inodes[y].kind == Dir
    ensures Zeroes(d')
  {
  }

  lemma SizesPlus(d: Disk, up: map<nat, Spot>, d': Disk, x: nat, s: Spot)
    requires Ledger(d, up) && 0 < x < INODES && d.inodes[x].kind == NoFile && d'.inodes[x].size == 0
    requires s.dir < INODES && s.dir != x && d.inodes[s.dir].kind == Dir
             && d'.inodes[s.dir].size == Plus32(d.inodes[s.dir].size, 16)
    requires forall y :: 0 <= y < INODES && y != x && y != s.dir ==> d'.inodes[y] == d.inodes[y]
    ensures Sizes(d', up[x := s])
  {
    hide Kids, Entered, Zeroes, InDirs;
    assert x !in up by { NotEntered(d, up, x); }
    KidsBound(d, up, s.dir);
    forall i | 0 <= i < INODES && d'.inodes[i].kind == Dir ensures d'.inodes[i].size == 16 * |Kids(up[x := s], i)| {
      KidsPlus(up, x, s, i);
      if i == x { NoKids(d, up, x); }
    }
  }

  lemma NoKids(d: Disk, up: map<nat, Spot>, x: nat)
    requires Ledger(d, up) && x < INODES && d.inodes[x].kind != Dir
    ensures Kids(up, x) == {}
  {
  }

  // ---------------------------------------------------------------- what paths lead to

  /** Lookups of any other name are unaffected. */
  lemma CreatedLookup(d: Disk, up: map<nat, Spot>, d': Disk, dir: nat, c: string, x: nat, kind: Kind, mode: nat,
          w: Where, y: nat, m: string)
    requires TreeOk(d, up) && Created(d, d', dir, c, x, kind, mode, w) && y < INODES && y != x && m != ""
    requires y == dir ==> m != c || w.Leaked?
    ensures Lookup(Table(d', y), m) == Lookup(Table(d, y), m)
  {
    hide Table, NoRows, Put, FirstFree, Balance, SameTree, Lookup, Elsewhere, TidyTable, FreeAt;
    if y != dir {
      OtherDir(d, d', dir, x, y);
    } else if w.At? {
      assert DirOk(d, up, dir);
      FreeIsZeroed(Table(d, dir), w.q, w.j);
      PutKeepsOthers(Table(d, dir), w.q, w.j, Entry(c, x), m);
    }
  }

  /** Paths that do not pass through the new name resolve as before, including not at all. */
  lemma {:induction false} CreatedFrame(d: Disk, up: map<nat, Spot>, d': Disk, dir: nat, c: string, x: nat,
          kind: Kind, mode: nat, w: Where,
                                        cs: seq<string>, ds: seq<string>)
    requires Owned(d) && TreeOk(d, up) && Created(d, d', dir, c, x, kind, mode, w)
    requires Named(cs) && Resolve(d, 0, cs) == Some(dir) && Named(ds)
    requires w.Leaked? || !(cs + [c] <= ds)
    ensures Resolve(d', 0, ds) == Resolve(d, 0, ds)
    decreases |ds|
  {
    hide Owned, TreeOk, Created, Table, Lookup;
    if ds != [] {
      var a, m := ds[..|ds| - 1], ds[|ds| - 1];
      assert ds == a + [m];
      assert !(cs + [c] <= ds) ==> !(cs + [c] <= a);
      CreatedFrame(d, up, d', dir, c, x, kind, mode, w, cs, a);
      ResolveSnoc(d, 0, a, m);
      ResolveSnoc(d', 0, a, m);
      if Resolve(d, 0, a).Some? {
        var y := Resolve(d, 0, a).value;
        ResolvedInUse(d, up, a);
        if y == dir {
          UniquePath(d, up, a, cs);
          if m == c { assert cs + [c] == ds; }
        }
        NewInodeFree(d, d', dir, c, x, kind, mode, w);
        CreatedLookup(d, up, d', dir, c, x, kind, mode, w, y, m);
      }
    }
  }

  lemma NewInodeFree(d: Disk, d': Disk, dir: nat, c: string, x: nat, kind: Kind, mode: nat, w: Where)
    requires Created(d, d', dir, c, x, kind, mode, w)
    ensures 0 < x < INODES && d.inodes[x].kind == NoFile && x != dir
  {
  }

  /** The new path leads to the new inode, unless an earlier entry of the directory has the same name, which then still
      is the one that is found; or the entry was leaked, and nothing is found that was not found before. */
  lemma CreatedResolves(d: Disk, up: map<nat, Spot>, d': Disk, dir: nat, c: string, x: nat, kind: Kind, mode: nat,
          w: Where, cs: seq<string>)
    requires Owned(d) && TreeOk(d, up) && Created(d, d', dir, c, x, kind, mode, w) && Named(cs)
             && Resolve(d, 0, cs) == Some(dir)
    ensures w.At? ==> w.q < LEAVES && w.j < ENTRIES
    ensures w.At? && !NameBefore(Table(d, dir), c, w.q, w.j) ==> Resolve(d', 0, cs + [c]) == Some(x)
    ensures w.At? && NameBefore(Table(d, dir), c, w.q, w.j) ==>
            Resolve(d', 0, cs + [c]) == Resolve(d, 0, cs + [c]) != None
    ensures w.Leaked? ==> Resolve(d', 0, cs + [c]) == Resolve(d, 0, cs + [c])
  {
    hide Owned, Table, Lookup, NoRows, Put, SameTree, NameBefore, Elsewhere, TidyTable, Balance;
    CreatedFrame(d, up, d', dir, c, x, kind, mode, w, cs, cs) by { assert !(cs + [c] <= cs); }
    ResolveSnoc(d, 0, cs, c);
    ResolveSnoc(d', 0, cs, c);
    assert DirOk(d, up, dir);
    if w.At? {
      FreeIsZeroed(Table(d, dir), w.q, w.j);
      PutFound(Table(d, dir), w.q, w.j, Entry(c, x));
    }
  }

  lemma NoneThere(d: Disk, x: nat, m: string)
    requires x < INODES && d.inodes[x].direct == NO_INODE.direct && d.inodes[x].single == None
             && d.inodes[x].double == None
    ensures Lookup(Table(d, x), m) == None
  {
    hide Table;
    EmptyInode(d, x);
    NoneAnywhere(Table(d, x), m);
  }

  /** If the name was absent, every other path whatsoever resolves as before. */
  lemma CreatedFrameAbsent(d: Disk, up: map<nat, Spot>, d': Disk, dir: nat, c: string, x: nat, kind: Kind, mode: nat,
          w: Where,
                           cs: seq<string>, ds: seq<string>)
    requires Owned(d) && TreeOk(d, up) && Created(d, d', dir, c, x, kind, mode, w)
    requires Named(cs) && Resolve(d, 0, cs) == Some(dir) && Named(ds)
    requires Lookup(Table(d, dir), c) == None && ds != cs + [c]
    ensures Resolve(d', 0, ds) == Resolve(d, 0, ds)
  {
    hide Owned, TreeOk, Table, Lookup, NoRows, Put, SameTree, NameBefore, Elsewhere, TidyTable, Balance, Resolve;
    if cs + [c] <= ds && w.At? {
      var es := ds[|cs + [c]|..];
      assert ds == cs + [c] + es && es != [];
      ResolveAppend(d, 0, cs + [c], es);
      ResolveAppend(d', 0, cs + [c], es);
      CreatedResolves(d, up, d', dir, c, x, kind, mode, w, cs);
      ResolveSnoc(d, 0, cs, c);
      NoneThere(d', x, es[0]);
      ResolveNone(d', x, es);
    } else {
      CreatedFrame(d, up, d', dir, c, x, kind, mode, w, cs, ds);
    }
  }

  lemma ResolveNone(d: Disk, x: nat, es: seq<string>)
    requires es != [] && Lookup(Table(d, x), es[0]) == None
    ensures Resolve(d, x, es) == None
  {
  }

  // ---------------------------------------------------------------- names stay unique

  /** A name that is not found is in no entry. */
  lemma AbsentEverywhere(t: DirTable, name: string, q: nat, k: nat)
    requires Lookup(t, name) == None && q < LEAVES && k < ENTRIES && t[q].Some?
    ensures t[q].value[k].name != name && LeafLookup(t[q], name) == None
  {
    hide FindFrom;
    var p := LookupAt(t, name, 0);
    assert LeafLookup(t[q], name) == None;
    var i := FindFrom(t[q].value, name, 0);
  }

  lemma PutEntry(t: DirTable, q: nat, j: nat, e: Entry, a: nat, k: nat)
    requires FreeAt(t, q, j) && Lookup(t, e.name) == None && a < LEAVES && k < ENTRIES
    requires Put(t, q, j, e)[a].Some? && Put(t, q, j, e)[a].value[k].name != ""
    ensures (a == q && k == j)
            || (t[a].Some? && t[a].value[k] == Put(t, q, j, e)[a].value[k] && t[a].value[k].name != e.name)
    ensures Put(t, q, j, e)[q].Some? && Put(t, q, j, e)[q].value[j] == e
  {
    hide Lookup;
    if !(a == q && k == j) { AbsentEverywhere(t, e.name, a, k); }
  }

  lemma PutUnique(t: DirTable, q: nat, j: nat, e: Entry)
    requires UniqueNames(t) && FreeAt(t, q, j) && e.name != "" && Lookup(t, e.name) == None
    ensures UniqueNames(Put(t, q, j, e))
  {
    hide Lookup, Put;
    var u := Put(t, q, j, e);
    forall a, k, b, l | 0 <= a < LEAVES && 0 <= k < ENTRIES && 0 <= b < LEAVES && 0 <= l < ENTRIES
      && u[a].Some? && u[b].Some? && u[a].value[k].name == u[b].value[l].name && u[a].value[k].name != ""
      ensures a == b && k == l
    {
      PutEntry(t, q, j, e, a, k);
      PutEntry(t, q, j, e, b, l);
    }
  }

  lemma PutNoEmptyLeaf(t: DirTable, q: nat, j: nat, e: Entry)
    requires NoEmptyLeaf(t) && q < LEAVES && j < ENTRIES && e.ino != 0
    ensures NoEmptyLeaf(Put(t, q, j, e))
  {
    hide CountFrom;
    var u := Put(t, q, j, e);
    CountPositive(u[q].value, 0, j);
  }

  /** A name that was absent keeps the directories neat. */
  lemma CreatedNeat(d: Disk, up: map<nat, Spot>, d': Disk, dir: nat, c: string, x: nat, kind: Kind, mode: nat, w: Where)
    requires TreeOk(d, up) && Neat(d) && Created(d, d', dir, c, x, kind, mode, w) && Lookup(Table(d, dir), c) == None
    ensures Neat(d')
  {
    hide Table, NoRows, Put, SameTree, Lookup, Elsewhere, TidyTable, Balance, UniqueNames, NoEmptyLeaf, FreeAt;
    CreatedKinds(d, d', dir, c, x, kind, mode, w);
    forall i | 0 <= i < INODES && d'.inodes[i].kind == Dir
           ensures UniqueNames(Table(d', i)) && NoEmptyLeaf(Table(d', i)) {
      if i == x {
        EmptyInode(d', x);
        EmptyNeat();
      } else if i != dir {
        OtherDir(d, d', dir, x, i);
      } else if w.At? {
        assert DirOk(d, up, dir);
        FreeIsZeroed(Table(d, dir), w.q, w.j);
        PutUnique(Table(d, dir), w.q, w.j, Entry(c, x));
        PutNoEmptyLeaf(Table(d, dir), w.q, w.j, Entry(c, x));
      }
    }
  }

  lemma EmptyNeat()
    ensures UniqueNames(seq(4168, _ => None)) && NoEmptyLeaf(seq(4168, _ => None))
  {
  }
}
