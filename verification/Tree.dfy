/** The directory tree: its invariant, path resolution as a fold, and my_find_inode_number. */
module Tree {
  import opened Options
  import opened Disk
  import opened Directory
  import opened DirTree
  import DirSearch
  import opened RamDisks
  import opened Paths

  /** Where an entry is: directory, leaf, index in the leaf. */
  datatype Spot = Spot(dir: nat, q: nat, j: nat)

  /** The entries of directory i: named, leading to inodes in use, and each the only one that leads there. */
  ghost predicate DirOk(d: Disk, up: map<nat, Spot>, i: nat) {
    && TidyTable(Table(d, i)) && NoRows(d, i)
    && forall q, j ::
         0 <= q < LEAVES && 0 <= j < ENTRIES && Table(d, i)[q].Some? && Table(d, i)[q].value[j].ino != 0 ==>
         EntryOk(d, up, Table(d, i)[q].value[j].ino, Spot(i, q, j))
  }

  predicate EntryOk(d: Disk, up: map<nat, Spot>, x: nat, s: Spot) {
    x < INODES && d.inodes[x].kind != NoFile && x != s.dir && x in up && up[x] == s
  }

  /** Every directory is in order, and inode 0 is one. */
  ghost predicate TreeOk(d: Disk, up: map<nat, Spot>) {
    d.inodes[0].kind == Dir && forall i :: 0 <= i < INODES && d.inodes[i].kind == Dir ==> DirOk(d, up, i)
  }

  /** Looking up the components one after the other. */
  function Resolve(d: Disk, cur: nat, cs: seq<string>): Option<nat>
    decreases |cs|
  {
    if cs == [] then Some(cur)
    else match Lookup(Table(d, cur), cs[0])
         case None => None
         case Some(x) => Resolve(d, x, cs[1..])
  }

  /** What the loop of my_find_inode_number computes: the same with its own search. */
  function Walk(d: Disk, cur: nat, cs: seq<string>): Option<nat>
    decreases |cs|
  {
    if cs == [] then Some(cur)
    else match Step(Table(d, cur), cs[0], cur)
         case None => None
         case Some(x) => Walk(d, x, cs[1..])
  }

  /** No component is empty. */
  predicate Named(cs: seq<string>) { forall i :: 0 <= i < |cs| ==> cs[i] != "" }

  /** Every inode that is searched on the way is a directory. */
  ghost predicate ThroughDirs(d: Disk, cur: nat, cs: seq<string>)
    decreases |cs|
  {
    cs == [] ||
    (cur < INODES && d.inodes[cur].kind == Dir
     && match Step(Table(d, cur), cs[0], cur)
        case None => true
        case Some(x) => ThroughDirs(d, x, cs[1..]))
  }

  /** The inode my_find_inode_number takes a path to lead to: its first character is passed over, whatever it is. */
  function Find(d: Disk, path: string): Option<nat>
    requires path != ""
  {
    if path == "/" then Some(0) else Walk(d, 0, Split(path[1..]))
  }

  /** Every inode that is searched for a component of the path is a directory. */
  ghost predicate OnDirs(d: Disk, path: string) {
    path != "" && (path == "/" || ThroughDirs(d, 0, Split(path[1..])))
  }

  /** my_find_inode_number. */
  method MyFindInodeNumber(disk: RamDisk, path: string) returns (r: int)
    requires disk.Valid() && OnDirs(disk.View(), path)
    ensures r == match Find(disk.View(), path) case None => -1 case Some(x) => x
  {
    hide Sound, Table, Step, RamDisk.View, Split;
    if path == "/" {
      return 0;
    }
    ghost var d, all := disk.View(), Split(path[1..]);
    var cur: nat := 0;
    var rest := Some(path[1..]);
    while rest != None
      invariant Walk(d, 0, all) == Walk(d, cur, if rest == None then [] else Split(rest.value))
      invariant ThroughDirs(d, cur, if rest == None then [] else Split(rest.value))
      decreases if rest == None then 0 else |rest.value| + 1
    {
      var found, left := Strsep(rest.value);
      ghost var cs := Split(rest.value);
      assert cs[1..] == if left == None then [] else Split(left.value);
      var hit := FindComponent(disk, cur, found);
      if hit == None {
        return -1;
      }
      cur := hit.value;
      rest := left;
    }
    r := cur;
  }

  /** The search for one component in directory cur; the match must differ from cur. */
  method FindComponent(disk: RamDisk, cur: nat, name: string) returns (hit: Option<nat>)
    requires disk.Valid() && cur < INODES && disk.View().inodes[cur].kind == Dir
    ensures hit == Step(Table(disk.View(), cur), name, cur)
  {
    hide Sound, Table, StepFrom, RamDisk.View;
    hit := DirSearch.Search(disk, cur, name, Some(cur));
  }

  // ---------------------------------------------------------------- what lookups find

  /** A name that is found belongs to an entry in use, and the tree invariant speaks about it. */
  lemma Found(d: Disk, up: map<nat, Spot>, i: nat, name: string) returns (s: Spot)
    requires TreeOk(d, up) && i < INODES && d.inodes[i].kind == Dir && name != ""
    requires Lookup(Table(d, i), name).Some?
    ensures s.dir == i && s.q < LEAVES && s.j < ENTRIES && Table(d, i)[s.q].Some?
    ensures Table(d, i)[s.q].value[s.j] == Entry(name, Lookup(Table(d, i), name).value)
    ensures EntryOk(d, up, Lookup(Table(d, i), name).value, s) && Lookup(Table(d, i), name).value != 0
  {
    hide Table, LookupFrom, FindFrom;
    assert DirOk(d, up, i);
    var t := Table(d, i);
    var q := LookupAt(t, name, 0);
    var k := HasWhere(t[q], name);
    s := Spot(i, q, k);
  }

  /** No entry leads back to the directory it is in. */
  lemma NoSelf(d: Disk, up: map<nat, Spot>, i: nat, name: string, q: nat)
    requires TreeOk(d, up) && i < INODES && d.inodes[i].kind == Dir && name != "" && q < LEAVES
    ensures LeafLookup(Table(d, i)[q], name) != Some(i)
  {
    hide Table, FindFrom;
    assert DirOk(d, up, i);
    if Has(Table(d, i)[q], name) {
      var k := HasWhere(Table(d, i)[q], name);
    }
  }

  lemma StepIsLookup(d: Disk, up: map<nat, Spot>, i: nat, name: string)
    requires TreeOk(d, up) && i < INODES && d.inodes[i].kind == Dir && name != ""
    ensures Step(Table(d, i), name, i) == Lookup(Table(d, i), name)
  {
    hide Table, LeafLookup, TreeOk;
    forall q | 0 <= q < LEAVES ensures LeafLookup(Table(d, i)[q], name) != Some(i) { NoSelf(d, up, i, name, q); }
    StepIsLookupFrom(Table(d, i), name, Some(i), 0);
  }

  /** On a directory tree and with non-empty components, path resolution is the fold of the lookup. */
  lemma {:induction false} WalkIsResolve(d: Disk, up: map<nat, Spot>, cur: nat, cs: seq<string>)
    requires TreeOk(d, up) && Named(cs) && ThroughDirs(d, cur, cs)
    ensures Walk(d, cur, cs) == Resolve(d, cur, cs)
    decreases |cs|
  {
    hide Table, TreeOk, Lookup, Step;
    if cs != [] {
      StepIsLookup(d, up, cur, cs[0]);
      match Step(Table(d, cur), cs[0], cur) {
        case None =>
        case Some(x) => WalkIsResolve(d, up, x, cs[1..]);
      }
    }
  }

  /** An empty component is no no-op: in any directory but the root it leads to the root, provided that the
      directory has a free entry; otherwise the path does not resolve. */
  lemma EmptyComponent(d: Disk, up: map<nat, Spot>, cur: nat)
    requires TreeOk(d, up) && 0 < cur < INODES && d.inodes[cur].kind == Dir
    ensures Step(Table(d, cur), "", cur) ==
            if exists q :: 0 <= q < LEAVES && Has(Table(d, cur)[q], "") then Some(0) else None
  {
    hide Table, FindFrom;
    assert DirOk(d, up, cur);
    var t := Table(d, cur);
    forall q | 0 <= q < LEAVES ensures LeafLookup(t[q], "") == None || LeafLookup(t[q], "") == Some(0) {
      if Has(t[q], "") { var k := HasWhere(t[q], ""); }
    }
    hide LeafLookup;
    EmptySearch(t, cur, 0);
  }

  lemma {:induction false} EmptySearch(t: DirTable, cur: nat, p: nat)
    requires cur != 0 && p <= LEAVES && forall q :: 0 <= q < LEAVES ==>
             LeafLookup(t[q], "") == None
             || LeafLookup(t[q], "") == Some(0)
    ensures StepFrom(t, "", Some(cur), p) == if exists q :: p <= q < LEAVES && Has(t[q], "") then Some(0) else None
    decreases LEAVES - p
  {
    hide LeafLookup;
    if p < LEAVES { EmptySearch(t, cur, p + 1); }
  }

  // ---------------------------------------------------------------- paths and places

  lemma {:induction false} ResolveSnoc(d: Disk, cur: nat, cs: seq<string>, c: string)
    ensures Resolve(d, cur, cs + [c]) ==
            match Resolve(d, cur, cs) case None => None case Some(x) => Lookup(Table(d, x), c)
    decreases |cs|
  {
    hide Table, Lookup;
    if cs == [] {
      assert [c][1..] == [];
    } else {
      assert (cs + [c])[0] == cs[0] && (cs + [c])[1..] == cs[1..] + [c];
      match Lookup(Table(d, cur), cs[0]) {
        case None =>
        case Some(x) => ResolveSnoc(d, x, cs[1..], c);
      }
    }
  }

  lemma {:induction false} ResolveAppend(d: Disk, cur: nat, cs: seq<string>, ds: seq<string>)
    ensures Resolve(d, cur, cs + ds) == match Resolve(d, cur, cs) case None => None case Some(x) => Resolve(d, x, ds)
    decreases |cs|
  {
    hide Table, Lookup;
    if cs == [] {
      assert cs + ds == ds;
    } else {
      assert (cs + ds)[0] == cs[0] && (cs + ds)[1..] == cs[1..] + ds;
      match Lookup(Table(d, cur), cs[0]) {
        case None =>
        case Some(x) => ResolveAppend(d, x, cs[1..], ds);
      }
    }
  }

  /** What a path leads to is an inode in use. */
  lemma ResolvedInUse(d: Disk, up: map<nat, Spot>, cs: seq<string>)
    requires Owned(d) && TreeOk(d, up) && Named(cs) && Resolve(d, 0, cs).Some?
    ensures Resolve(d, 0, cs).value < INODES && d.inodes[Resolve(d, 0, cs).value].kind != NoFile
  {
    hide Owned, Table, Lookup, DirOk;
    if cs != [] {
      var a, c := cs[..|cs| - 1], cs[|cs| - 1];
      assert cs == a + [c];
      ResolveSnoc(d, 0, a, c);
      var i := Resolve(d, 0, a).value;
      if i >= INODES || d.inodes[i].kind != Dir { OnlyDirsHaveNames(d, i, c); }
      var s := Found(d, up, i, c);
    }
  }

  /** A table with an entry in it belongs to a directory: no other kind of inode shows any entry. */
  lemma OnlyDirsHaveNames(d: Disk, i: nat, name: string)
    requires Owned(d) && name != "" && (i >= INODES || d.inodes[i].kind != Dir)
    ensures Lookup(Table(d, i), name) == None
  {
    hide Owned, FindFrom, Table, Lookup;
    forall q | 0 <= q < LEAVES ensures LeafLookup(Table(d, i)[q], name) == None {
      NotADir(d, i, q);
      TableAt(d, i, q);
      if Table(d, i)[q].Some? { NoNames(name); }
    }
    NoneAnywhere(Table(d, i), name);
  }

  lemma NotADir(d: Disk, i: nat, q: nat)
    requires Owned(d) && q < LEAVES && (i >= INODES || d.inodes[i].kind != Dir)
    ensures LeafOf(d, i, q) == None || LeafOf(d, i, q) == Some(NO_ENTRIES)
  {
    if i >= INODES {
      NoTable(d, i, q);
    } else {
      hide PtrAt;
      var s := FileData.LeafSlot(q);
      if PtrAt(d, i, s).Some? {
        FileData.OwnerOf(d, i, s);
        assert RoleOk(d, PtrAt(d, i, s).value, d.owner[PtrAt(d, i, s).value]);
        ZeroedEntries();
      }
    }
  }

  /** Two paths that resolve to the same inode are the same path. */
  lemma {:induction false} UniquePath(d: Disk, up: map<nat, Spot>, cs: seq<string>, ds: seq<string>)
    requires Owned(d) && TreeOk(d, up) && Named(cs) && Named(ds)
    requires Resolve(d, 0, cs).Some? && Resolve(d, 0, cs) == Resolve(d, 0, ds)
    ensures cs == ds
    decreases |cs|
  {
    hide Owned, TreeOk, Table, Lookup;
    if cs == [] || ds == [] {
      if cs != [] { NotRoot(d, up, cs); }
      if ds != [] { NotRoot(d, up, ds); }
    } else {
      var a, b := cs[..|cs| - 1], ds[..|ds| - 1];
      var m, n := cs[|cs| - 1], ds[|ds| - 1];
      assert cs == a + [m] && ds == b + [n];
      var s := LastStep(d, up, a, m);
      var t := LastStep(d, up, b, n);
      assert s == t && m == n;
      UniquePath(d, up, a, b);
    }
  }

  /** The entry a path ends with. */
  lemma LastStep(d: Disk, up: map<nat, Spot>, cs: seq<string>, c: string) returns (s: Spot)
    requires Owned(d) && TreeOk(d, up) && c != "" && Resolve(d, 0, cs + [c]).Some?
    ensures Resolve(d, 0, cs) == Some(s.dir)
    ensures s.q < LEAVES && s.j < ENTRIES && Table(d, s.dir)[s.q].Some? && Table(d, s.dir)[s.q].value[s.j].name == c
    ensures Resolve(d, 0, cs + [c]).value in up && up[Resolve(d, 0, cs + [c]).value] == s
            && Resolve(d, 0, cs + [c]).value != 0
  {
    hide Owned, TreeOk, Table, Lookup;
    ResolveSnoc(d, 0, cs, c);
    var i := Resolve(d, 0, cs).value;
    if i >= INODES || d.inodes[i].kind != Dir { OnlyDirsHaveNames(d, i, c); }
    s := Found(d, up, i, c);
  }

  lemma NotRoot(d: Disk, up: map<nat, Spot>, cs: seq<string>)
    requires Owned(d) && TreeOk(d, up) && Named(cs) && cs != [] && Resolve(d, 0, cs).Some?
    ensures Resolve(d, 0, cs).value != 0
  {
    hide Owned, TreeOk, Table, Lookup;
    assert cs == cs[..|cs| - 1] + [cs[|cs| - 1]];
    var s := LastStep(d, up, cs[..|cs| - 1], cs[|cs| - 1]);
  }

  /** If all directories on the way to a name are directories, so is the last one. */
  lemma {:induction false} ThroughDirsParent(d: Disk, up: map<nat, Spot>, cur: nat, cs: seq<string>, c: string)
    requires TreeOk(d, up) && Named(cs) && ThroughDirs(d, cur, cs + [c])
    ensures ThroughDirs(d, cur, cs)
    ensures Resolve(d, cur, cs).Some? ==>
            Resolve(d, cur, cs).value < INODES
            && d.inodes[Resolve(d, cur, cs).value].kind == Dir
    decreases |cs|
  {
    hide Table, TreeOk, Lookup, Step;
    if cs != [] {
      assert (cs + [c])[0] == cs[0] && (cs + [c])[1..] == cs[1..] + [c];
      StepIsLookup(d, up, cur, cs[0]);
      match Step(Table(d, cur), cs[0], cur) {
        case None =>
        case Some(x) => ThroughDirsParent(d, up, x, cs[1..], c);
      }
    }
  }

  predicate DirIfAny(d: Disk, o: Option<nat>) {
    o.Some? ==> o.value < INODES && d.inodes[o.value].kind == Dir
  }

  /** A path leads through directories if every proper prefix of it leads to a directory or nowhere. */
  lemma {:induction false} ThroughDirsIff(d: Disk, up: map<nat, Spot>, cur: nat, cs: seq<string>)
    requires TreeOk(d, up) && Named(cs)
    ensures ThroughDirs(d, cur, cs) <==> forall k :: 0 <= k < |cs| ==> DirIfAny(d, Resolve(d, cur, cs[..k]))
    decreases |cs|
  {
    hide Table, TreeOk, Lookup, Step;
    if cs != [] {
      assert cs[..0] == [];
      if DirIfAny(d, Some(cur)) {
        StepIsLookup(d, up, cur, cs[0]);
        match Step(Table(d, cur), cs[0], cur) {
          case None =>
            forall k | 0 < k < |cs| ensures Resolve(d, cur, cs[..k]) == None {}
          case Some(x) =>
            ThroughDirsIff(d, up, x, cs[1..]);
            forall k | 0 < k < |cs| ensures Resolve(d, cur, cs[..k]) == Resolve(d, x, cs[1..][..k - 1]) {
              assert cs[..k][1..] == cs[1..][..k - 1];
            }
            if ThroughDirs(d, x, cs[1..]) {
              forall k | 0 < k < |cs| ensures DirIfAny(d, Resolve(d, cur, cs[..k])) {
                assert DirIfAny(d, Resolve(d, x, cs[1..][..k - 1]));
              }
            } else {
              var j :| 0 <= j < |cs[1..]| && !DirIfAny(d, Resolve(d, x, cs[1..][..j]));
              assert !DirIfAny(d, Resolve(d, cur, cs[..j + 1]));
            }
        }
      } else {
        assert !DirIfAny(d, Resolve(d, cur, cs[..0]));
      }
    }
  }

  lemma PathForm(cs: seq<string>)
    requires GoodNames(cs)
    ensures PathOf(cs) != "" && (PathOf(cs) == "/" <==> cs == []) && Named(cs)
  {
    if cs != [] { assert |PathOf(cs)| > 1; }
  }

  /** Resolving a canonical path is looking up its name in the directory of its directory part. */
  lemma ResolveByParts(d: Disk, cs: seq<string>, c: string)
    requires GoodNames(cs) && GoodName(c)
    ensures var p := PathOf(cs + [c]);
            && DirPart(p) == PathOf(cs)
            && Resolve(d, 0, Split(p[1..])) ==
               match Resolve(d, 0, cs) case None => None case Some(x) => Lookup(Table(d, x), NamePart(p))
  {
    hide Table, Lookup, Split, PathOf, LastSlash, DirPart;
    ParsePath(cs, c);
    SplitPath(cs + [c]);
    ResolveSnoc(d, 0, cs, c);
  }
}
