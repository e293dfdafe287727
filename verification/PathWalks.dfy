/** What any path means, canonical or not: the same as some list of names. */
module PathWalks {
  import opened Options
  import opened Disk
  import opened Directory
  import opened DirTree
  import opened Paths
  import opened Tree
  import Ledgers

  /** The names cs lead where the path leads, or nowhere if it leads nowhere. */
  ghost predicate Means(d: Disk, path: string, cs: seq<string>) {
    path != "" && Named(cs) && Resolve(d, 0, cs) == Find(d, path)
  }

  function Front(p: seq<string>): seq<string>
    requires p != []
  {
    p[..|p| - 1]
  }

  function Last(p: seq<string>): string
    requires p != []
  {
    p[|p| - 1]
  }

  lemma FrontLast(cs: seq<string>, c: string)
    ensures cs + [c] != [] && Front(cs + [c]) == cs && Last(cs + [c]) == c
  {
  }

  /** A canonical path means its components. */
  lemma CanonicalMeans(d: Disk, up: map<nat, Spot>, cs: seq<string>)
    requires TreeOk(d, up) && GoodNames(cs) && ThroughDirs(d, 0, cs)
    ensures OnDirs(d, PathOf(cs)) && Means(d, PathOf(cs), cs)
  {
    hide TreeOk, Table, Lookup, Split, Step;
    PathForm(cs);
    if cs != [] {
      SplitPath(cs);
      WalkIsResolve(d, up, 0, cs);
    }
  }

  // ---------------------------------------------------------------- walks

  lemma {:induction false} WalkSnoc(d: Disk, cur: nat, cs: seq<string>, c: string)
    ensures Walk(d, cur, cs + [c]) == match Walk(d, cur, cs) case None => None case Some(x) => Step(Table(d, x), c, x)
    decreases |cs|
  {
    hide Table, Step;
    if cs == [] {
      assert [c][1..] == [];
    } else {
      assert (cs + [c])[0] == cs[0] && (cs + [c])[1..] == cs[1..] + [c];
      match Step(Table(d, cur), cs[0], cur) {
        case None =>
        case Some(x) => WalkSnoc(d, x, cs[1..], c);
      }
    }
  }

  lemma {:induction false} ThroughSnoc(d: Disk, cur: nat, cs: seq<string>, c: string)
    requires ThroughDirs(d, cur, cs + [c])
    ensures ThroughDirs(d, cur, cs) && DirIfAny(d, Walk(d, cur, cs))
    decreases |cs|
  {
    hide Table, Step;
    if cs != [] {
      assert (cs + [c])[0] == cs[0] && (cs + [c])[1..] == cs[1..] + [c];
      match Step(Table(d, cur), cs[0], cur) {
        case None =>
        case Some(x) => ThroughSnoc(d, x, cs[1..], c);
      }
    }
  }

  /** An empty component after the root leads nowhere. */
  lemma RootEmptyComponent(d: Disk, up: map<nat, Spot>)
    requires TreeOk(d, up)
    ensures Step(Table(d, 0), "", 0) == None
  {
    hide Table, FindFrom;
    assert DirOk(d, up, 0);
    var t := Table(d, 0);
    forall q | 0 <= q < LEAVES ensures LeafLookup(t[q], "") == None || LeafLookup(t[q], "") == Some(0) {
      if Has(t[q], "") { var k := HasWhere(t[q], ""); }
    }
    hide LeafLookup;
    StepPasses(t, "", Some(0), 0, LEAVES);
  }

  /** One step of a walk from where the names cs lead, in names. */
  lemma StepMeans(d: Disk, up: map<nat, Spot>, y: nat, cs: seq<string>, m: string) returns (ds: seq<string>)
    requires TreeOk(d, up) && y < INODES && d.inodes[y].kind == Dir && Named(cs) && Resolve(d, 0, cs) == Some(y)
    requires Step(Table(d, y), m, y).Some?
    ensures Named(ds) && Resolve(d, 0, ds) == Step(Table(d, y), m, y)
    ensures if m != "" then ds == cs + [m] else ds == [] && y != 0
  {
    hide TreeOk, Table, Lookup, Step, LeafLookup;
    if m == "" {
      if y == 0 {
        RootEmptyComponent(d, up);
      } else {
        EmptyComponent(d, up, y);
      }
      ds := [];
    } else {
      StepIsLookup(d, up, y, m);
      ResolveSnoc(d, 0, cs, m);
      ds := cs + [m];
    }
  }

  /** Where a walk leads, names lead. */
  lemma {:induction false} Straight(d: Disk, up: map<nat, Spot>, comps: seq<string>) returns (cs: seq<string>)
    requires TreeOk(d, up) && ThroughDirs(d, 0, comps) && Walk(d, 0, comps).Some?
    ensures Named(cs) && Resolve(d, 0, cs) == Walk(d, 0, comps)
    decreases |comps|
  {
    hide TreeOk, Table, Lookup, Step;
    cs := [];
    if comps != [] {
      var a, m := Front(comps), Last(comps);
      assert comps == a + [m];
      WalkSnoc(d, 0, a, m);
      ThroughSnoc(d, 0, a, m);
      var bs := Straight(d, up, a);
      cs := StepMeans(d, up, Walk(d, 0, a).value, bs, m);
    }
  }

  // ---------------------------------------------------------------- a name that is nowhere

  /** The length of the longest name from entry j on. */
  function LongestFrom(es: Entries16, j: nat): (n: nat)
    requires j <= ENTRIES
    ensures forall i :: j <= i < ENTRIES ==> |es[i].name| <= n
    decreases ENTRIES - j
  {
    if j == ENTRIES then 0
    else
      var n := LongestFrom(es, j + 1);
      if |es[j].name| >= n then |es[j].name| else n
  }

  function LongestIn(t: DirTable, q: nat): (n: nat)
    requires q <= LEAVES
    ensures forall r, i :: q <= r < LEAVES && 0 <= i < ENTRIES && t[r].Some? ==> |t[r].value[i].name| <= n
    decreases LEAVES - q
  {
    if q == LEAVES then 0
    else
      var n := LongestIn(t, q + 1);
      var m := if t[q] == None then 0 else LongestFrom(t[q].value, 0);
      if m >= n then m else n
  }

  lemma SomeAbsentName(t: DirTable) returns (name: string)
    ensures name != "" && Lookup(t, name) == None
  {
    hide FindFrom;
    var n := LongestIn(t, 0);
    name := seq(n + 1, _ => 'x');
    forall q | 0 <= q < LEAVES ensures LeafLookup(t[q], name) == None {
      if Has(t[q], name) { var k := HasWhere(t[q], name); }
    }
    hide LeafLookup;
    NoneAnywhere(t, name);
  }

  /** Every path that leads through directories, with empty components or not, means some list of names. */
  lemma EveryPathMeans(d: Disk, up: map<nat, Spot>, path: string) returns (cs: seq<string>)
    requires TreeOk(d, up) && OnDirs(d, path)
    ensures Means(d, path, cs)
  {
    hide TreeOk, Table, Lookup, Step, Split;
    if path == "/" {
      cs := [];
    } else if Find(d, path).Some? {
      cs := Straight(d, up, Split(path[1..]));
    } else {
      var name := SomeAbsentName(Table(d, 0));
      cs := [name];
      assert [] + [name] == [name];
      ResolveSnoc(d, 0, [], name);
    }
  }

  // ---------------------------------------------------------------- the two parts of a path

  /** The directory part can be searched, and leads to a directory if it leads anywhere. */
  ghost predicate IntoDir(d: Disk, path: string) {
    DirPart(path) != "" && OnDirs(d, DirPart(path)) && DirIfAny(d, Find(d, DirPart(path)))
  }

  lemma NoSlashAfter(path: string)
    ensures NoSlash(NamePart(path))
  {
    hide LastSlash;
  }

  /** The components of a path with a directory part: those of that part, and the name. */
  lemma Parts(path: string)
    requires DirPart(path) != "" && path != "/"
    ensures Split(path[1..]) == if DirPart(path) != "/" then Split(DirPart(path)[1..]) + [NamePart(path)]
                                else if LastSlash(path) == 0 then [NamePart(path)]
                                else ["", NamePart(path)]
  {
    hide LastSlash, Split;
    var i, rest := LastSlash(path), path[1..];
    NoSlashAfter(path);
    if i == 0 {
      SplitOne(rest);
    } else {
      SplitLast(rest, i - 1);
      assert rest[..i - 1] == path[..i][1..];
      assert rest[i..] == NamePart(path);
      if path[..i] == "/" {
        SplitOne("");
        assert path[..i][1..] == "";
      }
    }
  }

  /** If a path leads to a file other than the root, its directory part leads to the directory the file is in, and its
      last component is the name there. */
  lemma TargetParts(d: Disk, up: map<nat, Spot>, path: string, p: seq<string>)
    requires Owned(d) && TreeOk(d, up) && OnDirs(d, path) && Means(d, path, p)
    requires path != "/" && DirPart(path) != "" && Find(d, path).Some? && p != []
    ensures IntoDir(d, path) && Means(d, DirPart(path), Front(p)) && Find(d, DirPart(path)).Some?
    ensures Last(p) == NamePart(path) != ""
  {
    hide TreeOk, Owned, Table, Lookup, Step, Split, LastSlash, DirPart, NamePart;
    var c := NamePart(path);
    Parts(path);
    NotRoot(d, up, p);
    RootEmptyComponent(d, up);
    var dp := DirPart(path);
    if dp == "/" {
      WalkSnoc(d, 0, [], c);
      assert [] + [c] == [c];
      if LastSlash(path) != 0 {
        EmptyFirst(d, c);
      }
      ThroughSnoc(d, 0, [], c);
      MeantParts(d, up, p, 0, [], c);
    } else {
      var comps := Split(dp[1..]);
      WalkSnoc(d, 0, comps, c);
      ThroughSnoc(d, 0, comps, c);
      var cs := Straight(d, up, comps);
      MeantParts(d, up, p, Walk(d, 0, comps).value, cs, c);
    }
  }

  lemma EmptyFirst(d: Disk, c: string)
    requires Step(Table(d, 0), "", 0) == None
    ensures Walk(d, 0, ["", c]) == None
  {
    hide Step, Table;
  }

  lemma MeantParts(d: Disk, up: map<nat, Spot>, p: seq<string>, y: nat, cs: seq<string>, c: string)
    requires Owned(d) && TreeOk(d, up) && Named(p) && p != [] && Resolve(d, 0, p).Some? && Resolve(d, 0, p) != Some(0)
    requires y < INODES && d.inodes[y].kind == Dir && Named(cs) && Resolve(d, 0, cs) == Some(y)
    requires Step(Table(d, y), c, y) == Resolve(d, 0, p)
    ensures c != "" && Front(p) == cs && Last(p) == c
  {
    hide TreeOk, Owned, Table, Lookup, Step;
    var ds := StepMeans(d, up, y, cs, c);
    UniquePath(d, up, p, ds);
  }

  /** A path that is not "/" but leads to the root leads there through an entry of the root. */
  lemma RootNotEmpty(d: Disk, up: map<nat, Spot>, path: string)
    requires TreeOk(d, up) && Ledgers.Ledger(d, up) && OnDirs(d, path) && path != "/" && Find(d, path) == Some(0)
    ensures d.inodes[0].kind == Dir && d.inodes[0].size > 0
  {
    hide TreeOk, Table, Lookup, Step, Split, Ledgers.Entered, Ledgers.Zeroes, Ledgers.InDirs;
    var comps := Split(path[1..]);
    assert comps != [] by { SplitSome(path[1..]); }
    RootEmptyComponent(d, up);
    assert comps[0] != "";
    StepIsLookup(d, up, 0, comps[0]);
    var s := Found(d, up, 0, comps[0]);
    assert Lookup(Table(d, 0), comps[0]).value in Ledgers.Kids(up, 0);
  }

  lemma SplitSome(s: string)
    ensures Split(s) != []
  {
    hide FirstSlash;
  }
}
