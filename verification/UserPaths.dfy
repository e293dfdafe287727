/** find_inode_number, the user-space variant of path resolution, which splits the path with strtok. */
module UserPaths {
  import opened Options
  import Directory
  import DirTree
  import opened RamDisks
  import opened Paths
  import opened Tree

  function NonEmpty(cs: seq<string>): (r: seq<string>)
    ensures forall i :: 0 <= i < |r| ==> r[i] != ""
  {
    if cs == [] then [] else (if cs[0] == "" then [] else [cs[0]]) + NonEmpty(cs[1..])
  }

  /** What the calls of strtok deliver one after the other: the components that are not empty. */
  function Tokens(s: string): seq<string> { NonEmpty(Split(s)) }

  lemma TokensLast(s: string)
    requires FirstSlash(s) == |s|
    ensures Tokens(s) == if s == "" then [] else [s]
  {
    hide NonEmpty, FirstSlash, Split;
    SplitWhole(s);
    NonEmptyCons(s, []);
    assert [s] + [] == [s];
  }

  lemma TokensMore(s: string, i: nat)
    requires FirstSlash(s) == i < |s|
    ensures Tokens(s) == (if i == 0 then [] else [s[..i]]) + Tokens(s[i + 1..])
  {
    hide NonEmpty, FirstSlash, Split;
    SplitHead(s);
    NonEmptyCons(s[..i], Split(s[i + 1..]));
  }

  lemma SplitWhole(s: string)
    requires FirstSlash(s) == |s|
    ensures Split(s) == [s]
  {
    hide FirstSlash;
  }

  lemma SplitHead(s: string)
    requires FirstSlash(s) < |s|
    ensures Split(s) == [s[..FirstSlash(s)]] + Split(s[FirstSlash(s) + 1..])
  {
    hide FirstSlash;
  }

  lemma NonEmptyCons(c: string, cs: seq<string>)
    ensures NonEmpty([c] + cs) == (if c == "" then [] else [c]) + NonEmpty(cs)
    ensures NonEmpty([]) == []
  {
    assert ([c] + cs)[1..] == cs;
  }

  /** Leading slashes yield nothing. */
  lemma {:induction false} SkipSlashes(s: string, i: nat)
    requires i <= |s| && forall j :: 0 <= j < i ==> s[j] == '/'
    ensures Tokens(s) == Tokens(s[i..])
    decreases i
  {
    hide Tokens;
    if i == 0 {
      assert s[0..] == s;
    } else {
      FirstSlashIs(s, 0);
      TokensMore(s, 0);
      assert s[1..][i - 1..] == s[i..];
      SkipSlashes(s[1..], i - 1);
    }
  }

  /** strtok(rest, "/"): the next token, and what is left behind it. */
  method Strtok(rest: string) returns (found: Option<string>, left: string)
    ensures Tokens(rest) == (if found == None then [] else [found.value]) + Tokens(left)
    ensures found == None ==> Tokens(left) == []
    ensures found.Some? ==> found.value != "" && |left| < |rest|
  {
    hide Tokens;
    var i := 0;
    while i < |rest| && rest[i] == '/'
      invariant i <= |rest| && forall j :: 0 <= j < i ==> rest[j] == '/'
    {
      i := i + 1;
    }
    SkipSlashes(rest, i);
    NoTokens();
    if i == |rest| {
      assert rest[i..] == "";
      return None, "";
    }
    var k := i;
    while k < |rest| && rest[k] != '/'
      invariant i <= k <= |rest| && forall j :: i <= j < k ==> rest[j] != '/'
    {
      k := k + 1;
    }
    FirstSlashIs(rest[i..], k - i);
    found := Some(rest[i..k]);
    if k == |rest| {
      assert rest[i..k] == rest[i..];
      TokensLast(rest[i..]);
      left := "";
    } else {
      left := rest[k + 1..];
      assert rest[i..][..k - i] == rest[i..k] && rest[i..][k - i + 1..] == left;
      TokensMore(rest[i..], k - i);
    }
  }

  lemma NoTokens()
    ensures Tokens("") == []
  {
    FirstSlashIs("", 0);
    TokensLast("");
  }

  /** find_inode_number. On a directory tree this is the fold of the lookup, for every path, since no component is
      empty. */
  method FindInodeNumber(disk: RamDisk, path: string, ghost up: map<nat, Spot>) returns (r: int)
    requires disk.Valid() && TreeOk(disk.View(), up) && ThroughDirs(disk.View(), 0, Tokens(path))
    ensures r == match Resolve(disk.View(), 0, Tokens(path)) case None => -1 case Some(x) => x
  {
    hide Sound, TreeOk, DirTree.Table, Directory.Step, Directory.Lookup, RamDisk.View, Tokens;
    ghost var d, all := disk.View(), Tokens(path);
    TokensNamed(path);
    WalkIsResolve(d, up, 0, all);
    var cur: nat := 0;
    var found, left := Strtok(path);
    while found != None
      invariant Walk(d, 0, all) == Walk(d, cur, (if found == None then [] else [found.value]) + Tokens(left))
      invariant ThroughDirs(d, cur, (if found == None then [] else [found.value]) + Tokens(left))
      invariant found == None ==> Tokens(left) == []
      decreases if found == None then 0 else |left| + 1
    {
      ghost var cs := [found.value] + Tokens(left);
      assert cs[0] == found.value && cs[1..] == Tokens(left);
      var hit := FindComponent(disk, cur, found.value);
      if hit == None {
        return -1;
      }
      cur := hit.value;
      found, left := Strtok(left);
    }
    r := cur;
  }

  lemma TokensNamed(s: string)
    ensures Named(Tokens(s))
  {
  }

  lemma {:induction false} NonEmptySame(cs: seq<string>)
    requires Named(cs)
    ensures NonEmpty(cs) == cs
    decreases |cs|
  {
    if cs != [] { NonEmptySame(cs[1..]); }
  }

  /** On canonical paths strtok and strsep deliver the same components, so both versions resolve them alike. */
  lemma CanonicalTokens(cs: seq<string>)
    requires GoodNames(cs)
    ensures Tokens(PathOf(cs)) == cs
  {
    hide Split, NonEmpty;
    if cs == [] {
      RootTokens();
    } else {
      var p := PathOf(cs);
      PathForm(cs);
      SplitPath(cs);
      assert p[0] == '/';
      SkipSlashes(p, 1);
      NonEmptySame(cs);
    }
  }

  lemma RootTokens()
    ensures Tokens("/") == []
  {
    FirstSlashIs("/", 0);
    TokensMore("/", 0);
    NoTokens();
    assert "/"[1..] == "";
  }
}
