/** Path names: splitting at slashes, and what the canonical ones are. */
module Paths {
  import opened Options

  predicate NoSlash(s: string) { forall i :: 0 <= i < |s| ==> s[i] != '/' }

  /** A name a path can have as a component: not empty, short enough for a directory entry, without a slash. */
  predicate GoodName(s: string) { 0 < |s| < 14 && NoSlash(s) }

  predicate GoodNames(cs: seq<string>) { forall i :: 0 <= i < |cs| ==> GoodName(cs[i]) }

  /** "/c1/c2/.../cn", empty for no components. */
  function PathTail(cs: seq<string>): string {
    if cs == [] then "" else "/" + cs[0] + PathTail(cs[1..])
  }

  /** The canonical path of the components. */
  function PathOf(cs: seq<string>): string { if cs == [] then "/" else PathTail(cs) }

  /** Index of the first slash, or |s|. */
  function FirstSlash(s: string): (i: nat)
    ensures i <= |s|
    ensures i < |s| ==> s[i] == '/'
    ensures forall j :: 0 <= j < i ==> s[j] != '/'
  {
    if s == "" || s[0] == '/' then 0
    else
      var i := FirstSlash(s[1..]);
      assert forall j :: 0 < j < i + 1 ==> s[j] == s[1..][j - 1];
      i + 1
  }

  /** What the calls of strsep deliver one after the other. */
  function Split(s: string): seq<string>
    decreases |s|
  {
    var i := FirstSlash(s);
    if i == |s| then [s] else [s[..i]] + Split(s[i + 1..])
  }

  lemma FirstSlashIs(s: string, i: nat)
    requires i <= |s| && (i < |s| ==> s[i] == '/') && forall j :: 0 <= j < i ==> s[j] != '/'
    ensures FirstSlash(s) == i
  {
    var k := FirstSlash(s);
  }

  lemma SplitOne(c: string)
    requires NoSlash(c)
    ensures Split(c) == [c]
  {
    FirstSlashIs(c, |c|);
  }

  lemma SplitMore(c: string, s: string)
    requires NoSlash(c)
    ensures Split(c + "/" + s) == [c] + Split(s)
  {
    var t := c + "/" + s;
    FirstSlashIs(t, |c|);
    assert t[..|c|] == c && t[|c| + 1..] == s;
  }

  /** Splitting a canonical path gives back its components. */
  lemma {:induction false} SplitPath(cs: seq<string>)
    requires cs != [] && GoodNames(cs)
    ensures Split(PathOf(cs)[1..]) == cs
    decreases |cs|
  {
    hide Split, PathTail;
    var c, rest := cs[0], cs[1..];
    var tail := PathTail(rest);
    TailForm(cs);
    assert PathOf(cs)[1..] == c + tail;
    if rest == [] {
      assert c + tail == c;
      SplitOne(c);
    } else {
      SplitPath(rest);
      TailForm(rest);
      assert c + tail == c + "/" + tail[1..];
      SplitMore(c, tail[1..]);
    }
  }

  lemma TailForm(cs: seq<string>)
    requires cs != []
    ensures PathTail(cs) == "/" + cs[0] + PathTail(cs[1..]) && PathTail([]) == ""
  {
  }

  /** The last slash parts off the last component. */
  lemma {:induction false} SplitLast(s: string, k: nat)
    requires k < |s| && s[k] == '/' && forall j :: k < j < |s| ==> s[j] != '/'
    ensures Split(s) == Split(s[..k]) + [s[k + 1..]]
    decreases |s|
  {
    hide FirstSlash, Split;
    var i := FirstSlash(s);
    var a, rest := s[..i], s[i + 1..];
    assert s == a + "/" + rest;
    SplitMore(a, rest);
    if i == k {
      SplitOne(a);
      SplitOne(rest);
    } else {
      var m := k - i - 1;
      SplitLast(rest, m);
      assert s[..k] == a + "/" + rest[..m];
      SplitMore(a, rest[..m]);
      assert rest[m + 1..] == s[k + 1..];
    }
  }

  lemma {:induction false} TailSnoc(cs: seq<string>, c: string)
    ensures PathTail(cs + [c]) == PathTail(cs) + "/" + c
    decreases |cs|
  {
    if cs == [] {
      assert [c][1..] == [];
    } else {
      assert (cs + [c])[1..] == cs[1..] + [c];
      TailSnoc(cs[1..], c);
    }
  }

  /** Index of the last slash, or -1. */
  function LastSlash(s: string): (i: int)
    ensures -1 <= i < |s|
    ensures i >= 0 ==> s[i] == '/'
    ensures forall j :: i < j < |s| ==> s[j] != '/'
  {
    if s == "" then -1 else if s[|s| - 1] == '/' then |s| - 1 else LastSlash(s[..|s| - 1])
  }

  lemma LastSlashIs(s: string, i: int)
    requires -1 <= i < |s| && (i >= 0 ==> s[i] == '/') && forall j :: i < j < |s| ==> s[j] != '/'
    ensures LastSlash(s) == i
  {
    var k := LastSlash(s);
  }

  /** The directory part: before the last slash, "/" if that is the first character, nothing if there is none. */
  function DirPart(path: string): string {
    var i := LastSlash(path);
    if i > 0 then path[..i] else if i == 0 then "/" else ""
  }

  /** The name part: what follows the last slash. */
  function NamePart(path: string): string { path[LastSlash(path) + 1..] }

  /** parse_absolute_path. */
  method ParseAbsolutePath(path: string) returns (dir: string, name: string)
    ensures dir == DirPart(path) && name == NamePart(path)
  {
    hide LastSlash;
    dir := "";
    var i := |path| - 1;
    while i >= 0 && path[i] != '/'
      invariant -1 <= i < |path| && forall j :: i < j < |path| ==> path[j] != '/'
    {
      i := i - 1;
    }
    LastSlashIs(path, i);
    if i > 0 {
      dir := path[..i];
    } else if i == 0 {
      dir := "/";
    }
    name := path[i + 1..];
  }

  /** Parsing a canonical path splits off its last component. */
  lemma ParsePath(cs: seq<string>, c: string)
    requires GoodNames(cs) && GoodName(c)
    ensures var p := PathOf(cs + [c]); DirPart(p) == PathOf(cs) && NamePart(p) == c
  {
    hide LastSlash;
    TailSnoc(cs, c);
    var p := PathTail(cs) + "/" + c;
    LastSlashIs(p, |PathTail(cs)|);
    assert p[|PathTail(cs)| + 1..] == c && p[..|PathTail(cs)|] == PathTail(cs);
  }

  /** strsep(&rest, "/"). */
  method Strsep(rest: string) returns (found: string, left: Option<string>)
    ensures Split(rest) == [found] + if left == None then [] else Split(left.value)
    ensures left.Some? ==> |left.value| < |rest|
  {
    var i := 0;
    while i < |rest| && rest[i] != '/'
      invariant i <= |rest| && forall j :: 0 <= j < i ==> rest[j] != '/'
    {
      i := i + 1;
    }
    FirstSlashIs(rest, i);
    found := rest[..i];
    if i == |rest| {
      assert found == rest;
      left := None;
    } else {
      left := Some(rest[i + 1..]);
    }
  }
}
