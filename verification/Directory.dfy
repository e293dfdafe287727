/** A directory as a value: for each leaf of its tree the block of entries, if the leaf is there. */
module Directory {
  import opened Options
  import opened Disk

  type Leaf = Option<Entries16>

  type DirTable = t: seq<Leaf> | |t| == 4168 witness seq(4168, _ => None)

  /** Index of the first entry with the given name, from entry j on; 16 if there is none. */
  function FindFrom(es: Entries16, name: string, j: nat): (k: nat)
    requires j <= ENTRIES
    ensures j <= k <= ENTRIES
    ensures k < ENTRIES ==> es[k].name == name
    ensures forall i :: j <= i < k ==> es[i].name != name
    decreases ENTRIES - j
  {
    if j == ENTRIES then j else if es[j].name == name then j else FindFrom(es, name, j + 1)
  }

  /** The inode number in the first matching entry of a leaf. */
  function LeafLookup(l: Leaf, name: string): Option<nat> {
    if l == None then None
    else var k := FindFrom(l.value, name, 0); if k < ENTRIES then Some(l.value[k].ino) else None
  }

  function LookupFrom(t: DirTable, name: string, q: nat): Option<nat>
    requires q <= LEAVES
    decreases LEAVES - q
  {
    if q == LEAVES then None
    else if LeafLookup(t[q], name).Some? then LeafLookup(t[q], name)
    else LookupFrom(t, name, q + 1)
  }

  /** find_entry_in_current_dir: the inode number in the first entry with the given name. */
  function Lookup(t: DirTable, name: string): Option<nat> { LookupFrom(t, name, 0) }

  /** A search that goes on after a leaf whose match is the inode to skip. */
  function StepFrom(t: DirTable, name: string, skip: Option<nat>, q: nat): Option<nat>
    requires q <= LEAVES
    decreases LEAVES - q
  {
    if q == LEAVES then None
    else if LeafLookup(t[q], name).Some? && LeafLookup(t[q], name) != skip then LeafLookup(t[q], name)
    else StepFrom(t, name, skip, q + 1)
  }

  /** The search of my_find_inode_number in directory cur: it takes a match that is cur itself for no match. */
  function Step(t: DirTable, name: string, cur: nat): Option<nat> { StepFrom(t, name, Some(cur), 0) }

  /** Both searches agree unless an entry of that name leads back to the directory itself. */
  lemma {:induction false} StepIsLookupFrom(t: DirTable, name: string, skip: Option<nat>, q: nat)
    requires q <= LEAVES && (skip.Some? ==> forall r :: q <= r < LEAVES ==> LeafLookup(t[r], name) != skip)
    ensures StepFrom(t, name, skip, q) == LookupFrom(t, name, q)
    decreases LEAVES - q
  {
    hide LeafLookup;
    if q < LEAVES {
      assert skip.Some? ==> LeafLookup(t[q], name) != skip;
      StepIsLookupFrom(t, name, skip, q + 1);
    }
  }

  lemma {:induction false} StepPasses(t: DirTable, name: string, skip: Option<nat>, p: nat, q: nat)
    requires p <= q <= LEAVES && forall r :: p <= r < q ==>
             LeafLookup(t[r], name) == None
             || LeafLookup(t[r], name) == skip
    ensures StepFrom(t, name, skip, p) == StepFrom(t, name, skip, q)
    decreases q - p
  {
    hide LeafLookup;
    if p < q {
      assert LeafLookup(t[p], name) == None || LeafLookup(t[p], name) == skip;
      StepPasses(t, name, skip, p + 1, q);
    }
  }

  /** A search is determined by the leaves it looks at. */
  lemma {:induction false} LookupSame(t: DirTable, u: DirTable, name: string, q: nat)
    requires q <= LEAVES && forall r :: q <= r < LEAVES ==> LeafLookup(t[r], name) == LeafLookup(u[r], name)
    ensures LookupFrom(t, name, q) == LookupFrom(u, name, q)
    decreases LEAVES - q
  {
    hide LeafLookup;
    if q < LEAVES {
      assert LeafLookup(t[q], name) == LeafLookup(u[q], name);
      LookupSame(t, u, name, q + 1);
    }
  }

  lemma {:induction false} LookupSkips(t: DirTable, name: string, p: nat, q: nat)
    requires p <= q <= LEAVES && forall r :: p <= r < q ==> LeafLookup(t[r], name) == None
    ensures LookupFrom(t, name, p) == LookupFrom(t, name, q)
    decreases q - p
  {
    hide LeafLookup;
    if p < q {
      assert LeafLookup(t[p], name) == None;
      LookupSkips(t, name, p + 1, q);
    }
  }

  /** Where a search ends: in the first leaf that has the name, or nowhere. */
  lemma {:induction false} LookupAt(t: DirTable, name: string, p: nat) returns (q: nat)
    requires p <= LEAVES
    ensures p <= q <= LEAVES
    ensures forall r :: p <= r < q ==> LeafLookup(t[r], name) == None
    ensures q < LEAVES ==> LeafLookup(t[q], name).Some? && LookupFrom(t, name, p) == LeafLookup(t[q], name)
    ensures q == LEAVES <==> LookupFrom(t, name, p) == None
    decreases LEAVES - p
  {
    hide LeafLookup;
    if p == LEAVES || LeafLookup(t[p], name).Some? {
      q := p;
    } else {
      q := LookupAt(t, name, p + 1);
    }
  }

  /** Free entries are zeroed ones, and no entry in use is without a name. */
  predicate Tidy(es: Entries16) {
    forall j :: 0 <= j < ENTRIES ==> (es[j].ino == 0 <==> es[j].name == "")
  }

  predicate TidyTable(t: DirTable) {
    forall q :: 0 <= q < LEAVES && t[q].Some? ==> Tidy(t[q].value)
  }

  // ---------------------------------------------------------------- adding an entry

  function BlockOf(l: Leaf): Entries16 { if l == None then NO_ENTRIES else l.value }

  const NO_ENTRIES: Entries16 := [NO_ENTRY, NO_ENTRY, NO_ENTRY, NO_ENTRY, NO_ENTRY, NO_ENTRY, NO_ENTRY, NO_ENTRY,
                                 NO_ENTRY, NO_ENTRY, NO_ENTRY, NO_ENTRY, NO_ENTRY, NO_ENTRY, NO_ENTRY, NO_ENTRY]

  /** Entry e written at entry j of leaf q, which is there afterwards. */
  function Put(t: DirTable, q: nat, j: nat, e: Entry): DirTable
    requires q < LEAVES && j < ENTRIES
  {
    t[q := Some(BlockOf(t[q])[j := e])]
  }

  /** Entry j of leaf q is free; a leaf that is not there has only free entries. */
  predicate FreeAt(t: DirTable, q: nat, j: nat)
  {
    q < LEAVES && j < ENTRIES && BlockOf(t[q])[j] == NO_ENTRY
  }

  /** Some entry before entry j of leaf q already has the name. */
  predicate NameBefore(t: DirTable, name: string, q: nat, j: nat)
    requires q < LEAVES && j < ENTRIES
  {
    || (exists r :: 0 <= r < q && LeafLookup(t[r], name).Some?)
    || (exists i :: 0 <= i < j && BlockOf(t[q])[i].name == name)
  }

  lemma NoNames(name: string)
    requires name != ""
    ensures FindFrom(NO_ENTRIES, name, 0) == ENTRIES
  {
    hide FindFrom;
  }

  lemma PutLeafOther(t: DirTable, q: nat, j: nat, e: Entry, name: string, r: nat)
    requires FreeAt(t, q, j) && name != "" && name != e.name && r < LEAVES
    ensures LeafLookup(Put(t, q, j, e)[r], name) == LeafLookup(t[r], name)
  {
    hide FindFrom;
    if r == q {
      var es, fs := BlockOf(t[q]), BlockOf(t[q])[j := e];
      FindSame(es, fs, name, 0);
      if t[q] == None { NoNames(name); }
    }
  }

  lemma {:induction false} FindSame(es: Entries16, fs: Entries16, name: string, j: nat)
    requires j <= ENTRIES && forall i :: j <= i < ENTRIES ==> (es[i].name == name <==> fs[i].name == name)
    ensures FindFrom(es, name, j) == FindFrom(fs, name, j)
    decreases ENTRIES - j
  {
    if j < ENTRIES { FindSame(es, fs, name, j + 1); }
  }

  /** Every other name is found as before. */
  lemma PutKeepsOthers(t: DirTable, q: nat, j: nat, e: Entry, name: string)
    requires FreeAt(t, q, j) && name != "" && name != e.name
    ensures Lookup(Put(t, q, j, e), name) == Lookup(t, name)
  {
    forall r | 0 <= r < LEAVES ensures LeafLookup(Put(t, q, j, e)[r], name) == LeafLookup(t[r], name) {
      PutLeafOther(t, q, j, e, name, r);
    }
    LookupSame(Put(t, q, j, e), t, name, 0);
  }

  /** The new name is found exactly if no entry before it has the same one. */
  lemma PutFound(t: DirTable, q: nat, j: nat, e: Entry)
    requires FreeAt(t, q, j) && e.name != ""
    ensures !NameBefore(t, e.name, q, j) ==> Lookup(Put(t, q, j, e), e.name) == Some(e.ino)
    ensures NameBefore(t, e.name, q, j) ==> Lookup(Put(t, q, j, e), e.name) == Lookup(t, e.name) != None
  {
    var u := Put(t, q, j, e);
    var p := LookupAt(t, e.name, 0);
    if p < q {
      LookupSkips(u, e.name, 0, p);
    } else {
      LookupSkips(u, e.name, 0, q);
      PutFoundHere(t, q, j, e);
      if NameBefore(t, e.name, q, j) { LookupSkips(t, e.name, 0, q); }
    }
  }

  lemma PutFoundHere(t: DirTable, q: nat, j: nat, e: Entry)
    requires FreeAt(t, q, j) && e.name != ""
    ensures var l := LeafLookup(Put(t, q, j, e)[q], e.name);
            && l.Some?
            && ((forall i :: 0 <= i < j ==> BlockOf(t[q])[i].name != e.name) ==> l == Some(e.ino))
            && ((exists i :: 0 <= i < j && BlockOf(t[q])[i].name == e.name) ==> l == LeafLookup(t[q], e.name))
  {
    hide FindFrom;
    FindPut(BlockOf(t[q]), j, e);
    if t[q] == None { NoNames(e.name); }
  }

  /** The first entry of that name after e was written at entry j. */
  lemma FindPut(es: Entries16, j: nat, e: Entry)
    requires j < ENTRIES
    ensures var k := FindFrom(es[j := e], e.name, 0);
            && k <= j && es[j := e][k].name == e.name
            && ((forall i :: 0 <= i < j ==> es[i].name != e.name) ==> k == j)
            && ((exists i :: 0 <= i < j && es[i].name == e.name) ==>
               k < j && k == FindFrom(es, e.name, 0)
               && es[j := e][k] == es[k])
  {
    hide FindFrom;
    var fs := es[j := e];
    var k, k' := FindFrom(fs, e.name, 0), FindFrom(es, e.name, 0);
    assert fs[j].name == e.name;
    if i :| 0 <= i < j && es[i].name == e.name {
      assert fs[i].name == e.name;
      assert fs[k'] == es[k'];
      assert es[k] == fs[k];
    }
  }

  // ---------------------------------------------------------------- removing a name

  /** The number of entries in use. */
  function CountFrom(es: Entries16, j: nat): nat
    requires j <= ENTRIES
    decreases ENTRIES - j
  {
    if j == ENTRIES then 0 else (if es[j].ino != 0 then 1 else 0) + CountFrom(es, j + 1)
  }

  function Count(es: Entries16): nat { CountFrom(es, 0) }

  /** The block without the entries of that name. */
  function Without(es: Entries16, name: string): Entries16 {
    seq(16, j requires 0 <= j < 16 => if es[j].name == name then NO_ENTRY else es[j])
  }

  /** clear_entry_in_current_dir on one leaf, from the leaf with the entry on: a leaf that had exactly one
      entry in use is dropped, whether or not that entry has the name. */
  function ClearLeaf(l: Leaf, name: string): Leaf {
    if l == None || Count(l.value) == 1 then None else Some(Without(l.value, name))
  }

  predicate Has(l: Leaf, name: string) { LeafLookup(l, name).Some? }

  /** The first leaf in lo..hi with an entry of that name, or hi. */
  function FirstWith(t: DirTable, name: string, lo: nat, hi: nat): (q: nat)
    requires lo <= hi <= LEAVES
    ensures lo <= q <= hi
    ensures q < hi ==> Has(t[q], name)
    ensures forall r :: lo <= r < q ==> !Has(t[r], name)
    decreases hi - lo
  {
    if lo == hi || Has(t[lo], name) then lo else FirstWith(t, name, lo + 1, hi)
  }

  /** One level: the leaves from the first match to the end of the level are cleared. */
  function ClearRange(t: DirTable, name: string, from: nat, hi: nat): DirTable
    requires hi <= LEAVES
  {
    seq(4168, q requires 0 <= q < 4168 => if from <= q < hi then ClearLeaf(t[q], name) else t[q])
  }

  /** The level in which the search for the name ends: its first leaf and its end; the double level is never cleared. */
  function LevelLo(t: DirTable, name: string): nat {
    if FirstWith(t, name, 0, DIRECT) < DIRECT then FirstWith(t, name, 0, DIRECT)
        else FirstWith(t, name, DIRECT, FIRST_ROW)
  }

  function LevelHi(t: DirTable, name: string): nat {
    if FirstWith(t, name, 0, DIRECT) < DIRECT then DIRECT else FIRST_ROW
  }

  /** clear_entry_in_current_dir. */
  function Cleared(t: DirTable, name: string): DirTable { ClearRange(t, name, LevelLo(t, name), LevelHi(t, name)) }

  /** No later leaf of the level has exactly one entry. */
  predicate NoLaterSingleton(t: DirTable, name: string) {
    forall q :: LevelLo(t, name) < q < LevelHi(t, name) && t[q].Some? ==> Count(t[q].value) != 1
  }

  /** No two entries have the same name. */
  predicate UniqueNames(t: DirTable) {
    forall q, j, r, i :: 0 <= q < LEAVES && 0 <= j < ENTRIES && 0 <= r < LEAVES && 0 <= i < ENTRIES
      && t[q].Some? && t[r].Some? && t[q].value[j].name == t[r].value[i].name && t[q].value[j].name != ""
      ==> q == r && j == i
  }

  lemma HasWhere(l: Leaf, name: string) returns (k: nat)
    requires Has(l, name)
    ensures k < ENTRIES && l.Some? && l.value[k].name == name && LeafLookup(l, name) == Some(l.value[k].ino)
    ensures forall i :: 0 <= i < k ==> l.value[i].name != name
  {
    k := FindFrom(l.value, name, 0);
  }

  lemma HasIf(l: Leaf, name: string, k: nat)
    requires l.Some? && k < ENTRIES && l.value[k].name == name
    ensures Has(l, name)
  {
    hide FindFrom;
    var i := FindFrom(l.value, name, 0);
  }

  lemma {:induction false} CountPositive(es: Entries16, j: nat, k: nat)
    requires j <= k < ENTRIES && es[k].ino != 0
    ensures CountFrom(es, j) >= 1
    ensures CountFrom(es, j) == 1 ==> forall i :: j <= i < ENTRIES && i != k ==> es[i].ino == 0
    decreases ENTRIES - j
  {
    if j < k {
      CountPositive(es, j + 1, k);
    } else {
      CountZero(es, k + 1);
    }
  }

  lemma {:induction false} CountZero(es: Entries16, j: nat)
    requires j <= ENTRIES
    ensures CountFrom(es, j) == 0 <==> forall i :: j <= i < ENTRIES ==> es[i].ino == 0
    decreases ENTRIES - j
  {
    if j < ENTRIES { CountZero(es, j + 1); }
  }

  lemma WithoutFind(es: Entries16, name: string, other: string)
    requires other != name && other != ""
    ensures FindFrom(Without(es, name), other, 0) == FindFrom(es, other, 0)
  {
    FindSame(es, Without(es, name), other, 0);
  }

  /** A leaf that is cleared loses the name, and nothing else unless it is dropped. */
  lemma ClearLeafLookup(l: Leaf, name: string, other: string)
    requires name != "" && other != ""
    ensures other == name ==> LeafLookup(ClearLeaf(l, name), name) == None
    ensures other != name && (l == None || Count(l.value) != 1) ==>
            LeafLookup(ClearLeaf(l, name), other) == LeafLookup(l, other)
  {
    hide FindFrom, CountFrom;
    if ClearLeaf(l, name).Some? {
      if other != name {
        WithoutFind(l.value, name, other);
        var k := FindFrom(l.value, other, 0);
      } else {
        var k := FindFrom(Without(l.value, name), name, 0);
      }
    }
  }

  /** Directories never reach the double-indirect level. */
  predicate NoDouble(t: DirTable) {
    forall q :: FIRST_ROW <= q < LEAVES ==> t[q] == None
  }

  lemma ClearedLeaf(t: DirTable, name: string, q: nat)
    requires q < LEAVES
    ensures Cleared(t, name)[q] == if LevelLo(t, name) <= q < LevelHi(t, name) then ClearLeaf(t[q], name) else t[q]
  {
    hide FirstWith, ClearLeaf;
  }

  /** Distinct leaves do not share a name. */
  lemma OneLeafOnly(t: DirTable, name: string, q: nat, r: nat)
    requires UniqueNames(t) && name != "" && q < LEAVES && r < LEAVES && Has(t[q], name) && Has(t[r], name)
    ensures q == r
  {
    hide LeafLookup;
    var i := HasWhere(t[q], name);
    var j := HasWhere(t[r], name);
  }

  lemma NoneAnywhere(t: DirTable, name: string)
    requires forall q :: 0 <= q < LEAVES ==> LeafLookup(t[q], name) == None
    ensures Lookup(t, name) == None
  {
    LookupSkips(t, name, 0, LEAVES);
  }

  /** After clearing, the name is gone. */
  lemma ClearedForgets(t: DirTable, name: string)
    requires UniqueNames(t) && NoDouble(t) && name != ""
    ensures Lookup(Cleared(t, name), name) == None
  {
    hide UniqueNames, LeafLookup, ClearLeaf, Cleared;
    forall q | 0 <= q < LEAVES ensures LeafLookup(Cleared(t, name)[q], name) == None {
      ClearedLeaf(t, name, q);
      if LevelLo(t, name) <= q < LevelHi(t, name) {
        ClearLeafLookup(t[q], name, name);
      } else if Has(t[q], name) {
        FoundInLevel(t, name, q);
      }
    }
    NoneAnywhere(Cleared(t, name), name);
  }

  /** With unique names the one match lies in the level that is cleared. */
  lemma FoundInLevel(t: DirTable, name: string, q: nat)
    requires UniqueNames(t) && NoDouble(t) && name != "" && q < LEAVES && Has(t[q], name)
    ensures LevelLo(t, name) == q < LevelHi(t, name)
  {
    hide UniqueNames;
    var a := FirstWith(t, name, 0, DIRECT);
    if a < DIRECT {
      OneLeafOnly(t, name, a, q);
    } else {
      assert q < FIRST_ROW && q >= DIRECT;
      OneLeafOnly(t, name, FirstWith(t, name, DIRECT, FIRST_ROW), q);
    }
  }

  /** A leaf with a single entry, of one name, has no other name. */
  lemma SingletonOnly(l: Leaf, name: string, other: string)
    requires l.Some? && Tidy(l.value) && Count(l.value) == 1 && Has(l, name) && name != "" && other != ""
             && other != name
    ensures LeafLookup(l, other) == None
  {
    hide FindFrom;
    var k := HasWhere(l, name);
    CountPositive(l.value, 0, k);
    hide CountFrom;
  }

  lemma ClearedKeepsLeaf(t: DirTable, name: string, other: string, q: nat)
    requires TidyTable(t) && name != "" && other != "" && other != name && q < LEAVES && NoLaterSingleton(t, name)
    requires LevelLo(t, name) < LevelHi(t, name) ==> Has(t[LevelLo(t, name)], name)
    ensures LeafLookup(Cleared(t, name)[q], other) == LeafLookup(t[q], other)
  {
    hide LeafLookup, ClearLeaf, Cleared, Count, LevelLo, LevelHi;
    ClearedLeaf(t, name, q);
    if LevelLo(t, name) <= q < LevelHi(t, name) {
      ClearLeafLookup(t[q], name, other);
      if t[q].Some? && Count(t[q].value) == 1 {
        SingletonOnly(t[q], name, other);
        ClearedSingleton(t[q], name, other);
      }
    }
  }

  lemma ClearedSingleton(l: Leaf, name: string, other: string)
    requires l.Some? && Count(l.value) == 1
    ensures LeafLookup(ClearLeaf(l, name), other) == None
  {
  }

  lemma LevelStart(t: DirTable, name: string)
    ensures LevelLo(t, name) <= LevelHi(t, name) <= FIRST_ROW
    ensures LevelLo(t, name) < LevelHi(t, name) ==> Has(t[LevelLo(t, name)], name)
  {
  }

  /** rd_unlink's promise, exactly: the other names survive if and only if no later leaf of the level in which the
      entry was found has a single entry; such a leaf is dropped together with the file it names. */
  lemma ClearedKeepsIff(t: DirTable, name: string)
    requires UniqueNames(t) && TidyTable(t) && NoDouble(t) && name != ""
    ensures NoLaterSingleton(t, name) <==>
            forall other :: other != name && other != "" ==> Lookup(Cleared(t, name), other) == Lookup(t, other)
  {
    hide UniqueNames, TidyTable, Cleared, LeafLookup, Lookup, LevelLo, LevelHi, Count, NoDouble;
    LevelStart(t, name);
    if NoLaterSingleton(t, name) {
      forall other | other != name && other != "" ensures Lookup(Cleared(t, name), other) == Lookup(t, other) {
        ClearedKeeps(t, name, other);
      }
    } else {
      var q :| LevelLo(t, name) < q < LevelHi(t, name) && t[q].Some? && Count(t[q].value) == 1;
      var other := ClearedLoses(t, name, q);
    }
  }

  lemma ClearedKeeps(t: DirTable, name: string, other: string)
    requires TidyTable(t) && name != "" && other != "" && other != name && NoLaterSingleton(t, name)
    ensures Lookup(Cleared(t, name), other) == Lookup(t, other)
  {
    hide TidyTable, NoLaterSingleton, Cleared, LeafLookup, LevelLo, LevelHi;
    LevelStart(t, name);
    forall q | 0 <= q < LEAVES ensures LeafLookup(Cleared(t, name)[q], other) == LeafLookup(t[q], other) {
      ClearedKeepsLeaf(t, name, other, q);
    }
    LookupSame(Cleared(t, name), t, other, 0);
  }

  /** The file named in a later single-entry leaf is lost. */
  lemma ClearedLoses(t: DirTable, name: string, q: nat) returns (other: string)
    requires UniqueNames(t) && TidyTable(t) && name != ""
    requires LevelLo(t, name) < q < LevelHi(t, name) && q < LEAVES && t[q].Some? && Count(t[q].value) == 1
    ensures other != name && other != "" && Lookup(t, other) != None && Lookup(Cleared(t, name), other) == None
  {
    hide UniqueNames, LeafLookup, Cleared, ClearLeaf, LevelLo, LevelHi, CountFrom;
    LevelStart(t, name);
    CountZero(t[q].value, 0);
    var k :| 0 <= k < ENTRIES && t[q].value[k].ino != 0;
    other := t[q].value[k].name;
    HasIf(t[q], other, k);
    if other == name { OneLeafOnly(t, name, LevelLo(t, name), q); }
    var p := LookupAt(t, other, 0);
    forall r | 0 <= r < LEAVES ensures LeafLookup(Cleared(t, name)[r], other) == None {
      ClearedLeaf(t, name, r);
      if r == q {
        ClearedSingleton(t[q], name, other);
      } else {
        if Has(t[r], other) { OneLeafOnly(t, other, r, q); }
        if LevelLo(t, name) <= r < LevelHi(t, name) { ClearLeafNoNew(t[r], name, other); }
      }
    }
    NoneAnywhere(Cleared(t, name), other);
  }

  lemma ClearLeafNoNew(l: Leaf, name: string, other: string)
    requires name != "" && other != "" && LeafLookup(l, other) == None
    ensures LeafLookup(ClearLeaf(l, name), other) == None
  {
    if ClearLeaf(l, name).Some? && other != name { WithoutFind(l.value, name, other); }
    if other == name { ClearLeafLookup(l, name, name); }
    hide FindFrom, Count;
  }

  lemma LevelFrom0(t: DirTable, name: string)
    requires Has(t[0], name)
    ensures LevelLo(t, name) == 0 && LevelHi(t, name) == DIRECT
  {
  }

  // ---------------------------------------------------------------- adding and removing

  /** No leaf is there without an entry. */
  predicate NoEmptyLeaf(t: DirTable) {
    forall q :: 0 <= q < LEAVES && t[q].Some? ==> Count(t[q].value) > 0
  }

  /** Removing the entry that was just added gives back the directory as it was. */
  lemma ClearedUndoesPut(t: DirTable, q: nat, j: nat, e: Entry)
    requires TidyTable(t) && NoEmptyLeaf(t) && FreeAt(t, q, j) && q < FIRST_ROW
    requires e.name != "" && e.ino != 0 && forall r :: 0 <= r < LEAVES ==> LeafLookup(t[r], e.name) == None
    requires NoLaterSingleton(Put(t, q, j, e), e.name)
    ensures Cleared(Put(t, q, j, e), e.name) == t
  {
    hide LeafLookup, ClearLeaf, Cleared, Count, NoEmptyLeaf, TidyTable, FindFrom;
    var u := Put(t, q, j, e);
    PutHas(t, q, j, e);
    PutLevel(t, q, j, e);
    forall r | 0 <= r < LEAVES ensures Cleared(u, e.name)[r] == t[r] {
      ClearedLeaf(u, e.name, r);
      if r == q {
        ClearLeafUndoes(t, q, j, e);
      } else if q < r < LevelHi(u, e.name) {
        assert u[r] == t[r];
        ClearLeafIdle(t[r], e.name);
      }
    }
  }

  lemma PutThere(t: DirTable, q: nat, j: nat, e: Entry)
    requires q < LEAVES && j < ENTRIES
    ensures Put(t, q, j, e)[q].Some? && Put(t, q, j, e)[q].value[j] == e
  {
  }

  lemma PutHas(t: DirTable, q: nat, j: nat, e: Entry)
    requires FreeAt(t, q, j)
    ensures Has(Put(t, q, j, e)[q], e.name)
  {
    hide FindFrom;
    HasIf(Put(t, q, j, e)[q], e.name, j);
  }

  /** The level with the new entry, which is the only one of its name. */
  lemma PutLevel(t: DirTable, q: nat, j: nat, e: Entry)
    requires FreeAt(t, q, j) && q < FIRST_ROW && Has(Put(t, q, j, e)[q], e.name)
    requires forall r :: 0 <= r < LEAVES ==> LeafLookup(t[r], e.name) == None
    ensures LevelLo(Put(t, q, j, e), e.name) == q
    ensures LevelHi(Put(t, q, j, e), e.name) == if q < DIRECT then DIRECT else FIRST_ROW
  {
    hide LeafLookup;
    var u := Put(t, q, j, e);
    assert forall r :: 0 <= r < LEAVES && r != q ==> u[r] == t[r];
    var a := FirstWith(u, e.name, 0, DIRECT);
    var b := FirstWith(u, e.name, DIRECT, FIRST_ROW);
    hide FirstWith;
    assert q < DIRECT ==> a == q;
    assert q >= DIRECT ==> a == DIRECT && b == q;
  }

  lemma ClearLeafIdle(l: Leaf, name: string)
    requires name != "" && LeafLookup(l, name) == None && (l.Some? ==> Count(l.value) != 1)
    ensures ClearLeaf(l, name) == l
  {
    if l.Some? {
      assert FindFrom(l.value, name, 0) == ENTRIES;
      assert Without(l.value, name) == l.value;
    }
  }

  lemma {:induction false} CountPut(es: Entries16, j: nat, e: Entry, i: nat)
    requires j < ENTRIES && i <= ENTRIES && es[j].ino == 0 && e.ino != 0
    ensures CountFrom(es[j := e], i) == CountFrom(es, i) + if i <= j then 1 else 0
    decreases ENTRIES - i
  {
    if i < ENTRIES { CountPut(es, j, e, i + 1); }
  }

  lemma UndoesNew(j: nat, e: Entry, name: string)
    requires j < ENTRIES && e.ino != 0
    ensures ClearLeaf(Some(NO_ENTRIES[j := e]), name) == None
  {
    hide CountFrom;
    CountPut(NO_ENTRIES, j, e, 0);
    CountZero(NO_ENTRIES, 0);
  }

  lemma UndoesOld(es: Entries16, j: nat, e: Entry)
    requires j < ENTRIES && es[j] == NO_ENTRY && e.ino != 0 && e.name != "" && Count(es) > 0
    requires FindFrom(es, e.name, 0) == ENTRIES
    ensures ClearLeaf(Some(es[j := e]), e.name) == Some(es)
  {
    hide CountFrom;
    CountPut(es, j, e, 0);
    hide FindFrom;
    assert Without(es[j := e], e.name) == es;
  }

  lemma ClearLeafUndoes(t: DirTable, q: nat, j: nat, e: Entry)
    requires NoEmptyLeaf(t) && FreeAt(t, q, j) && e.name != "" && e.ino != 0
    requires LeafLookup(t[q], e.name) == None
    ensures ClearLeaf(Put(t, q, j, e)[q], e.name) == t[q]
  {
    if t[q] == None {
      UndoesNew(j, e, e.name);
    } else {
      assert FindFrom(t[q].value, e.name, 0) == ENTRIES;
      UndoesOld(t[q].value, j, e);
    }
  }
}
