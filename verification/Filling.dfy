/** Directories filled with files one after the other, and what becomes of them when the first file is unlinked. */
module Filling {
  import opened Options
  import opened Disk
  import opened Directory
  import opened DirGrow
  import Losses

  const MOST: nat := 676

  /** "aa", "ab", ..., "az", "ba", ..., "zz". */
  function NameOf(i: nat): string
    requires i < MOST
  {
    [('a' as int + i / 26) as char, ('a' as int + i % 26) as char]
  }

  lemma NamesDiffer(i: nat, j: nat)
    requires i < MOST && j < MOST && i != j
    ensures NameOf(i) != NameOf(j)
  {
    assert NameOf(i)[0] != NameOf(j)[0] || NameOf(i)[1] != NameOf(j)[1];
  }

  /** What the k-th file's entry holds after n files. */
  function FilledEntry(n: nat, k: nat): Entry
    requires n <= MOST
  {
    if k < n then Entry(NameOf(k), k + 1) else NO_ENTRY
  }

  /** The block of leaf q after n files: the inode numbers are given out from 1 on. */
  function FilledBlock(n: nat, q: nat): Entries16
    requires n <= MOST
  {
    var es: seq<Entry> := seq(16, j requires 0 <= j < 16 => FilledEntry(n, 16 * q + j));
    assert |es| == 16;
    es
  }

  function FilledLeaf(n: nat, q: nat): Leaf
    requires n <= MOST
  {
    if n <= 16 * q then None else Some(FilledBlock(n, q))
  }

  /** An empty directory after n files were created in it. */
  function Filled(n: nat): DirTable
    requires n <= MOST
  {
    seq(4168, q requires 0 <= q < 4168 => FilledLeaf(n, q))
  }

  lemma FilledEmpty()
    ensures Filled(0) == seq(4168, _ => None)
  {
  }

  lemma FilledAt(n: nat, q: nat, j: nat)
    requires n <= MOST && q < LEAVES && j < ENTRIES
    ensures Filled(n)[q].Some? <==> 16 * q < n
    ensures BlockOf(Filled(n)[q])[j] == if 16 * q + j < n then Entry(NameOf(16 * q + j), 16 * q + j + 1) else NO_ENTRY
  {
    hide NameOf;
    assert Filled(n)[q] == FilledLeaf(n, q);
    assert FilledBlock(n, q)[j] == FilledEntry(n, 16 * q + j);
    assert NO_ENTRIES[j] == NO_ENTRY;
  }

  lemma FilledUsable(n: nat, q: nat)
    requires n <= MOST && q < LEAVES
    ensures Usable(Filled(n)[q]) <==> n < 16 * (q + 1)
  {
    hide Filled, NameOf;
    var es := BlockOf(Filled(n)[q]);
    forall j | 0 <= j < ENTRIES ensures es[j].ino != 0 <==> 16 * q + j < n { FilledAt(n, q, j); }
    FilledAt(n, q, 15);
    assert FullBlock(es) ==> es[15].ino != 0;
  }

  /** The search for room goes to the leaf after the full ones. */
  lemma FilledWanted(n: nat)
    requires n < MOST
    ensures Wanted(Filled(n), n / 16) == n / 16
  {
    hide Filled, Usable;
    FilledUsable(n, n / 16);
  }

  /** One more file. */
  lemma FilledPut(n: nat, j: nat)
    requires n < MOST && FirstFree(BlockOf(Filled(n)[n / 16]), j)
    ensures j == n % 16 && Put(Filled(n), n / 16, j, Entry(NameOf(n), n + 1)) == Filled(n + 1)
  {
    hide Filled, NameOf;
    var q, m := n / 16, n % 16;
    forall i | 0 <= i < ENTRIES ensures BlockOf(Filled(n)[q])[i].ino == 0 <==> n <= 16 * q + i { FilledAt(n, q, i); }
    assert BlockOf(Filled(n)[q])[m].ino == 0;
    var u := Put(Filled(n), q, j, Entry(NameOf(n), n + 1));
    forall r | 0 <= r < LEAVES ensures u[r] == Filled(n + 1)[r] { FilledMore(n, r); }
  }

  lemma FilledMore(n: nat, r: nat)
    requires n < MOST && r < LEAVES
    ensures Filled(n + 1)[r] == if r == n / 16 then Some(BlockOf(Filled(n)[r])[n % 16 := Entry(NameOf(n), n + 1)])
            else Filled(n)[r]
  {
    hide Filled, NameOf;
    FilledAt(n, r, 0);
    FilledAt(n + 1, r, 0);
    var es, fs := BlockOf(Filled(n)[r]), BlockOf(Filled(n + 1)[r]);
    var gs := if r == n / 16 then es[n % 16 := Entry(NameOf(n), n + 1)] else es;
    forall j | 0 <= j < ENTRIES ensures fs[j] == gs[j] {
      FilledAt(n, r, j);
      FilledAt(n + 1, r, j);
      Quotient(n, r, j);
    }
    assert fs == gs;
  }

  lemma Quotient(n: nat, r: nat, j: nat)
    requires j < 16
    ensures 16 * r + j == n <==> r == n / 16 && j == n % 16
  {
  }

  /** A name that was not given is not found. */
  lemma FilledAbsent(n: nat, name: string)
    requires n <= MOST && name != "" && forall i :: 0 <= i < n ==> NameOf(i) != name
    ensures Lookup(Filled(n), name) == None
  {
    hide Filled, NameOf, FindFrom;
    forall q | 0 <= q < LEAVES ensures LeafLookup(Filled(n)[q], name) == None {
      var es := BlockOf(Filled(n)[q]);
      forall j | 0 <= j < ENTRIES ensures es[j].name != name { FilledAt(n, q, j); }
    }
    NoneAnywhere(Filled(n), name);
  }

  lemma FilledNext(n: nat)
    requires n < MOST
    ensures Lookup(Filled(n), NameOf(n)) == None
  {
    hide Filled, NameOf, Lookup;
    forall i | 0 <= i < n ensures NameOf(i) != NameOf(n) { NamesDiffer(i, n); }
    NameThere(n);
    FilledAbsent(n, NameOf(n));
  }

  lemma NameThere(n: nat)
    requires n < MOST
    ensures |NameOf(n)| == 2
  {
  }

  /** A name that was given is found. */
  lemma FilledFound(n: nat, k: nat)
    requires k < n <= MOST
    ensures Lookup(Filled(n), NameOf(k)) == Some(k + 1) && Has(Filled(n)[k / 16], NameOf(k))
  {
    hide Filled, NameOf, FindFrom, LookupFrom;
    var name, p, i := NameOf(k), k / 16, k % 16;
    NameThere(k);
    FilledAt(n, p, i);
    HasIf(Filled(n)[p], name, i);
    forall q, j | 0 <= q < LEAVES && 0 <= j < ENTRIES && BlockOf(Filled(n)[q])[j].name == name ensures 16 * q + j == k {
      FilledAt(n, q, j);
      if 16 * q + j < n && 16 * q + j != k { NamesDiffer(16 * q + j, k); }
    }
    var q := LookupAt(Filled(n), name, 0);
    var j := HasWhere(Filled(n)[q], name);
    FilledAt(n, q, j);
  }

  /** How many entries leaf q has in use. */
  lemma {:induction false} FilledCount(n: nat, q: nat, j: nat)
    requires n <= MOST && q < LEAVES && 16 * q < n && j <= ENTRIES && Filled(n)[q].Some?
    ensures CountFrom(Filled(n)[q].value, j) ==
            if 16 * (q + 1) <= n then 16 - j else if 16 * q + j <= n then n - 16 * q - j else 0
    decreases ENTRIES - j
  {
    hide Filled, NameOf;
    if j < ENTRIES {
      FilledAt(n, q, j);
      FilledCount(n, q, j + 1);
    }
  }

  /** The leaf after the full ones has one entry exactly if the number of files is one more than a multiple of 16. */
  lemma FilledLone(n: nat, q: nat)
    requires n <= MOST && q < LEAVES
    ensures Losses.Lone(Filled(n)[q]) <==> n == 16 * q + 1
  {
    hide Filled, CountFrom;
    FilledAt(n, q, 0);
    if 16 * q < n { FilledCount(n, q, 0); }
  }

  /** Unlinking the first file clears the direct leaves. */
  lemma FilledLevel(n: nat)
    requires 0 < n <= MOST
    ensures LevelLo(Filled(n), NameOf(0)) == 0 && LevelHi(Filled(n), NameOf(0)) == DIRECT
  {
    hide Filled, NameOf, Lookup, LeafLookup, LevelLo, LevelHi;
    FilledFound(n, 0);
    LevelFrom0(Filled(n), NameOf(0));
  }

  /** Unlinking the first file loses another one exactly if there are 17, 33, 49, ... or 113 files. */
  lemma FirstGoneIff(n: nat)
    requires 0 < n <= MOST
    ensures NoLaterSingleton(Filled(n), NameOf(0)) <==> n == 1 || n % 16 != 1 || n > 113
  {
    hide Filled, NameOf, LevelLo, LevelHi, Count;
    FilledLevel(n);
    forall q | 0 <= q < LEAVES ensures Losses.Lone(Filled(n)[q]) <==> n == 16 * q + 1 { FilledLone(n, q); }
    if n % 16 == 1 && 1 < n <= 113 { assert Losses.Lone(Filled(n)[n / 16]); }
  }

  /** Unlinking the first file drops a block that is not counted free exactly if there is one file more than a
      multiple of 16, in the direct leaves. */
  lemma FirstDropsIff(n: nat)
    requires 0 < n <= MOST
    ensures Losses.NothingDropped(Filled(n), NameOf(0)) <==> n % 16 != 1 || n > 113
  {
    hide Filled, NameOf, LevelLo, LevelHi, Count;
    FilledLevel(n);
    forall q | 0 <= q < LEAVES ensures Losses.Lone(Filled(n)[q]) <==> n == 16 * q + 1 { FilledLone(n, q); }
    if n % 16 == 1 && n <= 113 { assert Losses.Lone(Filled(n)[n / 16]); }
  }

  /** A directory of seventeen files loses the last one when the first is unlinked. */
  lemma SeventeenthFileLost()
    ensures Lookup(Filled(17), NameOf(16)) == Some(17)
    ensures Lookup(Cleared(Filled(17), NameOf(0)), NameOf(16)) == None
  {
    hide Filled, NameOf, LookupFrom, FindFrom, CountFrom, LevelLo, LevelHi, Cleared, ClearLeaf;
    var t, name := Filled(17), NameOf(16);
    NameThere(0);
    NameThere(16);
    FilledFound(17, 16);
    FilledLevel(17);
    forall q | 0 <= q < LEAVES ensures LeafLookup(Cleared(t, NameOf(0))[q], name) == None {
      ClearedLeaf(t, NameOf(0), q);
      if q == 1 {
        FilledLone(17, 1);
        ClearedSingleton(t[1], NameOf(0), name);
      } else {
        NotElsewhere(17, 16, q);
        if q < DIRECT { ClearLeafNoNew(t[q], NameOf(0), name); }
      }
    }
    NoneAnywhere(Cleared(t, NameOf(0)), name);
  }

  lemma NotElsewhere(n: nat, k: nat, q: nat)
    requires k < n <= MOST && q < LEAVES && q != k / 16
    ensures LeafLookup(Filled(n)[q], NameOf(k)) == None
  {
    hide Filled, NameOf, FindFrom;
    NameThere(k);
    if Has(Filled(n)[q], NameOf(k)) {
      var j := HasWhere(Filled(n)[q], NameOf(k));
      FilledAt(n, q, j);
      NamesDiffer(16 * q + j, k);
    }
  }

  /** After the first of many files was unlinked, the search for room passes the free entry by. */
  lemma RoomPassedBy(n: nat)
    requires 128 <= n <= MOST && n % 16 == 0
    ensures var t := Cleared(Filled(n), NameOf(0));
            && FreeAt(t, 0, 0)
            && Wanted(t, (n - 1) / 16) == if n == 128 then LEAVES else FIRST_ROW
  {
    hide Filled, NameOf, LevelLo, LevelHi, Cleared, CountFrom, Usable;
    var t := Cleared(Filled(n), NameOf(0));
    FilledLevel(n);
    ClearedLeaf(Filled(n), NameOf(0), 0);
    FilledAt(n, 0, 0);
    FilledCount(n, 0, 0);
    if n == 128 {
      LastDirectFull();
    } else {
      ClearedLeaf(Filled(n), NameOf(0), (n - 1) / 16);
      FilledUsable(n, (n - 1) / 16);
    }
  }

  lemma LastDirectFull()
    ensures !Usable(Cleared(Filled(128), NameOf(0))[7])
  {
    hide Filled, NameOf, LevelLo, LevelHi, Cleared, CountFrom;
    var es := BlockOf(Filled(128)[7]);
    FilledLevel(128);
    ClearedLeaf(Filled(128), NameOf(0), 7);
    FilledAt(128, 7, 0);
    FilledCount(128, 7, 0);
    forall j | 0 <= j < ENTRIES ensures es[j].ino != 0 && es[j].name != NameOf(0) {
      FilledAt(128, 7, j);
      NamesDiffer(112 + j, 0);
    }
    assert Without(es, NameOf(0)) == es;
  }
}
