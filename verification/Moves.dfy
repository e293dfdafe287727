/** The elementary changes every operation of the file system is made of, each with the guard under which the code
    makes it. */
module Moves {
  import opened Options
  import Bitmap
  import opened Disk

  // ---------------------------------------------------------------- giving back

  /** Block b in slot s is cut off: its bit is cleared and the pointer to it, but it is not counted as free. */
  ghost function Dropped(d: Disk, dir: nat, s: Slot, b: nat): Disk
    requires dir < INODES && ValidSlot(s) && HasParent(d, dir, s)
  {
    StorePtr(d, dir, s, None).(used := d.used - {b}, owner := d.owner - {b})
  }

  /** Slot s holds block b, which nothing hangs from. */
  ghost predicate CanDrop(d: Disk, dir: nat, s: Slot, b: nat) {
    && dir < INODES && ValidSlot(s) && HasParent(d, dir, s) && PtrAt(d, dir, s) == Some(b)
    && (IsIndex(s) ==> NoChildren(d, Some(b)))
  }

  /** All blocks of ino's tree. */
  ghost function Owns(d: Disk, ino: nat): set<nat> {
    set b | b in d.owner && d.owner[b].ino == ino
  }

  ghost function ZeroedIn(blocks: BlockStore, s: set<nat>): BlockStore {
    seq(7931, b requires 0 <= b < 7931 => if b in s then Zeroed else blocks[b])
  }

  /** The blocks of ino given back and counted, the inode zeroed and counted as free. */
  ghost function Removed(d: Disk, ino: nat): Disk
    requires ino < INODES
  {
    Disk(d.freeBlocks + |Owns(d, ino)|, d.freeInodes + 1, d.used - Owns(d, ino),
         d.inodes[ino := NO_INODE], ZeroedIn(d.blocks, Owns(d, ino)), d.owner - Owns(d, ino))
  }

  // ---------------------------------------------------------------- a new inode

  predicate Blank(n: Inode) { n == NO_INODE.(kind := n.kind, access := n.access) }

  /** allocate_inode, and the type and mode that rd_create gives it. */
  function WithInode(d: Disk, x: nat, n: Inode): Disk
    requires x < INODES && d.freeInodes > 0
  {
    d.(freeInodes := d.freeInodes - 1, inodes := d.inodes[x := n])
  }

  // ---------------------------------------------------------------- moves

  datatype Move =
    | Hang(ino: nat, s: Slot, b: nat)      // take a free block and store the pointer to it in an empty slot
    | Take(b: nat)                         // take a free block and store no pointer to it
    | Fill(b: nat, blk: Block)             // new contents for a leaf, or for a block that nobody owns
    | Resize(ino: nat, size: U32)          // a new size
    | Cut(ino: nat, s: Slot, b: nat)       // clear the bit of a block and the pointer to it
    | Occupy(x: nat, n: Inode)             // an inode not in use gets a type and a mode
    | Remove(ino: nat)                     // all blocks of an inode and the inode itself are given back

  /** Contents b may get where it hangs. */
  ghost predicate CanFill(d: Disk, b: nat, blk: Block) {
    && b < Bitmap.DATA_BLOCKS_NUM
    && (b in d.owner ==>
       d.owner[b].ino < INODES && !IsIndex(d.owner[b].slot)
       && RoleOk(SetBlock(d, b, blk), b, d.owner[b]))
  }

  ghost predicate CanMove(d: Disk, m: Move) {
    match m
    case Hang(ino, s, b) => CanAttach(d, ino, s, b) && HasParent(Taken(d, b), ino, s)
    case Take(b) => b < Bitmap.DATA_BLOCKS_NUM && b !in d.used && d.freeBlocks > 0
    case Fill(b, blk) => CanFill(d, b, blk)
    case Resize(ino, _) => ino < INODES
    case Cut(ino, s, b) => CanDrop(d, ino, s, b)
    case Occupy(x, n) => x < INODES && d.freeInodes > 0 && d.inodes[x].kind == NoFile && Blank(n)
    case Remove(ino) => ino < INODES
  }

  ghost function Moved(d: Disk, m: Move): Disk
    requires CanMove(d, m)
  {
    match m
    case Hang(ino, s, b) => Attached(d, ino, s, b)
    case Take(b) => Taken(d, b)
    case Fill(b, blk) => SetBlock(d, b, blk)
    case Resize(ino, size) => SetSize(d, ino, size)
    case Cut(ino, s, b) => Dropped(d, ino, s, b)
    case Occupy(x, n) => WithInode(d, x, n)
    case Remove(ino) => Removed(d, ino)
  }

  /** The moves ms can be made one after the other from d, and lead to d'. */
  ghost predicate Through(d: Disk, ms: seq<Move>, d': Disk)
    decreases |ms|
  {
    if ms == [] then d' == d else CanMove(d, ms[0]) && Through(Moved(d, ms[0]), ms[1..], d')
  }

  /** d' comes from d by guarded moves. */
  ghost predicate Evolves(d: Disk, d': Disk) { exists ms :: Through(d, ms, d') }

  lemma EvolvesNot(d: Disk)
    ensures Evolves(d, d)
  {
    assert Through(d, [], d);
  }

  lemma EvolvesBy(d: Disk, m: Move)
    requires CanMove(d, m)
    ensures Evolves(d, Moved(d, m))
  {
    hide CanMove, Moved;
    assert Through(Moved(d, m), [m][1..], Moved(d, m));
    assert Through(d, [m], Moved(d, m));
  }

  lemma {:induction false} ThroughTwice(d: Disk, ms: seq<Move>, d1: Disk, ns: seq<Move>, d2: Disk)
    requires Through(d, ms, d1) && Through(d1, ns, d2)
    ensures Through(d, ms + ns, d2)
    decreases |ms|
  {
    hide CanMove, Moved;
    if ms == [] {
      assert ms + ns == ns;
    } else {
      ThroughTwice(Moved(d, ms[0]), ms[1..], d1, ns, d2);
      assert (ms + ns)[0] == ms[0] && (ms + ns)[1..] == ms[1..] + ns;
    }
  }

  lemma EvolvesTwice(d: Disk, d1: Disk, d2: Disk)
    requires Evolves(d, d1) && Evolves(d1, d2)
    ensures Evolves(d, d2)
  {
    hide Through;
    var ms :| Through(d, ms, d1);
    var ns :| Through(d1, ns, d2);
    ThroughTwice(d, ms, d1, ns, d2);
  }
}
