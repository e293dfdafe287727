/** The RAM disk as a value: superblock counters, bitmap, inodes and data blocks, and which pointer slot of which inode
    every block in use belongs to. */
module Disk {
  import opened Options
  import opened Bitmap

  const BLOCK_SIZE: nat := 256
  const PTRS: nat := 64           // pointers in an index block
  const ENTRIES: nat := 16        // entries in a directory block
  const INODES: nat := 1024
  const DIRECT: nat := 8
  const FIRST_ROW: nat := 72      // leaves reached without the double-indirect block
  const LEAVES: nat := 4168       // 8 + 64 + 64 * 64
  const MAX_FILE_SIZE: nat := 1067008

  type Byte = b: nat | b < 256

  /** An unsigned int of the source. */
  type U32 = x: nat | x < 0x1_0000_0000

  /** x + k in unsigned arithmetic. */
  function Plus32(x: U32, k: nat): U32 { (x + k) % 0x1_0000_0000 }

  /** A pointer to a data block. */
  type Ptr = Option<nat>

  datatype Entry = Entry(name: string, ino: nat)

  const NO_ENTRY: Entry := Entry("", 0)

  type Direct8 = s: seq<Ptr> | |s| == 8 witness seq(8, _ => None)
  type Index64 = s: seq<Ptr> | |s| == 64 witness seq(64, _ => None)
  type Bytes256 = s: seq<Byte> | |s| == 256 witness seq(256, _ => 0)
  type Entries16 = s: seq<Entry> | |s| == 16 witness seq(16, _ => Entry("", 0))

  /** The union DATA_BLOCK. A zeroed block reads as empty in each of its three roles. */
  datatype Block = Zeroed | Bytes(data: Bytes256) | Entries(entries: Entries16) | Index(ptrs: Index64)

  function DataOf(b: Block): Bytes256 {
    if b.Bytes? then b.data else seq(256, _ => 0)
  }

  function EntriesOf(b: Block): Entries16 {
    if b.Entries? then b.entries else seq(16, _ => NO_ENTRY)
  }

  function PtrsOf(b: Block): Index64 {
    if b.Index? then b.ptrs else seq(64, _ => None)
  }

  datatype Kind = NoFile | Dir | Reg

  datatype Inode = Inode(kind: Kind, size: U32, direct: Direct8, single: Ptr, double: Ptr, access: nat)

  /** A zeroed inode. */
  const NO_INODE: Inode := Inode(NoFile, 0, [None, None, None, None, None, None, None, None], None, None, 0)

  type InodeTable = s: seq<Inode> | |s| == 1024 witness seq(1024, _ => NO_INODE)
  type BlockStore = s: seq<Block> | |s| == 7931 witness seq(7931, _ => Zeroed)

  /** Where in an inode's tree a pointer is stored: the eight direct ones, the entries of the single-indirect block, the
      rows of the double-indirect block, the entries of its rows, and the two pointers to index blocks in the inode
      itself. */
  datatype Slot = Direct(i: nat) | Single(i: nat) | Row(k: nat, j: nat) | SingleIx | DoubleIx | RowIx(k: nat)

  datatype Place = Place(ino: nat, slot: Slot)

  datatype Disk = Disk(freeBlocks: nat, freeInodes: nat, used: set<nat>,
                       inodes: InodeTable, blocks: BlockStore, owner: map<nat, Place>)

  predicate ValidSlot(s: Slot) {
    match s
    case Direct(i) => i < DIRECT
    case Single(i) => i < PTRS
    case Row(k, j) => k < PTRS && j < PTRS
    case SingleIx => true
    case DoubleIx => true
    case RowIx(k) => k < PTRS
  }

  predicate IsIndex(s: Slot) { s.SingleIx? || s.DoubleIx? || s.RowIx? }

  function BlockAt(d: Disk, b: nat): Block {
    if b < DATA_BLOCKS_NUM then d.blocks[b] else Zeroed
  }

  /** Entry k of the index block p points to. */
  function Child(d: Disk, p: Ptr, k: nat): Ptr {
    if p.None? || k >= PTRS then None else PtrsOf(BlockAt(d, p.value))[k]
  }

  /** The pointer stored at a slot of inode ino's tree. */
  function PtrAt(d: Disk, ino: nat, s: Slot): Ptr {
    if ino >= INODES then None
    else
      var n := d.inodes[ino];
      match s
      case Direct(i) => if i < DIRECT then n.direct[i] else None
      case Single(i) => Child(d, n.single, i)
      case Row(k, j) => Child(d, Child(d, n.double, k), j)
      case SingleIx => n.single
      case DoubleIx => n.double
      case RowIx(k) => Child(d, n.double, k)
  }

  /** The index block that holds slot s is there. */
  predicate HasParent(d: Disk, ino: nat, s: Slot) {
    match s
    case Single(_) => PtrAt(d, ino, SingleIx).Some?
    case RowIx(_) => PtrAt(d, ino, DoubleIx).Some?
    case Row(k, _) => PtrAt(d, ino, RowIx(k)).Some?
    case _ => true
  }

  /** A block is only ever looked at in the role it was allocated for. */
  predicate RoleOk(d: Disk, b: nat, p: Place)
    requires p.ino < INODES
  {
    var blk := BlockAt(d, b);
    if IsIndex(p.slot) then d.inodes[p.ino].kind != NoFile && (blk.Zeroed? || blk.Index?)
    else match d.inodes[p.ino].kind
      case NoFile => false
      case Dir => blk.Zeroed? || blk.Entries?
      case Reg => blk.Zeroed? || blk.Bytes?
  }

  /** Block ownership: every pointer leads to a block that is marked used and belongs to that pointer alone, and every
      owned block is in its owner's role. */
  ghost predicate Owned(d: Disk) {
    && (forall ino, s :: PtrAt(d, ino, s).Some? ==>
       PtrAt(d, ino, s).value in d.owner
       && d.owner[PtrAt(d, ino, s).value] == Place(ino, s))
    && (forall b :: b in d.owner ==>
       b in d.used && d.owner[b].ino < INODES
       && PtrAt(d, d.owner[b].ino, d.owner[b].slot) == Some(b))
    && (forall b :: b in d.owner ==> d.owner[b].ino < INODES && RoleOk(d, b, d.owner[b]))
    && (forall b :: b in d.used ==> b < DATA_BLOCKS_NUM)
  }

  /** No two pointers anywhere in the file system lead to the same block, and each leads to a marked one. */
  lemma NoSharing(d: Disk, p: Place, q: Place)
    requires Owned(d)
    requires PtrAt(d, p.ino, p.slot).Some? && PtrAt(d, p.ino, p.slot) == PtrAt(d, q.ino, q.slot)
    ensures p == q && PtrAt(d, p.ino, p.slot).value in d.used
  {
  }

  // ---------------------------------------------------------------- taking a block

  /** Write pointer p into a slot whose index block is there. */
  function StorePtr(d: Disk, ino: nat, s: Slot, p: Ptr): Disk
    requires ino < INODES && ValidSlot(s) && HasParent(d, ino, s)
  {
    var n := d.inodes[ino];
    match s
    case Direct(i) => d.(inodes := d.inodes[ino := n.(direct := n.direct[i := p])])
    case SingleIx => d.(inodes := d.inodes[ino := n.(single := p)])
    case DoubleIx => d.(inodes := d.inodes[ino := n.(double := p)])
    case Single(i) => StoreChild(d, n.single.value, i, p)
    case RowIx(k) => StoreChild(d, n.double.value, k, p)
    case Row(k, j) => StoreChild(d, Child(d, n.double, k).value, j, p)
  }

  function StoreChild(d: Disk, x: nat, k: nat, p: Ptr): Disk
    requires k < PTRS
  {
    if x < DATA_BLOCKS_NUM then d.(blocks := d.blocks[x := Index(PtrsOf(d.blocks[x])[k := p])]) else d
  }

  /** allocate_data_block: mark, count, zero. */
  function Taken(d: Disk, b: nat): Disk
    requires b < DATA_BLOCKS_NUM && d.freeBlocks > 0
  {
    d.(used := d.used + {b}, freeBlocks := d.freeBlocks - 1, blocks := d.blocks[b := Zeroed])
  }

  /** Take block b and hang it into a slot. */
  ghost function Attached(d: Disk, ino: nat, s: Slot, b: nat): Disk
    requires b < DATA_BLOCKS_NUM && d.freeBlocks > 0
    requires ino < INODES && ValidSlot(s) && HasParent(Taken(d, b), ino, s)
  {
    StorePtr(Taken(d, b), ino, s, Some(b)).(owner := d.owner[b := Place(ino, s)])
  }

  /** The pointers a lookup of slot t passes through, named so that ownership speaks about them. */
  lemma Path(d: Disk, ino: nat, t: Slot)
    requires ino < INODES
    ensures PtrAt(d, ino, SingleIx) == d.inodes[ino].single
    ensures PtrAt(d, ino, DoubleIx) == d.inodes[ino].double
    ensures t.Single? ==> PtrAt(d, ino, t) == Child(d, PtrAt(d, ino, SingleIx), t.i)
    ensures t.RowIx? ==> PtrAt(d, ino, t) == Child(d, PtrAt(d, ino, DoubleIx), t.k)
    ensures t.Row? ==> PtrAt(d, ino, RowIx(t.k)) == Child(d, PtrAt(d, ino, DoubleIx), t.k)
    ensures t.Row? ==> PtrAt(d, ino, t) == Child(d, PtrAt(d, ino, RowIx(t.k)), t.j)
  {
  }

  /** Zeroing an unowned block and marking it is invisible in every tree. */
  lemma TakenPtr(d: Disk, b: nat, ino: nat, s: Slot)
    requires Owned(d) && b !in d.used && b < DATA_BLOCKS_NUM && d.freeBlocks > 0
    ensures PtrAt(Taken(d, b), ino, s) == PtrAt(d, ino, s)
  {
    if ino < INODES { Path(d, ino, s); }
  }

  lemma TakenOwned(d: Disk, b: nat)
    requires Owned(d) && b !in d.used && b < DATA_BLOCKS_NUM && d.freeBlocks > 0
    ensures Owned(Taken(d, b))
    ensures b !in d.owner
  {
    var d' := Taken(d, b);
    forall ino, s ensures PtrAt(d', ino, s) == PtrAt(d, ino, s) { TakenPtr(d, b, ino, s); }
  }

  /** An index block without pointers: none yet, or just zeroed. */
  ghost predicate NoChildren(d: Disk, p: Ptr) {
    forall k :: Child(d, p, k) == None
  }

  lemma ChildAfter(d: Disk, x: nat, k: nat, p: Ptr, q: Ptr, i: nat)
    requires k < PTRS && x < DATA_BLOCKS_NUM
    ensures Child(StoreChild(d, x, k, p), q, i) == if q == Some(x) && i == k then p else Child(d, q, i)
  {
  }

  /** The index block that holds slot s. */
  function Parent(d: Disk, ino: nat, s: Slot): Ptr {
    match s
    case Single(_) => PtrAt(d, ino, SingleIx)
    case RowIx(_) => PtrAt(d, ino, DoubleIx)
    case Row(k, _) => PtrAt(d, ino, RowIx(k))
    case _ => None
  }

  function IndexIn(s: Slot): nat {
    match s
    case Single(i) => i
    case RowIx(k) => k
    case Row(_, j) => j
    case _ => 0
  }

  predicate InIndexBlock(s: Slot) { s.Single? || s.RowIx? || s.Row? }

  lemma PtrViaParent(d: Disk, ino: nat, t: Slot)
    requires InIndexBlock(t)
    ensures PtrAt(d, ino, t) == Child(d, Parent(d, ino, t), IndexIn(t))
  {
  }

  /** Distinct slots are in distinct index blocks or at distinct indices. */
  lemma ParentsDiffer(d: Disk, ino: nat, s: Slot, ino': nat, t: Slot)
    requires Owned(d) && InIndexBlock(s) && InIndexBlock(t)
    requires Parent(d, ino, s).Some? && Parent(d, ino, s) == Parent(d, ino', t) && IndexIn(s) == IndexIn(t)
    ensures ino == ino' && s == t
  {
    hide PtrAt;
  }

  lemma StoreIsStoreChild(d: Disk, ino: nat, s: Slot, p: Ptr)
    requires Owned(d) && ino < INODES && ValidSlot(s) && InIndexBlock(s) && HasParent(d, ino, s)
    ensures Parent(d, ino, s).Some? && Parent(d, ino, s).value < DATA_BLOCKS_NUM && Parent(d, ino, s).value in d.owner
    ensures IndexIn(s) < PTRS
    ensures StorePtr(d, ino, s, p) == StoreChild(d, Parent(d, ino, s).value, IndexIn(s), p)
    ensures StorePtr(d, ino, s, p).inodes == d.inodes
  {
    assert Parent(d, ino, s).Some?;
    assert Parent(d, ino, s).value < DATA_BLOCKS_NUM by { hide PtrAt; }
    hide Owned;
  }

  /** A slot outside index blocks does not see stores into them. */
  lemma OutsideIndex(d: Disk, d': Disk, ino: nat, t: Slot)
    requires !InIndexBlock(t) && d'.inodes == d.inodes
    ensures PtrAt(d', ino, t) == PtrAt(d, ino, t)
  {
  }

  lemma StoreInIndexAt(d: Disk, ino: nat, s: Slot, p: Ptr, ino': nat, t: Slot)
    requires Owned(d) && ino < INODES && ValidSlot(s) && InIndexBlock(s) && HasParent(d, ino, s)
    requires IsIndex(s) ==> NoChildren(d, PtrAt(d, ino, s)) && NoChildren(d, p)
    requires p.Some? ==> p.value !in d.owner
    requires t.Row? ==> PtrAt(StorePtr(d, ino, s, p), ino', RowIx(t.k)) ==
                        if ino' == ino && s == RowIx(t.k) then p else PtrAt(d, ino', RowIx(t.k))
    ensures PtrAt(StorePtr(d, ino, s, p), ino', t) == if ino' == ino && t == s then p else PtrAt(d, ino', t)
  {
    hide StoreChild, Child, StorePtr, PtrAt, Owned;
    StoreIsStoreChild(d, ino, s, p);
    var d' := StorePtr(d, ino, s, p);
    var x := Parent(d, ino, s).value;
    OutsideIndex(d, d', ino', SingleIx);
    OutsideIndex(d, d', ino', DoubleIx);
    if InIndexBlock(t) {
      PtrViaParent(d', ino', t);
      PtrViaParent(d, ino', t);
      PtrViaParent(d, ino, s);
      ChildAfter(d, x, IndexIn(s), p, Parent(d', ino', t), IndexIn(t));
      if Parent(d', ino', t) == Parent(d, ino', t) && Parent(d, ino', t) == Some(x) && IndexIn(t) == IndexIn(s) {
        ParentsDiffer(d, ino, s, ino', t);
      }
    } else {
      OutsideIndex(d, d', ino', t);
    }
  }

  lemma StoreInInodeAt(d: Disk, ino: nat, s: Slot, p: Ptr, ino': nat, t: Slot)
    requires ino < INODES && ValidSlot(s) && !InIndexBlock(s)
    requires IsIndex(s) ==> NoChildren(d, PtrAt(d, ino, s)) && NoChildren(d, p)
    ensures PtrAt(StorePtr(d, ino, s, p), ino', t) == if ino' == ino && t == s then p else PtrAt(d, ino', t)
  {
    var d' := StorePtr(d, ino, s, p);
    assert d'.blocks == d.blocks;
    SameBlocksSameChildren(d, d');
    if InIndexBlock(t) {
      PtrViaParent(d', ino', t);
      PtrViaParent(d, ino', t);
    }
  }

  lemma SameBlocksSameChildren(d: Disk, d': Disk)
    requires d'.blocks == d.blocks
    ensures forall q, i :: Child(d', q, i) == Child(d, q, i)
  {
  }

  /** Writing a pointer changes that slot and nothing else, anywhere. */
  lemma StorePtrAt(d: Disk, ino: nat, s: Slot, p: Ptr, ino': nat, t: Slot)
    requires Owned(d) && ino < INODES && ValidSlot(s) && HasParent(d, ino, s)
    requires IsIndex(s) ==> NoChildren(d, PtrAt(d, ino, s)) && NoChildren(d, p)
    requires p.Some? ==> p.value !in d.owner
    ensures PtrAt(StorePtr(d, ino, s, p), ino', t) == if ino' == ino && t == s then p else PtrAt(d, ino', t)
    decreases if t.Row? then 1 else 0
  {
    hide StoreChild, Child, StorePtr, PtrAt, Owned;
    if InIndexBlock(s) {
      if t.Row? { StorePtrAt(d, ino, s, p, ino', RowIx(t.k)); }
      StoreInIndexAt(d, ino, s, p, ino', t);
    } else {
      StoreInInodeAt(d, ino, s, p, ino', t);
    }
  }

  /** Block b can be hung into slot s of ino: the block is free and the slot is empty but reachable. */
  predicate CanAttach(d: Disk, ino: nat, s: Slot, b: nat) {
    && b < DATA_BLOCKS_NUM && b !in d.used && d.freeBlocks > 0
    && ino < INODES && d.inodes[ino].kind != NoFile && ValidSlot(s)
    && HasParent(d, ino, s) && PtrAt(d, ino, s) == None
  }

  lemma TakenParent(d: Disk, ino: nat, s: Slot, b: nat)
    requires Owned(d) && CanAttach(d, ino, s, b)
    ensures HasParent(Taken(d, b), ino, s)
  {
    hide PtrAt, Taken, Owned;
    TakenPtr(d, b, ino, SingleIx);
    TakenPtr(d, b, ino, DoubleIx);
    if s.Row? { TakenPtr(d, b, ino, RowIx(s.k)); }
  }

  /** Taking a block and hanging it into a slot changes that one pointer. */
  lemma AttachedPtr(d: Disk, ino: nat, s: Slot, b: nat, ino': nat, t: Slot)
    requires Owned(d) && CanAttach(d, ino, s, b)
    ensures HasParent(Taken(d, b), ino, s)
    ensures PtrAt(Attached(d, ino, s, b), ino', t) == if ino' == ino && t == s then Some(b) else PtrAt(d, ino', t)
  {
    hide PtrAt, Owned, Child;
    var d1 := Taken(d, b);
    TakenParent(d, ino, s, b);
    TakenOwned(d, b);
    TakenPtr(d, b, ino', t);
    TakenPtr(d, b, ino, s);
    assert NoChildren(d1, Some(b)) by { ZeroedNoChildren(d1, b); }
    assert NoChildren(d1, None) by { NoneNoChildren(d1); }
    StorePtrAt(d1, ino, s, Some(b), ino', t);
    OwnerIrrelevant(StorePtr(d1, ino, s, Some(b)), d.owner[b := Place(ino, s)], ino', t);
  }

  lemma ZeroedNoChildren(d: Disk, b: nat)
    requires BlockAt(d, b) == Zeroed
    ensures NoChildren(d, Some(b))
  {
  }

  lemma NoneNoChildren(d: Disk)
    ensures NoChildren(d, None)
  {
  }

  lemma OwnerIrrelevant(d: Disk, owner: map<nat, Place>, ino: nat, t: Slot)
    ensures PtrAt(d.(owner := owner), ino, t) == PtrAt(d, ino, t)
  {
  }

  /** Which blocks a store through a slot changes: only the index block that holds the slot. */
  lemma StorePtrBlocks(d: Disk, ino: nat, s: Slot, p: Ptr, b: nat)
    requires Owned(d) && ino < INODES && ValidSlot(s) && HasParent(d, ino, s)
    ensures Some(b) != Parent(d, ino, s) ==> BlockAt(StorePtr(d, ino, s, p), b) == BlockAt(d, b)
    ensures Some(b) == Parent(d, ino, s) ==>
            BlockAt(StorePtr(d, ino, s, p), b).Index? && b in d.owner
            && IsIndex(d.owner[b].slot)
  {
    if InIndexBlock(s) { StoreIsStoreChild(d, ino, s, p); hide Owned, PtrAt; ParentIsIndex(d, ino, s); }
  }

  lemma ParentIsIndex(d: Disk, ino: nat, s: Slot)
    requires Owned(d) && InIndexBlock(s) && Parent(d, ino, s).Some?
    ensures Parent(d, ino, s).value in d.owner && Parent(d, ino, s).value < DATA_BLOCKS_NUM
    ensures IsIndex(d.owner[Parent(d, ino, s).value].slot) && d.owner[Parent(d, ino, s).value].ino == ino
  {
    hide PtrAt;
  }

  lemma StorePtrKinds(d: Disk, ino: nat, s: Slot, p: Ptr, ino': nat)
    requires ino < INODES && ValidSlot(s) && HasParent(d, ino, s) && ino' < INODES
    ensures StorePtr(d, ino, s, p).inodes[ino'].kind == d.inodes[ino'].kind
    ensures ino' != ino ==> StorePtr(d, ino, s, p).inodes[ino'] == d.inodes[ino']
    ensures var n, n' := d.inodes[ino], StorePtr(d, ino, s, p).inodes[ino]; n'.size == n.size && n'.access == n.access
    ensures var d' := StorePtr(d, ino, s, p);
            d'.freeBlocks == d.freeBlocks && d'.freeInodes == d.freeInodes && d'.used == d.used && d'.owner == d.owner
  {
  }

  lemma AttachedBlocks(d: Disk, ino: nat, s: Slot, b: nat, c: nat)
    requires Owned(d) && CanAttach(d, ino, s, b)
    ensures HasParent(Taken(d, b), ino, s)
    ensures c == b ==> BlockAt(Attached(d, ino, s, b), c) == Zeroed
    ensures c != b && (c !in d.owner || !IsIndex(d.owner[c].slot)) ==>
            BlockAt(Attached(d, ino, s, b), c) == BlockAt(d, c)
    ensures c in d.owner && IsIndex(d.owner[c].slot) ==>
            BlockAt(Attached(d, ino, s, b), c) == BlockAt(d, c) || BlockAt(Attached(d, ino, s, b), c).Index?
  {
    hide PtrAt, Owned, Child, StorePtr;
    TakenParent(d, ino, s, b);
    TakenOwned(d, b);
    StorePtrBlocks(Taken(d, b), ino, s, Some(b), c);
  }

  lemma AttachedFrame(d: Disk, ino: nat, s: Slot, b: nat, ino': nat)
    requires Owned(d) && CanAttach(d, ino, s, b) && ino' < INODES
    ensures HasParent(Taken(d, b), ino, s)
    ensures var d' := Attached(d, ino, s, b);
            && d'.inodes[ino'].kind == d.inodes[ino'].kind
            && (ino' != ino ==> d'.inodes[ino'] == d.inodes[ino'])
            && d'.inodes[ino].size == d.inodes[ino].size && d'.inodes[ino].access == d.inodes[ino].access
            && d'.freeBlocks == d.freeBlocks - 1 && d'.freeInodes == d.freeInodes && d'.used == d.used + {b}
            && d'.owner == d.owner[b := Place(ino, s)]
  {
    hide PtrAt, Owned, Child, StorePtr;
    TakenParent(d, ino, s, b);
    StorePtrKinds(Taken(d, b), ino, s, Some(b), ino');
  }

  lemma AttachedOwned(d: Disk, ino: nat, s: Slot, b: nat)
    requires Owned(d) && CanAttach(d, ino, s, b)
    ensures HasParent(Taken(d, b), ino, s) && Owned(Attached(d, ino, s, b))
  {
    hide PtrAt, Attached, HasParent;
    TakenParent(d, ino, s, b);
    var d' := Attached(d, ino, s, b);
    AttachedFrame(d, ino, s, b, ino);
    forall ino', t
      ensures PtrAt(d', ino', t) == if ino' == ino && t == s then Some(b) else PtrAt(d, ino', t)
    {
      AttachedPtr(d, ino, s, b, ino', t);
    }
    forall c | c in d'.owner ensures d'.owner[c].ino < INODES && RoleOk(d', c, d'.owner[c]) {
      AttachedBlocks(d, ino, s, b, c);
      AttachedFrame(d, ino, s, b, d'.owner[c].ino);
    }
  }

  // ---------------------------------------------------------------- changing the contents of a leaf

  function SetBlock(d: Disk, b: nat, blk: Block): Disk
    requires b < DATA_BLOCKS_NUM
  {
    d.(blocks := d.blocks[b := blk])
  }

  /** Index blocks other than b look the same. */
  lemma SetBlockChild(d: Disk, b: nat, blk: Block, p: Ptr, k: nat)
    requires b < DATA_BLOCKS_NUM && p != Some(b)
    ensures Child(SetBlock(d, b, blk), p, k) == Child(d, p, k)
  {
  }

  /** Only index blocks carry the tree: rewriting any other block moves no pointer. */
  lemma SetBlockPtr(d: Disk, b: nat, blk: Block, ino: nat, t: Slot)
    requires Owned(d) && b < DATA_BLOCKS_NUM && (b in d.owner ==> !IsIndex(d.owner[b].slot))
    ensures PtrAt(SetBlock(d, b, blk), ino, t) == PtrAt(d, ino, t)
    decreases if t.Row? then 1 else 0
  {
    hide Child, PtrAt, Owned, SetBlock;
    var d' := SetBlock(d, b, blk);
    assert d'.inodes == d.inodes by { SetBlockInodes(d, b, blk); }
    OutsideIndex(d, d', ino, SingleIx);
    OutsideIndex(d, d', ino, DoubleIx);
    if InIndexBlock(t) {
      if t.Row? { SetBlockPtr(d, b, blk, ino, RowIx(t.k)); }
      PtrViaParent(d', ino, t);
      PtrViaParent(d, ino, t);
      if Parent(d, ino, t).Some? { ParentIsIndex(d, ino, t); }
      SetBlockChild(d, b, blk, Parent(d, ino, t), IndexIn(t));
    } else {
      OutsideIndex(d, d', ino, t);
    }
  }

  lemma SetBlockInodes(d: Disk, b: nat, blk: Block)
    requires b < DATA_BLOCKS_NUM
    ensures SetBlock(d, b, blk).inodes == d.inodes
    ensures forall c :: BlockAt(SetBlock(d, b, blk), c) == if c == b then blk else BlockAt(d, c)
  {
  }

  /** New contents of the right kind for a leaf keep the ownership invariant. */
  lemma SetBlockOwned(d: Disk, b: nat, blk: Block)
    requires Owned(d) && b < DATA_BLOCKS_NUM && (b in d.owner ==> !IsIndex(d.owner[b].slot))
    requires b in d.owner ==> d.owner[b].ino < INODES && RoleOk(SetBlock(d, b, blk), b, d.owner[b])
    ensures Owned(SetBlock(d, b, blk))
  {
    hide PtrAt;
    var d' := SetBlock(d, b, blk);
    forall ino, t ensures PtrAt(d', ino, t) == PtrAt(d, ino, t) { SetBlockPtr(d, b, blk, ino, t); }
    forall c | c in d'.owner ensures d'.owner[c].ino < INODES && RoleOk(d', c, d'.owner[c]) {
      assert RoleOk(d, c, d.owner[c]);
    }
  }

  /** A new size changes no pointer. */
  function SetSize(d: Disk, ino: nat, size: U32): Disk
    requires ino < INODES
  {
    d.(inodes := d.inodes[ino := d.inodes[ino].(size := size)])
  }

  lemma SetSizePtr(d: Disk, ino: nat, size: U32, ino': nat, t: Slot)
    requires ino < INODES
    ensures PtrAt(SetSize(d, ino, size), ino', t) == PtrAt(d, ino', t)
  {
    SameBlocksSameChildren(d, SetSize(d, ino, size));
  }

  lemma SetSizeOwned(d: Disk, ino: nat, size: U32)
    requires Owned(d) && ino < INODES
    ensures Owned(SetSize(d, ino, size))
  {
    hide PtrAt;
    var d' := SetSize(d, ino, size);
    forall i, t ensures PtrAt(d', i, t) == PtrAt(d, i, t) { SetSizePtr(d, ino, size, i, t); }
    forall c | c in d'.owner ensures d'.owner[c].ino < INODES && RoleOk(d', c, d'.owner[c]) {
      assert RoleOk(d, c, d.owner[c]);
    }
  }
}
