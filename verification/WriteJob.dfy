/** Bookkeeping of a write in progress: what the file shows, which blocks it has, and what it can still cost. */
module WriteJob {
  import opened Options
  import opened Disk
  import opened FileData
  import opened FileSteps

  /** A write of data[..n] behind text, in a tree with frontier f; total counts free blocks and the tree's. */
  datatype Job = Job(text: seq<Byte>, f: Frontier, data: seq<Byte>, n: nat, total: nat)

  function EndSize(job: Job): nat { |job.text| + job.n }

  /** The tree the finished write needs, on top of what is there. */
  function Target(job: Job): Frontier { Join(job.f, Needed(EndSize(job))) }

  /** k bytes of the job are done, the tree has grown to g, and every block is accounted for. */
  ghost predicate OnTrack(d: Disk, ino: nat, job: Job, k: nat, g: Frontier) {
    && k <= job.n <= |job.data|
    && Settled(d, ino, job.text + job.data[..k], g)
    && d.freeBlocks + Blocks(g) == job.total
    && Within(job.f, g) && Within(g, Target(job))
  }

  lemma Slices(text: seq<Byte>, data: seq<Byte>, k: nat, k': nat)
    requires k <= k' <= |data|
    ensures text + data[..k'] == text + data[..k] + data[k..k']
  {
    assert data[..k'] == data[..k] + data[k..k'];
  }

  /** Leaf q, where the text ends, is filled further. */
  lemma TrackLeaf(d: Disk, d': Disk, ino: nat, job: Job, k: nat, k': nat, g: Frontier, q: nat, o: nat)
    requires OnTrack(d, ino, job, k, g) && k < k' <= job.n
    requires |job.text| + k == q * BLOCK_SIZE + o && o < BLOCK_SIZE
    requires LeafWritten(d, d', ino, q, o, job.data[k..k']) && NoZero(job.data[k..k'])
    ensures OnTrack(d', ino, job, k', g.(leaves := q + 1))
  {
    hide Shows, Shaped, LeafWritten, NoZero;
    Slices(job.text, job.data, k, k');
    SettledStep(d, d', ino, job.text + job.data[..k], g, q, o, job.data[k..k']);
    LeavesOf(q, o);
    NeedsLeaf(job, q);
  }

  lemma NeedsLeaf(job: Job, q: nat)
    requires q * BLOCK_SIZE < EndSize(job)
    ensures q + 1 <= Target(job).leaves
  {
  }

  /** An index block for the leaf where the text ends is taken. */
  lemma TrackIndex(d: Disk, ino: nat, job: Job, k: nat, g: Frontier, s: Slot, b: nat)
    requires Owned(d) && CanAttach(d, ino, s, b) && IsIndex(s)
    requires OnTrack(d, ino, job, k, g) && k < job.n && NeedsIndex(job, g, k, s)
    ensures HasParent(Taken(d, b), ino, s)
    ensures OnTrack(Attached(d, ino, s, b), ino, job, k, WithIndex(g, s))
  {
    hide Shows, Shaped, Owned, CanAttach, PtrAt, Attached, Taken, HasParent;
    IndexStep(d, ino, s, b, job.text + job.data[..k], g);
    NeedsIndexBlock(job, g, k, s);
  }

  /** The text ends where slot s is the next index block to be there. */
  predicate NeedsIndex(job: Job, g: Frontier, k: nat, s: Slot) {
    && k < job.n
    && match s
       case SingleIx => |job.text| + k >= 2048
       case DoubleIx => |job.text| + k >= 18432
       case RowIx(r) => r == g.rows && |job.text| + k >= 18432 + 16384 * r
       case _ => false
  }

  lemma NeedsIndexBlock(job: Job, g: Frontier, k: nat, s: Slot)
    requires NeedsIndex(job, g, k, s) && IsIndex(s) && Within(job.f, g) && Within(g, Target(job))
    ensures Within(WithIndex(g, s), Target(job)) && Within(job.f, WithIndex(g, s))
  {
  }

  /** With a block missing the job cannot be paid for. */
  lemma Unpayable(d: Disk, ino: nat, job: Job, k: nat, g: Frontier)
    requires OnTrack(d, ino, job, k, g) && g != Target(job) && d.freeBlocks == 0
    ensures job.total - Blocks(job.f) < Missing(job.f, EndSize(job))
  {
    WithinBlocks(g, Target(job));
  }

  lemma LeafMissing(d: Disk, ino: nat, job: Job, k: nat, g: Frontier, q: nat)
    requires OnTrack(d, ino, job, k, g) && k < job.n && q < LEAVES
    requires |job.text| + k >= q * BLOCK_SIZE && PtrAt(d, ino, LeafSlot(q)) == None
    ensures g != Target(job)
  {
    NeedsLeaf(job, q);
  }

  lemma IndexMissing(d: Disk, ino: nat, job: Job, k: nat, g: Frontier, s: Slot)
    requires OnTrack(d, ino, job, k, g) && IsIndex(s) && ValidSlot(s) && NeedsIndex(job, g, k, s)
             && PtrAt(d, ino, s) == None
    ensures g != Target(job)
  {
    hide PtrAt, LeafSlot;
    NeedsIndexBlock(job, g, k, s);
  }

  /** A tree with leaves has the index blocks above them. */
  lemma ClosedUp(d: Disk, ino: nat, g: Frontier)
    requires Shaped(d, ino, g)
    ensures g.leaves > DIRECT ==> g.single
    ensures g.leaves > FIRST_ROW ==> g.double
    ensures forall k :: 0 <= k < PTRS && g.leaves > FIRST_ROW + PTRS * k ==> g.rows > k
  {
    if g.leaves > DIRECT {
      assert PtrAt(d, ino, LeafSlot(DIRECT)).Some?;
      assert LeafSlot(DIRECT) == Single(0);
    }
    if g.leaves > FIRST_ROW {
      assert PtrAt(d, ino, LeafSlot(FIRST_ROW)).Some?;
      assert LeafSlot(FIRST_ROW) == Row(0, 0);
    }
    forall k | 0 <= k < PTRS && g.leaves > FIRST_ROW + PTRS * k ensures g.rows > k {
      RowLeaf(k, 0);
      assert PtrAt(d, ino, LeafSlot(FIRST_ROW + PTRS * k)).Some?;
      assert PtrAt(d, ino, RowIx(k)).Some?;
    }
  }

  /** A finished job has its target tree, and was paid for. */
  lemma JobFinished(d: Disk, ino: nat, job: Job, g: Frontier)
    requires OnTrack(d, ino, job, job.n, g)
    ensures g == Target(job) && job.total - Blocks(job.f) >= Missing(job.f, EndSize(job))
  {
    hide PtrAt, LeafSlot, Shows;
    ClosedUp(d, ino, g);
    var x := EndSize(job);
    if x > 18432 {
      var r := (x - 18432 + 16383) / 16384;
      RowsOf(x);
      assert g.rows > r - 1;
    }
  }

  lemma RowsOf(x: nat)
    requires 18432 < x <= MAX_FILE_SIZE
    ensures var r := (x - 18432 + 16383) / 16384; 0 < r <= PTRS && Leaves(x) > FIRST_ROW + PTRS * (r - 1)
  {
  }
}
