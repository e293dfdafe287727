/** thread.c: the thread pool, its stacks on the heap, and the scheduler that switches between them. */
module Threads {
  import opened Tiling
  import opened Heap
  import opened HeapRuns
  import opened RoundRobin
  import Queue
  import Options

  const STACK_SIZE: nat := 4096
  const TCB_SIZE: nat := 16
  const FIFO_SIZE: nat := 32

  datatype TCB = TCB(tid: nat, state: TState, stack: nat, esp: nat)

  /** Live threads own pairwise distinct live heap blocks; what else is live was live from the start. */
  ghost predicate StackTable(pool: seq<TCB>, stacks: map<nat, Block>, base: set<Block>, live: set<Block>) {
    && (forall i :: i in stacks <==> 0 < i < |pool| && pool[i].state != Empty)
    && (forall i :: i in stacks ==> pool[i].stack == stacks[i].Payload() && stacks[i].size >= STACK_SIZE + DSIZE)
    && (forall i, j :: i in stacks && j in stacks && i != j ==> stacks[i] != stacks[j])
    && (forall i :: i in stacks ==> stacks[i] !in base && stacks[i] in live)
    && (forall b :: b in live ==> b in base || exists i :: i in stacks && stacks[i] == b)
    && base <= live
  }

  /** A thread that never ran still has its entry point and, above it, finish on its stack. */
  ghost predicate Entry(pool: seq<TCB>, m: seq<Word>, t: nat, f: Word, finish: Word)
    requires t < |pool|
  {
    && pool[t].esp == pool[t].stack + STACK_SIZE - 2 * WSIZE
    && At(m, pool[t].esp) == f
    && At(m, pool[t].esp + WSIZE) == finish
  }

  lemma EntryIs(pool: seq<TCB>, m: seq<Word>, t: nat, f: Word, finish: Word)
    requires t < |pool| && pool[t].esp == pool[t].stack + STACK_SIZE - 2 * WSIZE
    requires At(m, pool[t].esp) == f && At(m, pool[t].esp + WSIZE) == finish
    ensures Entry(pool, m, t, f, finish)
  {
  }

  ghost predicate Entries(pool: seq<TCB>, m: seq<Word>, entries: map<nat, Word>, finish: Word) {
    forall t :: 0 < t < |pool| && pool[t].state == New ==> t in entries && Entry(pool, m, t, entries[t], finish)
  }

  ghost function States(pool: seq<TCB>): seq<TState> {
    seq(|pool|, i requires 0 <= i < |pool| => pool[i].state)
  }

  /** The three allocations of init_thread and init_queue: the pool, the queue and its cells. */
  method AllocateTables(heap: Arena, size: nat)
    requires heap.Valid() && heap.blocks == Fresh(heap.Limit())
    requires 0 < size && TCB_SIZE * size <= MAX_REQUEST && 4 * (size + 1) <= MAX_REQUEST
    requires heap.Limit() > BlockSizeFor(TCB_SIZE * size) + BlockSizeFor(FIFO_SIZE) + BlockSizeFor(4 * (size + 1))
             + 2 * DSIZE
    modifies heap`blocks, heap.mem
    ensures heap.Valid() && |Live(heap.blocks)| == 3
  {
    hide Tiles, Encodes, At, Coalesced, Live, MallocStep, BlockSizeFor, OneHole;
    var limit := heap.Limit();
    assert OneHole(heap.blocks, limit - DSIZE) && Live(heap.blocks) == {} by { FreshHole(limit); }
    var poolAddr := GrabBlock(heap, TCB_SIZE * size, limit - DSIZE);
    var room := limit - DSIZE - BlockSizeFor(TCB_SIZE * size);
    var fifoAddr := GrabBlock(heap, FIFO_SIZE, room);
    var cellsAddr := GrabBlock(heap, 4 * (size + 1), room - BlockSizeFor(FIFO_SIZE));
  }

  lemma FreshHole(limit: nat)
    requires limit >= DSIZE
    ensures OneHole(Fresh(limit), limit - DSIZE) && Live(Fresh(limit)) == {}
  {
  }

  /** A malloc before anything was freed succeeds and takes one more block. */
  method GrabBlock(heap: Arena, n: Word, ghost room: nat) returns (r: nat)
    requires heap.Valid() && 0 < n <= MAX_REQUEST
    requires OneHole(heap.blocks, room) && room > BlockSizeFor(n) + DSIZE
    modifies heap`blocks, heap.mem
    ensures heap.Valid() && r != NULL
    ensures OneHole(heap.blocks, room - BlockSizeFor(n))
    ensures |Live(heap.blocks)| == |old(Live(heap.blocks))| + 1
  {
    hide Tiles, Encodes, At, OneHole, Live, BlockSizeFor;
    ghost var bs := heap.blocks;
    r := heap.Malloc(n);
    OneHoleMalloc(bs, n, heap.blocks, r, heap.Limit(), room);
  }

  // ---------------------------------------------------------------- how the tables change

  lemma StatesUpdate(pool: seq<TCB>, t: nat, c: TCB)
    requires t < |pool|
    ensures States(pool[t := c]) == States(pool)[t := c.state]
  {
  }

  lemma StatesAt(pool: seq<TCB>, t: nat)
    requires t < |pool|
    ensures |States(pool)| == |pool| && States(pool)[t] == pool[t].state
  {
  }

  lemma CreateTable(pool: seq<TCB>, stacks: map<nat, Block>, base: set<Block>, live: set<Block>, t: nat, c: TCB,
          g: Block)
    requires StackTable(pool, stacks, base, live)
    requires 0 < t < |pool| && pool[t].state == Empty && c.state == New
    requires g !in live && c.stack == g.Payload() && g.size >= STACK_SIZE + DSIZE
    ensures StackTable(pool[t := c], stacks[t := g], base, live + {g})
  {
    var stacks' := stacks[t := g];
    forall b | b in live + {g} && b !in base ensures exists i :: i in stacks' && stacks'[i] == b {
      if b == g {
        assert t in stacks' && stacks'[t] == b;
      } else {
        var i :| i in stacks && stacks[i] == b;
        assert i in stacks' && stacks'[i] == b;
      }
    }
  }

  /** A state change that does not touch Empty. */
  lemma RestateTable(pool: seq<TCB>, stacks: map<nat, Block>, base: set<Block>, live: set<Block>, t: nat, st: TState)
    requires StackTable(pool, stacks, base, live)
    requires 0 < t < |pool| && pool[t].state != Empty && st != Empty
    ensures StackTable(pool[t := pool[t].(state := st)], stacks, base, live)
  {
  }

  lemma FinishTable(pool: seq<TCB>, stacks: map<nat, Block>, base: set<Block>, live: set<Block>, t: nat)
    requires StackTable(pool, stacks, base, live)
    requires 0 < t < |pool| && pool[t].state != Empty
    ensures t in stacks && stacks[t] in live
    ensures StackTable(pool[t := pool[t].(state := Empty)], stacks - {t}, base, live - {stacks[t]})
  {
    var stacks' := stacks - {t};
    forall b | b in live - {stacks[t]} && b !in base ensures exists i :: i in stacks' && stacks'[i] == b {
      var i :| i in stacks && stacks[i] == b;
      assert i in stacks' && stacks'[i] == b;
    }
  }

  lemma NoStacks(pool: seq<TCB>, stacks: map<nat, Block>, base: set<Block>, live: set<Block>)
    requires StackTable(pool, stacks, base, live)
    requires forall t :: 0 < t < |pool| ==> pool[t].state == Empty
    ensures live == base
  {
    assert forall i :: i !in stacks;
  }

  lemma FreshTables(pool: seq<TCB>, base: set<Block>, m: seq<Word>, finish: Word)
    requires |pool| > 0 && forall t :: 0 <= t < |pool| ==> pool[t].state == Empty
    ensures StackTable(pool, map[], base, base) && Entries(pool, m, map[], finish)
    ensures Inv(Sched(States(pool), [], 0)) && AllEmpty(Sched(States(pool), [], 0))
  {
  }

  /** Entries survive whatever keeps the payloads of the threads' stacks. */
  lemma EntriesKept(pool: seq<TCB>, m: seq<Word>, m': seq<Word>, entries: map<nat, Word>, finish: Word,
                    stacks: map<nat, Block>, base: set<Block>, live: set<Block>, kept: set<Block>)
    requires StackTable(pool, stacks, base, live) && Entries(pool, m, entries, finish)
    requires forall t :: 0 < t < |pool| && pool[t].state == New ==> stacks[t] in kept && stacks[t].addr % 8 == 0
    requires forall b :: b in kept ==> SamePayload(m, m', b)
    ensures Entries(pool, m', entries, finish)
  {
    hide SamePayload, Entry;
    forall t | 0 < t < |pool| && pool[t].state == New ensures t in entries && Entry(pool, m', t, entries[t], finish) {
      EntryKept(pool, m, m', t, entries[t], finish, stacks[t]);
    }
  }

  lemma EntryKept(pool: seq<TCB>, m: seq<Word>, m': seq<Word>, t: nat, f: Word, finish: Word, b: Block)
    requires t < |pool| && Entry(pool, m, t, f, finish)
    requires pool[t].stack == b.Payload() && b.size >= STACK_SIZE + DSIZE && b.addr % 8 == 0
    requires SamePayload(m, m', b)
    ensures Entry(pool, m', t, f, finish)
  {
    hide At, SamePayload;
    EspAligned(b.addr);
    PayloadWord(m, m', b, pool[t].esp);
    PayloadWord(m, m', b, pool[t].esp + WSIZE);
  }

  lemma FourTimes(x: nat, k: nat)
    requires x == 4 * k
    ensures x % 4 == 0
  {
  }

  lemma EspAligned(a: nat)
    requires a % 8 == 0
    ensures (a + DSIZE + STACK_SIZE - 2 * WSIZE) % 4 == 0 && (a + DSIZE + STACK_SIZE - WSIZE) % 4 == 0
  {
    var k := a / 8;
    FourTimes(a + DSIZE + STACK_SIZE - 2 * WSIZE, 2 * k + 1024);
    FourTimes(a + DSIZE + STACK_SIZE - WSIZE, 2 * k + 1025);
  }

  lemma PayloadWord(m: seq<Word>, m': seq<Word>, b: Block, p: nat)
    requires SamePayload(m, m', b) && b.Payload() <= p < b.End() && p % 4 == 0
    ensures At(m', p) == At(m, p)
  {
    hide At;
  }

  lemma EntriesAdd(pool: seq<TCB>, m: seq<Word>, entries: map<nat, Word>, finish: Word, t: nat, c: TCB, f: Word)
    requires Entries(pool, m, entries, finish) && 0 < t < |pool|
    requires Entry(pool[t := c], m, t, f, finish)
    ensures Entries(pool[t := c], m, entries[t := f], finish)
  {
    hide At;
    var pool', entries' := pool[t := c], entries[t := f];
    forall u | 0 < u < |pool'| && pool'[u].state == New
           ensures u in entries' && Entry(pool', m, u, entries'[u], finish) {
      if u != t { assert Entry(pool, m, u, entries[u], finish); }
    }
  }

  /** Whatever happens to the states except becoming new keeps the entries. */
  lemma EntriesRestate(pool: seq<TCB>, m: seq<Word>, entries: map<nat, Word>, finish: Word, t: nat, st: TState)
    requires Entries(pool, m, entries, finish) && t < |pool| && st != New
    ensures Entries(pool[t := pool[t].(state := st)], m, entries, finish)
  {
    hide At;
    var pool' := pool[t := pool[t].(state := st)];
    forall u | 0 < u < |pool'| && pool'[u].state == New ensures u in entries && Entry(pool', m, u, entries[u], finish) {
      assert Entry(pool, m, u, entries[u], finish);
    }
  }

  // ---------------------------------------------------------------- stacks on the heap

  /** malloc(STACK_SIZE): a block g that nobody holds yet, or NULL. */
  method GrabStack(heap: Arena) returns (stack: nat, ghost g: Block)
    requires heap.Valid()
    modifies heap`blocks, heap.mem
    ensures heap.Valid()
    ensures stack == NULL <==> FirstFit(old(heap.blocks), BlockSizeFor(STACK_SIZE)) == |old(heap.blocks)|
    ensures stack == NULL ==> heap.blocks == old(heap.blocks) && heap.mem[..] == old(heap.mem[..])
    ensures stack != NULL ==>
            && Live(heap.blocks) == old(Live(heap.blocks)) + {g} && g !in old(Live(heap.blocks))
            && stack == g.Payload() && g.size >= STACK_SIZE + DSIZE && g.addr % 8 == 0
    ensures forall b :: b in old(Live(heap.blocks)) ==> SamePayload(old(heap.mem[..]), heap.mem[..], b)
  {
    hide Tiles, Encodes, At, SamePayload, Coalesced;
    ghost var bs := heap.blocks;
    stack := heap.Malloc(STACK_SIZE);
    g := Block(0, 0, true);
    if stack != NULL {
      g := MallocDelivers(bs, STACK_SIZE, heap.blocks, stack, heap.Limit());
      MallocLiveIs(bs, STACK_SIZE, heap.blocks, stack, heap.Limit(), g);
      LiveAligned(heap.blocks, heap.Limit(), g);
    } else {
      NullOnlyIfFull(bs, STACK_SIZE, heap.blocks, heap.Limit());
    }
  }

  lemma MallocLiveIs(bs: seq<Block>, n: Word, bs': seq<Block>, r: nat, limit: nat, g: Block)
    requires WellFormed(bs, limit) && 0 < n <= MAX_REQUEST && MallocStep(bs, n, bs', r, limit)
    requires r != NULL && g in Live(bs') && g !in Live(bs)
    ensures Live(bs') == Live(bs) + {g} && FirstFit(bs, BlockSizeFor(n)) < |bs|
  {
    hide Tiles, Live, Coalesced;
  }

  lemma NullOnlyIfFull(bs: seq<Block>, n: Word, bs': seq<Block>, limit: nat)
    requires 0 < n <= MAX_REQUEST && MallocStep(bs, n, bs', NULL, limit)
    ensures FirstFit(bs, BlockSizeFor(n)) == |bs| && bs' == bs
  {
    hide Tiles, Live, Coalesced;
  }

  lemma FreedLive(bs: seq<Block>, b: Block, bs': seq<Block>, limit: nat)
    requires FreeStep(bs, b, bs', limit)
    ensures Live(bs') == Live(bs) - {b}
  {
  }

  lemma ArenaTiles(heap: Arena)
    requires heap.Valid()
    ensures WellFormed(heap.blocks, heap.Limit())
  {
  }

  /** The two words thread_create pushes: finish, and below it the thread's function. */
  method PushFrame(heap: Arena, stack: nat, f: Word, finish: Word, ghost g: Block) returns (esp: nat)
    requires heap.Valid() && g in Live(heap.blocks)
    requires stack == g.Payload() && g.size >= STACK_SIZE + DSIZE && g.addr % 8 == 0
    modifies heap.mem
    ensures heap.Valid()
    ensures esp == stack + STACK_SIZE - 2 * WSIZE
    ensures At(heap.mem[..], esp) == f && At(heap.mem[..], esp + WSIZE) == finish
    ensures forall b :: b in Live(heap.blocks) && b != g ==> SamePayload(old(heap.mem[..]), heap.mem[..], b)
  {
    hide Tiles, Encodes, At, SamePayload, Coalesced, Live;
    ghost var m := heap.mem[..];
    EspAligned(g.addr);
    esp := stack + STACK_SIZE - WSIZE;
    heap.Store(esp, finish, g);
    ghost var m1 := heap.mem[..];
    esp := esp - WSIZE;
    heap.Store(esp, f, g);
    forall b | b in Live(heap.blocks) && b != g ensures SamePayload(m, heap.mem[..], b) {
      StoreKeepsOthers(m, m1, heap.blocks, heap.Limit(), g, b, esp + WSIZE);
      StoreKeepsOthers(m1, heap.mem[..], heap.blocks, heap.Limit(), g, b, esp);
      SamePayloadTwice(m, m1, heap.mem[..], b);
    }
  }

  class Scheduler {
    const pool: array<TCB>
    const queue: Queue.Fifo
    const heap: Arena
    const finish: Word               // the address of finish, pushed below every entry point
    var current: nat
    var espOf: nat                   // ptr_current_esp: whose esp field the context switch uses
    ghost const base: set<Block>     // the heap blocks of the pool and the queue
    ghost const initial: seq<Block>  // the heap's block list right after init_thread
    ghost var stacks: map<nat, Block>
    ghost var entries: map<nat, Word>

    ghost predicate Separate()
      reads this
    {
      && heap as object != this && queue as object != this && heap as object != queue
      && pool as object != heap.mem && pool as object != queue.elements && heap.mem as object != queue.elements
    }

    ghost function View(): Sched
      reads this, pool, queue, queue.elements
      requires queue.Valid()
    {
      Sched(States(pool[..]), queue.Contents(), current)
    }

    /** The invariant, for a heap of which the scheduler accounts for the blocks in live. */
    ghost predicate ValidFor(live: set<Block>)
      reads this, pool, queue, queue.elements, heap, heap.mem
    {
      && Separate()
      && queue.Valid() && queue.elements.Length == pool.Length + 1
      && heap.Valid()
      && Inv(View())
      && espOf == current
      && (forall i :: 0 < i < pool.Length ==> pool[i].tid == i)
      && StackTable(pool[..], stacks, base, live)
      && Entries(pool[..], heap.mem[..], entries, finish)
      && WellFormed(initial, heap.Limit()) && Live(initial) == base
    }

    ghost predicate Valid()
      reads this, pool, queue, queue.elements, heap, heap.mem
    {
      ValidFor(Live(heap.blocks))
    }

    /** init_thread: three blocks from a fresh heap, whose success the source takes for granted. */
    constructor (size: nat, heap: Arena, finish: Word)
      requires heap.Valid() && heap.blocks == Fresh(heap.Limit())
      requires 0 < size && TCB_SIZE * size <= MAX_REQUEST && 4 * (size + 1) <= MAX_REQUEST
      requires heap.Limit() > BlockSizeFor(TCB_SIZE * size) + BlockSizeFor(FIFO_SIZE) + BlockSizeFor(4 * (size + 1))
               + 2 * DSIZE
      modifies heap`blocks, heap.mem
      ensures Valid() && fresh(pool) && fresh(queue) && fresh(queue.elements)
      ensures this.heap == heap && this.finish == finish && pool.Length == size
      ensures AllEmpty(View()) && queue.Contents() == [] && current == 0
      ensures initial == heap.blocks && |base| == 3
    {
      hide Arena.Valid, WellFormed, Live, Fresh, StackTable, Entries, Inv, AllEmpty, States, Queue.Ring;
      AllocateTables(heap, size);
      ArenaTiles(heap);
      this.heap := heap;
      this.finish := finish;
      pool := new TCB[size](i requires i >= 0 => TCB(i, Empty, 0, 0));
      queue := new Queue.Fifo(size);
      current, espOf := 0, 0;
      base := Live(heap.blocks);
      initial := heap.blocks;
      stacks, entries := map[], map[];
      new;
      FreshTables(pool[..], base, heap.mem[..], finish);
    }

    /** The lowest empty slot, or pool_size. */
    method FindEmpty() returns (i: nat)
      requires 0 < pool.Length
      ensures 0 < i <= pool.Length
      ensures i < pool.Length ==> pool[i].state == Empty
      ensures forall t :: 0 < t < i ==> pool[t].state != Empty
    {
      i := 1;
      while i < pool.Length
        invariant 0 < i <= pool.Length
        invariant forall t :: 0 < t < i ==> pool[t].state != Empty
      {
        if pool[i].state == Empty {
          break;
        }
        i := i + 1;
      }
    }

    lemma NonEmptyPool()
      requires queue.Valid() && Inv(View())
      ensures 0 < pool.Length
    {
    }

    /** Heap operations that keep the payloads of the live blocks keep the threads' entries. */
    lemma AfterGrab(m: seq<Word>, live: set<Block>, bs: seq<Block>)
      requires Tiles(bs, heap.Limit()) && live == Live(bs)
      requires StackTable(pool[..], stacks, base, live) && Entries(pool[..], m, entries, finish)
      requires forall b :: b in live ==> SamePayload(m, heap.mem[..], b)
      ensures Entries(pool[..], heap.mem[..], entries, finish)
    {
      hide Tiles, SamePayload, At, Live;
      forall t | t in stacks ensures stacks[t].addr % 8 == 0 { LiveAligned(bs, heap.Limit(), stacks[t]); }
      EntriesKept(pool[..], m, heap.mem[..], entries, finish, stacks, base, live, live);
    }

    /** thread_create once it has a slot and a stack. */
    method Install(i: nat, stack: nat, f: Word, ghost live: set<Block>, ghost g: Block)
      requires ValidFor(live)
      requires 0 < i < pool.Length && pool[i].state == Empty
      requires Live(heap.blocks) == live + {g} && g !in live
      requires stack == g.Payload() && g.size >= STACK_SIZE + DSIZE && g.addr % 8 == 0
      modifies this`stacks, this`entries, pool, queue`tail, queue.elements, heap.mem
      ensures Valid()
      ensures View() == Created(old(View()), i) && i in entries && entries[i] == f
      ensures pool[i].state == New && pool[..] == old(pool[..])[i := pool[i]]
      ensures Entry(pool[..], heap.mem[..], i, f, finish)
    {
      hide Inv, StackTable, Entries, Entry, WellFormed, Arena.Valid, States, Live, SamePayload, At, Queue.Ring;
      ghost var s, m, cells := View(), heap.mem[..], pool[..];
      assert Inv(s);
      RoomForOne();
      pool[i] := pool[i].(state := New, stack := stack);
      var esp := PushFrame(heap, stack, f, finish, g);
      pool[i] := pool[i].(esp := esp);
      var ok := queue.Add(i);
      stacks := stacks[i := g];
      entries := entries[i := f];
      ghost var c := TCB(i, New, stack, esp);
      assert pool[..] == cells[i := c];
      StatesUpdate(cells, i, c);
      StatesAt(cells, i);
      CreatedInv(s, i);
      CreateTable(cells, old(stacks), base, live, i, c, g);
      assert Entry(pool[..], heap.mem[..], i, f, finish) by { EntryIs(pool[..], heap.mem[..], i, f, finish); }
      assert Entries(pool[..], heap.mem[..], entries, finish) by {
        InstallEntries(cells, m, old(stacks), old(entries), live, i, c, f, g);
      }
    }

    lemma RoomForOne()
      requires queue.Valid() && Inv(View()) && queue.elements.Length == pool.Length + 1
      ensures |queue.Contents()| < queue.elements.Length - 1
      ensures |View().state| == pool.Length
    {
      QueueHasRoom(View());
    }

    lemma InstallEntries(cells: seq<TCB>, m: seq<Word>, stacks0: map<nat, Block>, entries0: map<nat, Word>,
                         live: set<Block>, i: nat, c: TCB, f: Word, g: Block)
      requires heap.Valid() && Live(heap.blocks) == live + {g} && g !in live
      requires StackTable(cells, stacks0, base, live) && Entries(cells, m, entries0, finish)
      requires 0 < i < |cells| && c.esp == c.stack + STACK_SIZE - 2 * WSIZE
      requires At(heap.mem[..], c.esp) == f && At(heap.mem[..], c.esp + WSIZE) == finish
      requires forall b :: b in live ==> SamePayload(m, heap.mem[..], b)
      ensures Entries(cells[i := c], heap.mem[..], entries0[i := f], finish)
    {
      hide Tiles, Encodes, SamePayload, At, Live;
      forall t | t in stacks0 ensures stacks0[t].addr % 8 == 0 { LiveAligned(heap.blocks, heap.Limit(), stacks0[t]); }
      EntriesKept(cells, m, heap.mem[..], entries0, finish, stacks0, base, live, live);
      EntriesAdd(cells, heap.mem[..], entries0, finish, i, c, f);
    }

    /** thread_create: an empty slot and a stack, or 0 with nothing changed. */
    method ThreadCreate(f: Word) returns (tid: nat)
      requires Valid()
      modifies this`stacks, this`entries, pool, queue`tail, queue.elements, heap`blocks, heap.mem
      ensures Valid()
      ensures tid == 0 <==> (forall t :: 0 < t < pool.Length ==> old(pool[t].state) != Empty)
                            || FirstFit(old(heap.blocks), BlockSizeFor(STACK_SIZE)) == |old(heap.blocks)|
      ensures tid == 0 ==>
              && View() == old(View()) && pool[..] == old(pool[..]) && stacks == old(stacks)
              && heap.blocks == old(heap.blocks) && heap.mem[..] == old(heap.mem[..])
      ensures tid != 0 ==> tid < pool.Length && old(pool[tid].state) == Empty
      ensures tid != 0 ==> forall t :: 0 < t < tid ==> old(pool[t].state) != Empty
      ensures tid != 0 ==> View() == Created(old(View()), tid) && tid in entries && entries[tid] == f
      ensures tid != 0 ==>
              && pool[tid].state == New && pool[..] == old(pool[..])[tid := pool[tid]]
              && Entry(pool[..], heap.mem[..], tid, f, finish)
    {
      hide Inv, StackTable, Entries, Entry, WellFormed, Arena.Valid, States, Live, SamePayload;
      ghost var bs, live, m := heap.blocks, Live(heap.blocks), heap.mem[..];
      assert Tiles(bs, heap.Limit()) by { ArenaTiles(heap); }
      assert 0 < pool.Length by { NonEmptyPool(); }
      var i := FindEmpty();
      if i == pool.Length {
        return 0;
      }
      ghost var g;
      var stack;
      stack, g := GrabStack(heap);
      AfterGrab(m, live, bs);
      if stack == NULL {
        return 0;
      }
      Install(i, stack, f, live, g);
      tid := i;
    }

    /** The running thread's slot, and the queue, never name slot 0 or go out of range. */
    lemma ViewFacts()
      requires queue.Valid() && Inv(View())
      ensures current < pool.Length
      ensures forall i :: 0 <= i < |queue.Contents()| ==> 0 < queue.Contents()[i] < pool.Length
      ensures current != 0 ==> pool[current].state == Running
    {
      if current != 0 { assert View().state[current] == Running; }
    }

    /** schedule's first branch. */
    method Requeue()
      requires Valid()
      modifies pool, queue`tail, queue.elements
      ensures ValidBetween() && View() == Requeued(old(View()))
      ensures |queue.Contents()| > 0 || AllEmpty(View())
      ensures forall t :: 0 <= t < pool.Length ==> (pool[t].state == New <==> old(pool[..])[t].state == New)
    {
      hide Inv, StackTable, Entries, Entry, WellFormed, Arena.Valid, States, Live, At, Queue.Ring, Paused, AllEmpty;
      ghost var s, cells := View(), pool[..];
      ViewFacts();
      if current != 0 { RoomToRequeue(); }
      StatesAt(cells, current);
      RequeuedPaused(s);
      if current != 0 {
        pool[current] := pool[current].(state := Ready);
        var ok := queue.Add(current);
        assert pool[..] == cells[current := cells[current].(state := Ready)];
        StatesUpdate(cells, current, cells[current].(state := Ready));
        RestateTable(cells, stacks, base, Live(heap.blocks), current, Ready);
        EntriesRestate(cells, heap.mem[..], entries, finish, current, Ready);
      }
      EmptyQueue();
    }

    lemma RoomToRequeue()
      requires queue.Valid() && Inv(View()) && current != 0
      ensures |queue.Contents()| < pool.Length - 1
    {
      QueueHasRoom(View());
    }

    lemma EmptyQueue()
      requires queue.Valid() && Paused(View())
      ensures |queue.Contents()| > 0 || AllEmpty(View())
    {
      if |queue.Contents()| == 0 {
        forall t | 0 < t < |View().state| ensures View().state[t] == Empty { assert !Waiting(View().state[t]); }
      }
    }

    /** Valid, except that no slot runs. */
    ghost predicate ValidBetween()
      reads this, pool, queue, queue.elements, heap, heap.mem
    {
      && Separate()
      && queue.Valid() && queue.elements.Length == pool.Length + 1 && 0 < pool.Length
      && heap.Valid()
      && Paused(View())
      && (forall i :: 0 < i < pool.Length ==> pool[i].tid == i)
      && StackTable(pool[..], stacks, base, Live(heap.blocks))
      && Entries(pool[..], heap.mem[..], entries, finish)
      && WellFormed(initial, heap.Limit()) && Live(initial) == base
    }

    /** schedule's second half: take the head of the queue and switch to it, or go back to main. The result tells
        whether the switch starts a new thread or resumes a suspended one. */
    method Dispatch() returns (starts: bool)
      requires ValidBetween()
      modifies this`current, this`espOf, pool, queue`head
      ensures Valid() && View() == Dispatched(old(View()))
      ensures starts <==> current != 0 && old(pool[..])[current].state == New
    {
      hide Inv, StackTable, Entries, Entry, WellFormed, Arena.Valid, States, Live, At, Queue.Ring, Paused, AllEmpty;
      ghost var s, cells := View(), pool[..];
      HeadInRange();
      DispatchedInv(s);
      var thread := queue.Poll();
      if thread == Options.None {
        current, espOf := 0, 0;
        return false;
      }
      var t := thread.value;
      StatesAt(cells, t);
      starts := pool[t].state == New;
      pool[t] := pool[t].(state := Running);
      current := pool[t].tid;
      espOf := t;
      assert pool[..] == cells[t := cells[t].(state := Running)];
      StatesUpdate(cells, t, cells[t].(state := Running));
      RestateTable(cells, stacks, base, Live(heap.blocks), t, Running);
      EntriesRestate(cells, heap.mem[..], entries, finish, t, Running);
    }

    lemma HeadInRange()
      requires queue.Valid() && Paused(View())
      ensures |View().state| == pool.Length
      ensures queue.Contents() != [] ==>
              0 < queue.Contents()[0] < pool.Length
              && pool[queue.Contents()[0]].state != Empty
    {
      if queue.Contents() != [] { assert Waiting(View().state[View().queue[0]]); }
    }

    /** schedule, reached from a yield or a timer interrupt. */
    method Schedule() returns (starts: bool)
      requires Valid()
      modifies this`current, this`espOf, pool, queue`head, queue`tail, queue.elements
      ensures Valid() && View() == Scheduled(old(View()))
      ensures current == 0 <==> AllEmpty(old(View()))
      ensures starts <==> current != 0 && old(pool[..])[current].state == New
    {
      hide Inv, StackTable, Entries, Entry, WellFormed, Arena.Valid, States, Live, At, Queue.Ring, Paused, AllEmpty;
      ghost var s := View();
      ghost var cells := pool[..];
      Requeue();
      ghost var cells' := pool[..];
      assert forall t :: 0 <= t < pool.Length ==> (cells'[t].state == New <==> cells[t].state == New);
      starts := Dispatch();
      ScheduledInv(s);
      ViewFacts();
    }

    /** finish: the running thread gives back its slot and its stack, then main schedules. */
    method Finish() returns (starts: bool)
      requires Valid() && current != 0
      modifies this`current, this`espOf, this`stacks, pool, queue`head, heap`blocks, heap.mem
      ensures Valid() && View() == Finished(old(View()))
      ensures stacks == old(stacks) - {old(current)}
      ensures old(current in stacks) && FreeStep(old(heap.blocks), old(stacks[current]), heap.blocks, heap.Limit())
      ensures starts <==> current != 0 && old(pool[..])[current].state == New
    {
      hide Inv, StackTable, Entries, Entry, WellFormed, Arena.Valid, States, Live, At, Queue.Ring, Paused, AllEmpty,
           SamePayload;
      ghost var s, cells := View(), pool[..];
      Release();
      ghost var cells' := pool[..];
      assert forall t :: 0 <= t < pool.Length ==> (cells'[t].state == New <==> cells[t].state == New);
      ReleasedPaused(s);
      starts := Dispatch();
      ViewFacts();
    }

    /** finish up to its call of trap. */
    method Release()
      requires Valid() && current != 0
      modifies this`current, this`espOf, this`stacks, pool, heap`blocks, heap.mem
      ensures ValidBetween()
      ensures View() == old(View()).(state := old(View().state)[old(current) := Empty], current := 0)
      ensures stacks == old(stacks) - {old(current)}
      ensures old(current in stacks) && FreeStep(old(heap.blocks), old(stacks[current]), heap.blocks, heap.Limit())
      ensures forall t :: 0 <= t < pool.Length ==> (pool[t].state == New <==> old(pool[..])[t].state == New)
    {
      hide Inv, StackTable, Entries, Entry, WellFormed, Arena.Valid, States, Live, At, Queue.Ring, Paused, AllEmpty,
           SamePayload, FreeStep;
      ghost var s, cells, m, live, t := View(), pool[..], heap.mem[..], Live(heap.blocks), current;
      ViewFacts();
      StatesAt(cells, t);
      ReleasedPaused(s);
      FinishTable(cells, stacks, base, live, t);
      assert pool[t].stack == stacks[t].Payload() && pool[t].stack != NULL by { StackOf(t); }
      pool[current] := pool[current].(state := Empty);
      assert pool[..] == cells[t := cells[t].(state := Empty)];
      StatesUpdate(cells, t, cells[t].(state := Empty));
      EntriesRestate(cells, m, entries, finish, t, Empty);
      ghost var bs := heap.blocks;
      heap.Free(pool[current].stack, stacks[current]);
      FreedLive(bs, stacks[t], heap.blocks, heap.Limit());
      stacks := stacks - {current};
      current := 0;
      AfterFree(m);
    }

    lemma StackOf(t: nat)
      requires StackTable(pool[..], stacks, base, Live(heap.blocks)) && t in stacks
      ensures t < pool.Length && pool[t].stack == stacks[t].Payload() && pool[t].stack != NULL
    {
    }

    lemma AfterFree(m: seq<Word>)
      requires heap.Valid()
      requires StackTable(pool[..], stacks, base, Live(heap.blocks)) && Entries(pool[..], m, entries, finish)
      requires forall b :: b in Live(heap.blocks) ==> SamePayload(m, heap.mem[..], b)
      ensures Entries(pool[..], heap.mem[..], entries, finish)
    {
      hide Tiles, Encodes, SamePayload, At, Live;
      forall t | t in stacks ensures stacks[t].addr % 8 == 0 { LiveAligned(heap.blocks, heap.Limit(), stacks[t]); }
      EntriesKept(pool[..], m, heap.mem[..], entries, finish, stacks, base, Live(heap.blocks), Live(heap.blocks));
    }

    /** The stacks of two live threads do not overlap, and neither overlaps the pool or the queue. */
    lemma StacksDisjoint(t: nat, u: nat)
      requires Valid()
      requires 0 < t < pool.Length && pool[t].state != Empty
      requires 0 < u < pool.Length && pool[u].state != Empty && t != u
      ensures pool[t].stack + STACK_SIZE <= pool[u].stack || pool[u].stack + STACK_SIZE <= pool[t].stack
      ensures forall b :: b in base ==> pool[t].stack + STACK_SIZE <= b.addr || b.End() <= pool[t].stack
    {
      hide Tiles, Encodes, At, Entries, States, Inv;
      LiveDisjoint(heap.blocks, heap.Limit(), stacks[t], stacks[u]);
      forall b | b in base ensures stacks[t].End() <= b.addr || b.End() <= stacks[t].addr {
        LiveDisjoint(heap.blocks, heap.Limit(), stacks[t], b);
      }
    }

    /** With no thread left the heap is what init_thread left behind, block for block. */
    lemma QuiescentHeap()
      requires Valid() && AllEmpty(View())
      ensures heap.blocks == initial
    {
      hide Tiles, Encodes, At, Entries, Live;
      forall t | 0 < t < pool.Length ensures pool[t].state == Empty { StatesAt(pool[..], t); }
      NoStacks(pool[..], stacks, base, Live(heap.blocks));
      Canonical(heap.blocks, initial, heap.Limit());
    }
  }
}
