/** The circular FIFO of queue.c. */
module Queue {
  import opened Options

  /** The cells from head up to tail, wrapping around the end. */
  ghost function Ring(cells: seq<nat>, head: nat, tail: nat): seq<nat>
    requires head < |cells| && tail < |cells|
  {
    if head <= tail then cells[head..tail] else cells[head..] + cells[..tail]
  }

  /** The index after i, as (i + 1) % size computes it. */
  function Next(i: nat, size: nat): (j: nat)
    requires i < size
    ensures j == if i + 1 == size then 0 else i + 1
  {
    (i + 1) % size
  }

  lemma RingLength(cells: seq<nat>, head: nat, tail: nat)
    requires head < |cells| && tail < |cells|
    ensures |Ring(cells, head, tail)| == if head <= tail then tail - head else |cells| - head + tail
  {
  }

  lemma RingAdd(cells: seq<nat>, head: nat, tail: nat, x: nat)
    requires head < |cells| && tail < |cells| && Next(tail, |cells|) != head
    ensures Ring(cells[tail := x], head, Next(tail, |cells|)) == Ring(cells, head, tail) + [x]
  {
    var cells' := cells[tail := x];
    if head <= tail && tail + 1 == |cells| {
      assert cells'[head..] == cells[head..tail] + [x];
    }
  }

  lemma RingPoll(cells: seq<nat>, head: nat, tail: nat)
    requires head < |cells| && tail < |cells| && head != tail
    ensures Ring(cells, head, tail) != [] && cells[head] == Ring(cells, head, tail)[0]
    ensures Ring(cells, Next(head, |cells|), tail) == Ring(cells, head, tail)[1..]
  {
  }

  class Fifo {
    const elements: array<nat>
    var head: nat
    var tail: nat

    ghost predicate Valid()
      reads this
    {
      head < elements.Length && tail < elements.Length
    }

    /** The queued elements, oldest first. */
    ghost function Contents(): seq<nat>
      reads this, elements
      requires Valid()
    {
      Ring(elements[..], head, tail)
    }

    /** One cell more than the capacity, so that a full queue differs from an empty one. */
    constructor (capacity: nat)
      ensures Valid() && fresh(elements)
      ensures elements.Length == capacity + 1 && Contents() == []
    {
      elements := new nat[capacity + 1](_ => 0);
      head, tail := 0, 0;
    }

    method IsFull() returns (full: bool)
      requires Valid()
      ensures full <==> |Contents()| == elements.Length - 1
    {
      full := Next(tail, elements.Length) == head;
      RingLength(elements[..], head, tail);
    }

    method IsEmpty() returns (empty: bool)
      requires Valid()
      ensures empty <==> Contents() == []
    {
      empty := head == tail;
      RingLength(elements[..], head, tail);
    }

    method Add(x: nat) returns (ok: bool)
      requires Valid()
      modifies this`tail, elements
      ensures Valid()
      ensures ok <==> old(|Contents()|) < elements.Length - 1
      ensures Contents() == if ok then old(Contents()) + [x] else old(Contents())
    {
      hide Ring;
      var full := IsFull();
      if full {
        return false;
      }
      ghost var cells := elements[..];
      RingLength(cells, head, tail);
      RingAdd(cells, head, tail, x);
      elements[tail] := x;
      assert elements[..] == cells[tail := x];
      tail := Next(tail, elements.Length);
      ok := true;
    }

    method Poll() returns (x: Option<nat>)
      requires Valid()
      modifies this`head
      ensures Valid()
      ensures old(Contents()) == [] ==> x == None && Contents() == []
      ensures old(Contents()) != [] ==> x == Some(old(Contents())[0]) && Contents() == old(Contents())[1..]
    {
      hide Ring;
      var empty := IsEmpty();
      if empty {
        return None;
      }
      RingLength(elements[..], head, tail);
      RingPoll(elements[..], head, tail);
      x := Some(elements[head]);
      head := Next(head, elements.Length);
    }
  }
}
