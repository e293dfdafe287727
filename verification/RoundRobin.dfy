/** The scheduler as a state machine over the thread pool's states, the ready queue and the running slot. */
module RoundRobin {

  datatype TState = Empty | New | Ready | Running

  /** Slot 0 is the main thread: it is never queued and its state field is never used. */
  datatype Sched = Sched(state: seq<TState>, queue: seq<nat>, current: nat)

  predicate Waiting(t: TState) { t.New? || t.Ready? }

  ghost predicate NoDup(q: seq<nat>) {
    forall a, b :: 0 <= a < b < |q| ==> q[a] != q[b]
  }

  /** The queue holds exactly the new and ready slots, once each; the current slot is the one that runs. */
  ghost predicate Inv(s: Sched) {
    && s.current < |s.state|
    && NoDup(s.queue)
    && (forall i :: 0 <= i < |s.queue| ==> 0 < s.queue[i] < |s.state| && Waiting(s.state[s.queue[i]]))
    && (forall t :: 0 < t < |s.state| && Waiting(s.state[t]) ==> t in s.queue)
    && (forall t :: 0 < t < |s.state| ==> (s.state[t] == Running <==> t == s.current))
  }

  ghost predicate AllEmpty(s: Sched) {
    forall t :: 0 < t < |s.state| ==> s.state[t] == Empty
  }

  // ---------------------------------------------------------------- steps

  /** thread_create in slot t. */
  function Created(s: Sched, t: nat): Sched
    requires t < |s.state|
  {
    s.(state := s.state[t := New], queue := s.queue + [t])
  }

  /** The tail of schedule: run the head of the queue, or main if it is empty. */
  function Dispatched(s: Sched): Sched
    requires s.queue != [] ==> s.queue[0] < |s.state|
  {
    if s.queue == [] then s.(current := 0)
    else Sched(s.state[s.queue[0] := Running], s.queue[1..], s.queue[0])
  }

  /** schedule's first branch: the running thread goes to the back of the queue. */
  function Requeued(s: Sched): Sched
    requires s.current < |s.state|
  {
    if s.current == 0 then s
    else s.(state := s.state[s.current := Ready], queue := s.queue + [s.current])
  }

  function Scheduled(s: Sched): Sched
    requires s.current < |s.state| && (s.queue != [] ==> s.queue[0] < |s.state|)
  {
    Dispatched(Requeued(s))
  }

  /** finish: the running thread's slot is released, then schedule runs on behalf of main. */
  function Finished(s: Sched): Sched
    requires s.current < |s.state| && (s.queue != [] ==> s.queue[0] < |s.state|)
  {
    Dispatched(s.(state := s.state[s.current := Empty], current := 0))
  }

  lemma CreatedInv(s: Sched, t: nat)
    requires Inv(s) && 0 < t < |s.state| && s.state[t] == Empty
    ensures Inv(Created(s, t))
  {
  }

  /** Between the two halves of a step nothing runs. */
  ghost predicate Paused(s: Sched) {
    && NoDup(s.queue)
    && (forall i :: 0 <= i < |s.queue| ==> 0 < s.queue[i] < |s.state| && Waiting(s.state[s.queue[i]]))
    && (forall t :: 0 < t < |s.state| && Waiting(s.state[t]) ==> t in s.queue)
    && (forall t :: 0 < t < |s.state| ==> s.state[t] != Running)
  }

  lemma RequeuedPaused(s: Sched)
    requires Inv(s)
    ensures Paused(Requeued(s)) && |Requeued(s).state| == |s.state| > 0
  {
    assert s.current !in s.queue || !Waiting(s.state[s.current]);
  }

  /** What is behind the head of a queue without duplicates. */
  lemma TailMembers(q: seq<nat>)
    requires q != [] && NoDup(q)
    ensures forall t :: t in q[1..] <==> t in q && t != q[0]
  {
    forall t ensures t in q[1..] <==> t in q && t != q[0] {
      assert q == [q[0]] + q[1..];
      if t in q[1..] {
        var i :| 0 <= i < |q| - 1 && q[1..][i] == t;
        assert q[i + 1] == t;
      }
    }
  }

  lemma DispatchedInv(s: Sched)
    requires Paused(s) && |s.state| > 0
    ensures Inv(Dispatched(s)) && |Dispatched(s).state| == |s.state|
    ensures Dispatched(s).current == 0 <==> AllEmpty(s)
    ensures Dispatched(s).current == 0 ==> AllEmpty(Dispatched(s)) && Dispatched(s).queue == []
  {
    if s.queue != [] {
      TailMembers(s.queue);
      assert Waiting(s.state[s.queue[0]]);
    } else {
      forall t | 0 < t < |s.state| ensures s.state[t] == Empty { assert !Waiting(s.state[t]); }
    }
  }

  /** A schedule keeps the invariant, and resumes main exactly when every slot is empty. */
  lemma ScheduledInv(s: Sched)
    requires Inv(s)
    ensures Inv(Scheduled(s)) && |Scheduled(s).state| == |s.state|
    ensures Scheduled(s).current == 0 <==> AllEmpty(s)
    ensures Scheduled(s).current == 0 ==> AllEmpty(Scheduled(s))
  {
    RequeuedPaused(s);
    DispatchedInv(Requeued(s));
    if s.current != 0 {
      assert s.state[s.current] == Running && Requeued(s).state[s.current] == Ready;
    } else {
      assert Requeued(s) == s;
    }
  }

  lemma ReleasedPaused(s: Sched)
    requires Inv(s) && s.current != 0
    ensures Paused(s.(state := s.state[s.current := Empty], current := 0))
  {
  }

  lemma FinishedInv(s: Sched)
    requires Inv(s) && s.current != 0
    ensures Inv(Finished(s)) && |Finished(s).state| == |s.state|
    ensures Finished(s).current == 0 ==> AllEmpty(Finished(s))
  {
    ReleasedPaused(s);
    DispatchedInv(s.(state := s.state[s.current := Empty], current := 0));
  }

  // ---------------------------------------------------------------- capacity

  /** Distinct positive numbers below n: there are at most n - 1 of them. */
  lemma {:induction false} Pigeonhole(q: seq<nat>, n: nat)
    requires NoDup(q) && n > 0
    requires forall i :: 0 <= i < |q| ==> 0 < q[i] < n
    ensures |q| <= n - 1
  {
    if q == [] {
      return;
    }
    var first := q[0];
    if n - 1 in q {
      var i :| 0 <= i < |q| && q[i] == n - 1;
      var rest := q[..i] + q[i + 1..];
      forall j | 0 <= j < |rest| ensures 0 < rest[j] < n - 1 {
        var j' := if j < i then j else j + 1;
        assert rest[j] == q[j'];
        assert if j' < i then q[j'] != q[i] else q[i] != q[j'];
      }
      assert NoDup(rest) by {
        forall a, b | 0 <= a < b < |rest| ensures rest[a] != rest[b] {
          var a', b' := if a < i then a else a + 1, if b < i then b else b + 1;
          assert rest[a] == q[a'] && rest[b] == q[b'];
        }
      }
      Pigeonhole(rest, n - 1);
    } else {
      Pigeonhole(q, n - 1);
    }
  }

  /** The queue, sized to the pool, always has room for one more thread. */
  lemma QueueHasRoom(s: Sched)
    requires (Inv(s) || Paused(s)) && |s.state| > 0
    ensures |s.queue| <= |s.state| - 1
    ensures Inv(s) && s.current != 0 ==> |s.queue| < |s.state| - 1
  {
    Pigeonhole(s.queue, |s.state|);
    if Inv(s) && s.current != 0 {
      RequeuedPaused(s);
      Pigeonhole(Requeued(s).queue, |s.state|);
    }
  }

  // ---------------------------------------------------------------- runs

  datatype Event = Create(slot: nat) | Schedule | Finish

  predicate Enabled(s: Sched, e: Event) {
    match e
    case Create(t) => 0 < t < |s.state| && s.state[t] == Empty
    case Schedule => true
    case Finish => s.current != 0
  }

  ghost function After(s: Sched, e: Event): Sched
    requires Inv(s) && Enabled(s, e)
  {
    match e
    case Create(t) => Created(s, t)
    case Schedule => Scheduled(s)
    case Finish => Finished(s)
  }

  lemma AfterInv(s: Sched, e: Event)
    requires Inv(s) && Enabled(s, e)
    ensures Inv(After(s, e)) && |After(s, e).state| == |s.state|
  {
    match e
    case Create(t) => CreatedInv(s, t);
    case Schedule => ScheduledInv(s);
    case Finish => FinishedInv(s);
  }

  /** es can happen one after the other from s, and they lead to s'. */
  ghost predicate Leads(s: Sched, es: seq<Event>, s': Sched)
    requires Inv(s)
    decreases |es|
  {
    if es == [] then s' == s
    else Enabled(s, es[0]) && (AfterInv(s, es[0]); Leads(After(s, es[0]), es[1..], s'))
  }

  lemma {:induction false} RunInv(s: Sched, es: seq<Event>, s': Sched)
    requires Inv(s) && Leads(s, es, s')
    ensures Inv(s') && |s'.state| == |s.state|
    decreases |es|
  {
    hide Inv, Enabled, After;
    if es != [] {
      AfterInv(s, es[0]);
      RunInv(After(s, es[0]), es[1..], s');
    }
  }

  /** How many times schedule runs, from a yield, a timer interrupt or a finish. */
  function Dispatches(es: seq<Event>): nat {
    if es == [] then 0 else (if es[0].Create? then 0 else 1) + Dispatches(es[1..])
  }

  /** One dispatch takes the head and moves everybody else one place forward; a create moves nobody. */
  lemma OneStep(s: Sched, e: Event, k: nat)
    requires Inv(s) && Enabled(s, e) && k < |s.queue|
    ensures var s' := After(s, e);
            if e.Create? then k < |s'.queue| && s'.queue[k] == s.queue[k] && s'.current == s.current
            else if k == 0 then s'.current == s.queue[0]
            else k - 1 < |s'.queue| && s'.queue[k - 1] == s.queue[k] && s'.current == s.queue[0]
  {
  }

  /** While at most k dispatches have happened, the thread at position k has moved forward once per dispatch. */
  lemma {:induction false} Advances(s: Sched, es: seq<Event>, s': Sched, k: nat)
    requires Inv(s) && Leads(s, es, s') && k < |s.queue| && Dispatches(es) <= k
    ensures k - Dispatches(es) < |s'.queue| && s'.queue[k - Dispatches(es)] == s.queue[k]
    decreases |es|
  {
    hide Inv, After;
    if es != [] {
      AfterInv(s, es[0]);
      OneStep(s, es[0], k);
      Advances(After(s, es[0]), es[1..], s', if es[0].Create? then k else k - 1);
    }
  }

  /** Bounded waiting: whatever is created or finishes meanwhile, the thread at queue position k runs after exactly the
      (k+1)-th dispatch and after none before it. */
  lemma DispatchedInTurn(s: Sched, es: seq<Event>, mid: Sched, e: Event, k: nat)
    requires Inv(s) && Leads(s, es, mid) && k < |s.queue|
    requires Dispatches(es) <= k && !e.Create?
    requires Inv(mid) && Enabled(mid, e)
    ensures After(mid, e).current == s.queue[k] <==> Dispatches(es) == k
  {
    var j := k - Dispatches(es);
    Advances(s, es, mid, k);
    OneStep(mid, e, 0);
    if j > 0 { assert mid.queue[0] != mid.queue[j]; }
  }

  /** Of any events with more than k dispatches, a first part ends with the dispatch of the thread at queue position
      k. */
  lemma {:induction false} Turn(s: Sched, es: seq<Event>, s': Sched, k: nat) returns (i: nat, mid: Sched)
    requires Inv(s) && Leads(s, es, s') && k < |s.queue| && Dispatches(es) > k
    ensures i <= |es| && Leads(s, es[..i], mid) && mid.current == s.queue[k]
    ensures Dispatches(es[..i]) == k + 1
    decreases |es|
  {
    hide Inv, After;
    var s1 := After(s, es[0]);
    AfterInv(s, es[0]);
    OneStep(s, es[0], k);
    if !es[0].Create? && k == 0 {
      i, mid := 1, s1;
      assert es[..1][1..] == [];
    } else {
      i, mid := Turn(s1, es[1..], s', if es[0].Create? then k else k - 1);
      i := i + 1;
      assert es[..i][1..] == es[1..][..i - 1];
    }
  }

  /** No queued thread waits for more than pool_size - 1 dispatches: by then it has been current. */
  lemma WaitBound(s: Sched, es: seq<Event>, s': Sched, k: nat) returns (i: nat, mid: Sched)
    requires Inv(s) && Leads(s, es, s') && k < |s.queue| && Dispatches(es) >= |s.state| - 1
    ensures i <= |es| && Leads(s, es[..i], mid) && mid.current == s.queue[k]
    ensures Dispatches(es[..i]) == k + 1 <= |s.state| - 1
  {
    hide Leads;
    QueueHasRoom(s);
    i, mid := Turn(s, es, s', k);
  }

  // ---------------------------------------------------------------- starting and resuming

  /** The event dispatches slot t. */
  ghost predicate Runs(s: Sched, e: Event, t: nat)
    requires Inv(s) && Enabled(s, e)
  {
    !e.Create? && After(s, e).current == t
  }

  /** The event dispatches a slot by start, not by resume: the slot was marked new. */
  ghost predicate Starts(s: Sched, e: Event)
    requires Inv(s) && Enabled(s, e)
  {
    !e.Create? && After(s, e).current != 0 && s.state[After(s, e).current] == New
  }

  /** How often slot t is dispatched by the events es from s on. */
  ghost function RunsOf(s: Sched, es: seq<Event>, t: nat): nat
    requires Inv(s)
    decreases |es|
  {
    if es == [] || !Enabled(s, es[0]) then 0
    else
      AfterInv(s, es[0]);
      (if Runs(s, es[0], t) then 1 else 0) + RunsOf(After(s, es[0]), es[1..], t)
  }

  /** Slot t does not finish in the events es from s on. */
  ghost predicate Unfinished(s: Sched, es: seq<Event>, t: nat)
    requires Inv(s)
    decreases |es|
  {
    es == [] || !Enabled(s, es[0])
    || (AfterInv(s, es[0]); !(es[0].Finish? && s.current == t) && Unfinished(After(s, es[0]), es[1..], t))
  }

  /** One event: a thread that does not finish stays, and stays new exactly if it was and is not dispatched. */
  lemma StaysNew(s: Sched, e: Event, t: nat)
    requires Inv(s) && Enabled(s, e) && 0 < t < |s.state| && s.state[t] != Empty && !(e.Finish? && s.current == t)
    ensures t < |After(s, e).state| && After(s, e).state[t] != Empty
    ensures After(s, e).state[t] == New <==> s.state[t] == New && !Runs(s, e, t)
  {
    AfterInv(s, e);
  }

  lemma {:induction false} NewUntilRun(s: Sched, es: seq<Event>, s': Sched, t: nat)
    requires Inv(s) && Leads(s, es, s') && 0 < t < |s.state| && s.state[t] != Empty && Unfinished(s, es, t)
    ensures t < |s'.state| && s'.state[t] != Empty
    ensures s'.state[t] == New <==> s.state[t] == New && RunsOf(s, es, t) == 0
    decreases |es|
  {
    hide Inv, After, Runs;
    if es != [] {
      AfterInv(s, es[0]);
      StaysNew(s, es[0], t);
      NewUntilRun(After(s, es[0]), es[1..], s', t);
    }
  }

  /** A thread is created in slot t, and whatever happens to others, it does not finish: the first dispatch of it starts
      it, and every later one resumes it. That the invariant holds after the creation and after es is what AfterInv and
      RunInv say. */
  lemma StartedOnce(s: Sched, t: nat, es: seq<Event>, mid: Sched, e: Event)
    requires Inv(s) && Enabled(s, Create(t)) && Inv(After(s, Create(t)))
    requires Leads(After(s, Create(t)), es, mid) && Unfinished(After(s, Create(t)), es, t)
    requires Inv(mid) && Enabled(mid, e) && Runs(mid, e, t)
    ensures Starts(mid, e) <==> RunsOf(After(s, Create(t)), es, t) == 0
  {
    hide Leads, RunsOf, Unfinished;
    NewUntilRun(After(s, Create(t)), es, mid, t);
  }
}
