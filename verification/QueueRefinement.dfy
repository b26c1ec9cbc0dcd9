/** A thread of the protocol that is not interrupted does what the queue's methods promise, and a
    consumer does so in whatever order its handlers take their steps. */
module QueueRefinement {
  import opened Batching
  import opened Positional
  import opened QueueOwnership
  import opened QueueProtocol
  import opened WorkQueue

  /** Some moves of thread t, its handlers' included, and of nobody else. */
  function Alone<T(==)>(s: State<T>, t: nat, moves: seq<Move>): State<T>
    decreases |moves|
  {
    if moves == [] then s else Alone(Step(s, Act(t, moves[0])), t, moves[1..])
  }

  lemma AloneNext<T(!new)>(s: State<T>, t: nat, m: Move, rest: seq<Move>)
    ensures Alone(s, t, [m] + rest) == Alone(Step(s, Act(t, m)), t, rest)
  {
    assert ([m] + rest)[1..] == rest;
  }

  lemma {:induction false} AloneAppend<T(!new)>(s: State<T>, t: nat, a: seq<Move>, b: seq<Move>)
    ensures Alone(s, t, a + b) == Alone(Alone(s, t, a), t, b)
    decreases |a|
  {
    if a == [] {
      assert a + b == b;
    } else {
      assert (a + b)[1..] == a[1..] + b;
      AloneAppend(Step(s, Act(t, a[0])), t, a[1..], b);
    }
  }

  // ---- producers ------------------------------------------------------------------------------

  /** What the methods of RichQueue promise for one call that offers `items`. */
  ghost predicate Offered<T(!new)>(s: State<T>, s': State<T>, t: nat, q: nat, items: seq<T>, token: bool)
    requires q < |s.queues|
  {
    && |s'.queues| == |s.queues| && (forall r :: 0 <= r < |s.queues| && r != q ==> s'.queues[r] == s.queues[r])
    && t < |s'.threads| && s'.threads[t] == Stopped
    && s'.locks == s.locks + Elements(items)
    && s'.queues[q].slots == s.queues[q].slots + Admitted(s.locks, items)
    && s'.queues[q].token == token
  }

  lemma OneStep<T(!new)>(s: State<T>, t: nat, q: nat)
    requires t < |s.threads| && !s.threads[t].Stopped? && s.threads[t].q == q < |s.queues|
    ensures var l, s' := Proceeded(View(s, t), Held(s, q)), Step(s, Act(t, Proceed));
            s' == State(l.locks, s.queues[q := l.queue], s.threads[t := l.thread])
  {
  }

  /** Enqueue without interruption: at most three steps after the start, with the effect of the
      method on claims, slots and token. */
  lemma EnqueueAlone<T(!new)>(s: State<T>, q: nat, item: T)
    requires q < |s.queues| && !Held(s, q)
    ensures var t := |s.threads|;
            Offered(s, Alone(Step(s, Start(Claiming(q, item))), t, [Proceed, Proceed, Proceed]), t, q, [item],
                    s.queues[q].token || item !in s.locks)
  {
    var t := |s.threads|;
    var s0 := Step(s, Start(Claiming(q, item)));
    var s1 := Step(s0, Act(t, Proceed));
    OneStep(s0, t, q);
    AloneNext(s0, t, Proceed, [Proceed, Proceed]);
    AloneNext(s1, t, Proceed, [Proceed]);
    if item in s.locks {
      assert s1.threads[t] == Stopped;
      AloneNext(s1, t, Proceed, []);
    } else {
      assert s1.threads == s.threads + [Claimed(q, item)];
      FreeAfter(s, s1, q, Claimed(q, item));
      OneStep(s1, t, q);
      var s2 := Step(s1, Act(t, Proceed));
      OneStep(s2, t, q);
      AloneNext(s2, t, Proceed, []);
    }
  }

  lemma FreeAfter<T(!new)>(s: State<T>, s': State<T>, q: nat, th: Thread<T>)
    requires !Held(s, q) && s'.threads == s.threads + [th] && !HoldsMutex(th, q)
    ensures !Held(s', q)
  {
    forall u | 0 <= u < |s'.threads| ensures !HoldsMutex(s'.threads[u], q) {
      assert u < |s.threads| ==> !HoldsMutex(s.threads[u], q);
    }
  }

  /** One item handled, then the rest. */
  lemma OfferNext<T(!new)>(s: State<T>, s1: State<T>, s': State<T>, t: nat, q: nat, items: seq<T>)
    requires q < |s.queues| && |s1.queues| == |s.queues| && items != []
    requires forall r :: 0 <= r < |s.queues| && r != q ==> s1.queues[r] == s.queues[r]
    requires s1.locks == s.locks + {items[0]}
    requires s1.queues[q].slots
             == if items[0] in s.locks then s.queues[q].slots else s.queues[q].slots + [items[0]]
    requires Offered(s1, s', t, q, items[1..], true)
    ensures Offered(s, s', t, q, items, true)
  {
    assert items == [items[0]] + items[1..];
    assert Elements(items) == {items[0]} + Elements(items[1..]);
    AdmitNext(s.queues[q].slots, s.locks, items);
  }

  /** The loop of a batch that has the mutex. */
  lemma {:induction false} BatchLoopAlone<T(!new)>(s: State<T>, t: nat, q: nat, rest: seq<T>)
    returns (moves: seq<Move>)
    requires q < |s.queues| && t < |s.threads| && s.threads[t] == Batching(q, rest)
    ensures Offered(s, Alone(s, t, moves), t, q, rest, true)
    decreases rest, 1
  {
    var s1 := Step(s, Act(t, Proceed));
    OneStep(s, t, q);
    if rest == [] {
      OneStep(s1, t, q);
      AloneNext(s, t, Proceed, [Proceed]);
      AloneNext(s1, t, Proceed, []);
      moves := [Proceed] + [Proceed];
    } else if rest[0] in s.locks {
      var others := BatchLoopAlone(s1, t, q, rest[1..]);
      AloneNext(s, t, Proceed, others);
      OfferNext(s, s1, Alone(s1, t, others), t, q, rest);
      moves := [Proceed] + others;
    } else {
      moves := BatchItemAlone(s, s1, t, q, rest);
    }
  }

  lemma {:induction false} BatchItemAlone<T(!new)>(s: State<T>, s1: State<T>, t: nat, q: nat, rest: seq<T>)
    returns (moves: seq<Move>)
    requires q < |s.queues| && t < |s.threads| && s.threads[t] == Batching(q, rest)
    requires rest != [] && rest[0] !in s.locks && s1 == Step(s, Act(t, Proceed))
    ensures Offered(s, Alone(s, t, moves), t, q, rest, true)
    decreases rest, 0
  {
    OneStep(s, t, q);
    OneStep(s1, t, q);
    var s2 := Step(s1, Act(t, Proceed));
    var others := BatchLoopAlone(s2, t, q, rest[1..]);
    AloneNext(s, t, Proceed, [Proceed] + others);
    AloneNext(s1, t, Proceed, others);
    OfferNext(s, s2, Alone(s2, t, others), t, q, rest);
    moves := [Proceed] + ([Proceed] + others);
  }

  /** BatchEnqueue without interruption ends, with the effect of the method. */
  lemma BatchEnqueueAlone<T(!new)>(s: State<T>, q: nat, items: seq<T>) returns (moves: seq<Move>)
    requires q < |s.queues| && !Held(s, q)
    ensures var t := |s.threads|;
            Offered(s, Alone(Step(s, Start(BatchWaiting(q, items))), t, moves), t, q, items, true)
  {
    var t := |s.threads|;
    var s0 := Step(s, Start(BatchWaiting(q, items)));
    FreeAfter(s, s0, q, BatchWaiting(q, items));
    OneStep(s0, t, q);
    var s1 := Step(s0, Act(t, Proceed));
    var others := BatchLoopAlone(s1, t, q, items);
    AloneNext(s0, t, Proceed, others);
    moves := [Proceed] + others;
  }

  // ---- consumers ------------------------------------------------------------------------------

  predicate IsConsumer<T>(th: Thread<T>, q: nat, size: int) {
    (th.Listening? || th.Draining? || th.Handling?) && th.q == q && th.size == size
  }

  /** Thread t is a consumer of queue q, and nobody has the mutex. */
  ghost predicate Serves<T(!new)>(s: State<T>, t: nat, q: nat, size: int) {
    q < |s.queues| && t < |s.threads| && IsConsumer(s.threads[t], q, size) && !Held(s, q)
  }

  lemma ConsumerStep<T(!new)>(s: State<T>, t: nat, q: nat, size: int, m: Move)
    requires Serves(s, t, q, size) && m != Cancel
    ensures var l, s' := Moved(View(s, t), false, m), Step(s, Act(t, m));
            s' == State(l.locks, s.queues[q := l.queue], s.threads[t := l.thread]) && Serves(s', t, q, size)
  {
    var s' := Step(s, Act(t, m));
    assert IsConsumer(s'.threads[t], q, size);
    forall u | 0 <= u < |s'.threads| ensures !HoldsMutex(s'.threads[u], q) {
      assert !HoldsMutex(s.threads[u], q);
    }
  }

  /** The items of the batch whose handlers have released their claims. */
  ghost function ReleasedItems<T>(th: Thread<T>): set<T> {
    if !th.Handling? then {}
    else set i | 0 <= i < |th.phases| && i < |th.batch| && th.phases[i] != Running :: th.batch[i]
  }

  /** The batches dequeued, the current one included. */
  function Dequeued<T>(handled: seq<seq<T>>, th: Thread<T>): seq<seq<T>> {
    if th.Handling? then handled + [th.batch] else handled
  }

  /** What is true of claims, queue and consumer after `handled` batches of the slots w0 had when the
      consumer woke up: batches go in order, and only released claims are gone. */
  ghost predicate Progress<T(!new)>(locks0: set<T>, w0: Queue<T>, l: Local<T>, size: int, handled: seq<seq<T>>) {
    && !l.queue.token && l.queue.appended == w0.appended && Counted(l.thread)
    && Dequeued(handled, l.thread) + Batches(l.queue.slots, size) == Batches(w0.slots, size)
    && Flatten(Dequeued(handled, l.thread)) + l.queue.slots == w0.slots
    && l.queue.taken == w0.taken + Flatten(Dequeued(handled, l.thread))
    && l.locks == locks0 - Elements(Flatten(handled)) - ReleasedItems(l.thread)
    && (l.thread.Listening? ==> TakeBatch(l.queue.slots, size) == None)
  }

  lemma TakeProgress<T(!new)>(locks0: set<T>, w0: Queue<T>, l: Local<T>, q: nat, size: int, handled: seq<seq<T>>)
    requires l.thread == Draining(q, size) && Progress(locks0, w0, l, size, handled)
    ensures Progress(locks0, w0, Proceeded(l, false), size, handled)
  {
    if TakeBatch(l.queue.slots, size).Some? {
      BatchStep(l.queue.slots, size, handled);
      BatchesStep(l.queue.slots, size, handled);
      FlattenAppend(handled, TakeBatch(l.queue.slots, size).value.0);
    }
  }

  lemma WaitProgress<T(!new)>(locks0: set<T>, w0: Queue<T>, l: Local<T>, size: int, handled: seq<seq<T>>)
    requires l.thread.Handling? && l.thread.size == size && Progress(locks0, w0, l, size, handled)
    requires |l.thread.phases| == |l.thread.batch| && l.thread.wg == 0
    ensures Progress(locks0, w0, Proceeded(l, false), size, handled + [l.thread.batch])
  {
    var batch := l.thread.batch;
    PendingZero(l.thread.phases);
    FlattenAppend(handled, batch);
    AppendParts(Flatten(handled), batch, []);
    forall x | x in batch ensures x in ReleasedItems(l.thread) {
      var i :| 0 <= i < |batch| && batch[i] == x;
      assert l.thread.phases[i] != Running;
    }
    assert ReleasedItems(l.thread) == Elements(batch);
  }

  lemma StartProgress<T(!new)>(locks0: set<T>, w0: Queue<T>, l: Local<T>, size: int, handled: seq<seq<T>>)
    requires l.thread.Handling? && l.thread.size == size && Progress(locks0, w0, l, size, handled)
    requires |l.thread.phases| < |l.thread.batch|
    ensures Progress(locks0, w0, Proceeded(l, false), size, handled)
  {
    MoveCounts(l, false, Proceed);
    assert ReleasedItems(Proceeded(l, false).thread) == ReleasedItems(l.thread);
  }

  lemma HandlerProgress<T(!new)>(locks0: set<T>, w0: Queue<T>, l: Local<T>, size: int, handled: seq<seq<T>>, i: nat)
    requires l.thread.Handling? && l.thread.size == size && Progress(locks0, w0, l, size, handled)
    ensures Progress(locks0, w0, HandlerStep(l, i), size, handled)
  {
    var th := l.thread;
    MoveCounts(l, false, Handler(i));
    if i < |th.phases| && th.phases[i] == Running {
      assert ReleasedItems(HandlerStep(l, i).thread) == ReleasedItems(th) + {th.batch[i]};
    } else {
      assert ReleasedItems(HandlerStep(l, i).thread) == ReleasedItems(th);
    }
  }

  lemma MoveProgress<T(!new)>(locks0: set<T>, w0: Queue<T>, l: Local<T>, q: nat, size: int, handled: seq<seq<T>>,
                              m: Move)
    returns (handled': seq<seq<T>>)
    requires IsConsumer(l.thread, q, size) && Progress(locks0, w0, l, size, handled) && m != Cancel
    ensures Progress(locks0, w0, Moved(l, false, m), size, handled')
  {
    handled' := handled;
    match m
    case Handler(i) =>
      if l.thread.Handling? {
        HandlerProgress(locks0, w0, l, size, handled, i);
      }
    case Proceed =>
      match l.thread {
        case Draining(_, _) => TakeProgress(locks0, w0, l, q, size, handled);
        case Handling(_, _, batch, phases, wg) =>
          if |phases| < |batch| {
            StartProgress(locks0, w0, l, size, handled);
          } else if wg == 0 {
            WaitProgress(locks0, w0, l, size, handled);
            handled' := handled + [batch];
          }
        case _ =>
      }
  }

  /** Progress is kept by any moves of the consumer and its handlers, in any order. */
  lemma {:induction false} AloneProgress<T(!new)>(locks0: set<T>, w0: Queue<T>, s: State<T>, t: nat, q: nat, size: int,
                                                  handled: seq<seq<T>>, moves: seq<Move>)
    returns (handled': seq<seq<T>>)
    requires Serves(s, t, q, size) && Progress(locks0, w0, View(s, t), size, handled) && Cancel !in moves
    ensures var s' := Alone(s, t, moves);
            Serves(s', t, q, size) && Progress(locks0, w0, View(s', t), size, handled')
    decreases |moves|
  {
    if moves == [] {
      handled' := handled;
    } else {
      ConsumerStep(s, t, q, size, moves[0]);
      var next := MoveProgress(locks0, w0, View(s, t), q, size, handled, moves[0]);
      handled' := AloneProgress(locks0, w0, Step(s, Act(t, moves[0])), t, q, size, next, moves[1..]);
    }
  }

  /** What one awakening does to claims and queue. */
  ghost predicate Drained<T(!new)>(s: State<T>, s': State<T>, t: nat, q: nat, size: int)
    requires q < |s.queues|
  {
    var slots, out := s.queues[q].slots, Flatten(Batches(s.queues[q].slots, size));
    && |s'.queues| == |s.queues| && t < |s'.threads| && s'.threads[t] == Listening(q, size)
    && s'.queues[q].taken == s.queues[q].taken + out && out + s'.queues[q].slots == slots
    && (s'.queues[q].slots == [] <==> size > 0 || slots == [])
    && s'.queues[q].appended == s.queues[q].appended && !s'.queues[q].token
    && s'.locks == s.locks - Elements(out)
  }

  lemma ProgressEnds<T(!new)>(s: State<T>, s': State<T>, t: nat, q: nat, size: int, handled: seq<seq<T>>)
    requires q < |s.queues| == |s'.queues| && t < |s'.threads| && s'.threads[t] == Listening(q, size)
    requires Progress(s.locks, s.queues[q], View(s', t), size, handled)
    ensures Drained(s, s', t, q, size)
  {
    assert Batches(s'.queues[q].slots, size) == [];
    assert handled + [] == handled;
  }

  /** A consumer woken by the token: in whatever order it and its handlers take their steps, whenever
      it listens again it has taken exactly the batches of the sequential drain loop, in order, and
      released exactly their claims. */
  lemma ConsumerInAnyOrder<T(!new)>(s: State<T>, t: nat, q: nat, size: int, moves: seq<Move>)
    requires Serves(s, t, q, size) && s.threads[t] == Listening(q, size) && s.queues[q].token && Cancel !in moves
    ensures var s' := Alone(s, t, [Proceed] + moves);
            t < |s'.threads| && (s'.threads[t].Listening? ==> Drained(s, s', t, q, size))
  {
    AloneNext(s, t, Proceed, moves);
    ConsumerStep(s, t, q, size, Proceed);
    var s1 := Step(s, Act(t, Proceed));
    assert Flatten<T>([]) == [] && Progress(s.locks, s.queues[q], View(s1, t), size, []);
    var handled := AloneProgress(s.locks, s.queues[q], s1, t, q, size, [], moves);
    var s' := Alone(s1, t, moves);
    QueuesStay(s1, t, moves);
    if s'.threads[t].Listening? {
      ProgressEnds(s, s', t, q, size, handled);
    }
  }

  lemma {:induction false} QueuesStay<T(!new)>(s: State<T>, t: nat, moves: seq<Move>)
    ensures |Alone(s, t, moves).queues| == |s.queues|
    decreases |moves|
  {
    if moves == [] {
    } else {
      QueuesStay(Step(s, Act(t, moves[0])), t, moves[1..]);
    }
  }

  // ---- and it gets there ------------------------------------------------------------------------

  /** Steps the handlers of a batch still have to take. */
  function Remaining(phases: seq<Phase>): nat {
    if phases == [] then 0
    else Remaining(phases[..|phases| - 1])
         + match phases[|phases| - 1] case Running => 2 case Released => 1 case Finished => 0
  }

  lemma {:induction false} RemainingAfter(phases: seq<Phase>, i: nat)
    requires i < |phases| && phases[i] != Finished
    ensures Remaining(phases[i := if phases[i] == Running then Released else Finished]) == Remaining(phases) - 1
  {
    var last := |phases| - 1;
    var next := phases[i := if phases[i] == Running then Released else Finished];
    if i == last {
      assert next[..last] == phases[..last];
    } else {
      assert next[..last] == phases[..last][i := if phases[i] == Running then Released else Finished];
      RemainingAfter(phases[..last], i);
    }
  }

  /** The handlers can always run to their end, and then the consumer goes on. */
  lemma {:induction false} BatchEnds<T(!new)>(s: State<T>, t: nat, q: nat, size: int) returns (moves: seq<Move>)
    requires Serves(s, t, q, size) && s.threads[t].Handling? && Counted(s.threads[t])
    ensures Cancel !in moves
    ensures var s' := Alone(s, t, moves);
            && Serves(s', t, q, size) && s'.threads[t] == Draining(q, size)
            && s'.queues[q].slots == s.queues[q].slots
    decreases 3 * (|s.threads[t].batch| - |s.threads[t].phases|) + Remaining(s.threads[t].phases)
  {
    var th := s.threads[t];
    var m := Proceed;
    if |th.phases| < |th.batch| {
      assert (th.phases + [Running])[..|th.phases|] == th.phases;
    } else if th.wg == 0 {
      ConsumerStep(s, t, q, size, Proceed);
      AloneNext(s, t, Proceed, []);
      return [Proceed] + [];
    } else {
      PendingZero(th.phases);
      var i: nat :| i < |th.phases| && th.phases[i] != Finished;
      RemainingAfter(th.phases, i);
      m := Handler(i);
    }
    ConsumerStep(s, t, q, size, m);
    MoveCounts(View(s, t), false, m);
    var rest := BatchEnds(Step(s, Act(t, m)), t, q, size);
    AloneNext(s, t, m, rest);
    moves := [m] + rest;
  }

  lemma {:induction false} DrainEnds<T(!new)>(s: State<T>, t: nat, q: nat, size: int) returns (moves: seq<Move>)
    requires Serves(s, t, q, size) && s.threads[t] == Draining(q, size)
    ensures Cancel !in moves
    ensures t < |Alone(s, t, moves).threads| && Alone(s, t, moves).threads[t] == Listening(q, size)
    decreases |s.queues[q].slots|
  {
    ConsumerStep(s, t, q, size, Proceed);
    var s1 := Step(s, Act(t, Proceed));
    if TakeBatch(s.queues[q].slots, size).None? {
      AloneNext(s, t, Proceed, []);
      moves := [Proceed] + [];
    } else {
      TakeSplits(s.queues[q].slots, size);
      var batch := BatchEnds(s1, t, q, size);
      var s2 := Alone(s1, t, batch);
      var rest := DrainEnds(s2, t, q, size);
      AloneAppend(s1, t, batch, rest);
      AloneNext(s, t, Proceed, batch + rest);
      moves := [Proceed] + (batch + rest);
    }
  }

  /** A woken consumer can always run until it listens again, and then has the effect of the drain loop. */
  lemma ConsumerAlone<T(!new)>(s: State<T>, t: nat, q: nat, size: int) returns (moves: seq<Move>)
    requires Serves(s, t, q, size) && s.threads[t] == Listening(q, size) && s.queues[q].token
    ensures Cancel !in moves && Drained(s, Alone(s, t, [Proceed] + moves), t, q, size)
  {
    ConsumerStep(s, t, q, size, Proceed);
    moves := DrainEnds(Step(s, Act(t, Proceed)), t, q, size);
    AloneNext(s, t, Proceed, moves);
    ConsumerInAnyOrder(s, t, q, size, moves);
  }
}
