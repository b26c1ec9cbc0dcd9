/** Exclusive ownership of claimed items, over all interleavings of producers and consumers. */
module QueueOwnership {
  import opened Positional
  import opened WorkQueue
  import opened QueueProtocol

  // ---- wg.Wait ------------------------------------------------------------------------

  function Pending(phases: seq<Phase>): nat {
    if phases == [] then 0
    else Pending(phases[..|phases| - 1]) + if phases[|phases| - 1] == Finished then 0 else 1
  }

  lemma {:induction false} PendingZero(phases: seq<Phase>)
    ensures Pending(phases) == 0 <==> forall i :: 0 <= i < |phases| ==> phases[i] == Finished
  {
    if phases == [] {
    } else {
      PendingZero(phases[..|phases| - 1]);
    }
  }

  lemma {:induction false} PendingAfter(phases: seq<Phase>, i: nat, p: Phase)
    requires i < |phases| && phases[i] != Finished
    ensures Pending(phases[i := p]) == Pending(phases) - if p == Finished then 1 else 0
  {
    var last := |phases| - 1;
    if i == last {
      assert phases[i := p][..last] == phases[..last];
    } else {
      assert phases[i := p][..last] == phases[..last][i := p];
      PendingAfter(phases[..last], i, p);
    }
  }

  /** The wait group counts exactly the handlers that have not finished. */
  predicate Counted<T>(th: Thread<T>) {
    th.Handling? ==> |th.phases| <= |th.batch| && th.wg == Pending(th.phases)
  }

  lemma MoveCounts<T>(l: Local<T>, held: bool, m: Move)
    requires Counted(l.thread)
    ensures Counted(Moved(l, held, m).thread)
  {
    if l.thread.Handling? {
      var phases := l.thread.phases;
      match m
      case Proceed => assert (phases + [Running])[..|phases|] == phases;
      case Handler(i) =>
        if i < |phases| && phases[i] == Running {
          PendingAfter(phases, i, Released);
        } else if i < |phases| && phases[i] == Released {
          PendingAfter(phases, i, Finished);
        }
      case Cancel =>
    }
  }

  ghost predicate AllCounted<T(!new)>(s: State<T>) {
    forall t :: 0 <= t < |s.threads| ==> Counted(s.threads[t])
  }

  lemma {:induction false} RunCounts<T(!new)>(queues: nat, actions: seq<Action<T>>)
    ensures AllCounted(Run(queues, actions))
  {
    if actions == [] {
    } else {
      var s, a := Run(queues, actions[..|actions| - 1]), actions[|actions| - 1];
      RunCounts(queues, actions[..|actions| - 1]);
      if a.Act? && a.t < |s.threads| && HasQueue(s, s.threads[a.t]) {
        MoveCounts(View(s, a.t), Held(s, s.threads[a.t].q), a.move);
      }
    }
  }

  /** When wg.Wait returns, every item of the batch has had its handler end and its claim deleted. */
  lemma WaitReleasesBatch<T(!new)>(queues: nat, actions: seq<Action<T>>, t: nat)
    requires var s := Run(queues, actions);
             t < |s.threads| && HasQueue(s, s.threads[t]) && s.threads[t].Handling?
    ensures var s := Run(queues, actions);
            Step(s, Act(t, Proceed)).threads[t].Draining? <==>
              |s.threads[t].phases| == |s.threads[t].batch|
              && forall i :: 0 <= i < |s.threads[t].batch| ==> s.threads[t].phases[i] == Finished
  {
    RunCounts(queues, actions);
    var s := Run(queues, actions);
    assert Counted(s.threads[t]);
    PendingZero(s.threads[t].phases);
  }

  // ---- where a claimed item can be ------------------------------------------------------

  datatype Place = AtProducer(t: nat) | InSlots(q: nat, i: nat) | InFlight(t: nat, i: nat)

  /** The item a producer has claimed and not appended yet. */
  function Carried<T>(th: Thread<T>): Option<T> {
    if th.Claimed? || th.BatchClaimed? then Some(th.item) else None
  }

  /** Item i of the batch being handled, as long as its claim stands. */
  function Flying<T>(th: Thread<T>, i: nat): Option<T> {
    if th.Handling? && i < |th.batch| && (i >= |th.phases| || th.phases[i] == Running) then Some(th.batch[i]) else None
  }

  function Slot<T>(w: Queue<T>, i: nat): Option<T> {
    if i < |w.slots| then Some(w.slots[i]) else None
  }

  function Occupant<T>(s: State<T>, p: Place): Option<T> {
    match p
    case AtProducer(t) => if t < |s.threads| then Carried(s.threads[t]) else None
    case InSlots(q, i) => if q < |s.queues| then Slot(s.queues[q], i) else None
    case InFlight(t, i) => if t < |s.threads| then Flying(s.threads[t], i) else None
  }

  /** The claim table is the disjoint union of the items claimed but not yet appended, the items
      in slots and the items in flight: every claim stands for exactly one place, every place
      holds a claimed item, so no item is queued or handled twice at once. */
  ghost predicate Owned<T(!new)>(s: State<T>) {
    && (forall x <- s.locks :: exists p :: Occupant(s, p) == Some(x))
    && (forall p :: Occupant(s, p).Some? ==> Occupant(s, p).value in s.locks)
    && (forall p, r :: Occupant(s, p).Some? && Occupant(s, p) == Occupant(s, r) ==> p == r)
  }

  lemma PlacesKept<T(!new)>(s: State<T>, s': State<T>)
    requires Owned(s) && s'.locks == s.locks
    requires forall p :: Occupant(s', p) == Occupant(s, p)
    ensures Owned(s')
  {
    forall x <- s'.locks ensures exists p :: Occupant(s', p) == Some(x) {
      var p :| Occupant(s, p) == Some(x);
      assert Occupant(s', p) == Some(x);
    }
  }

  lemma PlaceFilled<T(!new)>(s: State<T>, s': State<T>, at: Place, x: T)
    requires Owned(s) && x !in s.locks && s'.locks == s.locks + {x}
    requires Occupant(s', at) == Some(x) && Occupant(s, at) == None
    requires forall p :: p != at ==> Occupant(s', p) == Occupant(s, p)
    ensures Owned(s')
  {
    forall y <- s'.locks ensures exists p :: Occupant(s', p) == Some(y) {
      if y != x {
        var p :| Occupant(s, p) == Some(y);
        assert Occupant(s', p) == Some(y);
      }
    }
  }

  lemma PlaceCleared<T(!new)>(s: State<T>, s': State<T>, at: Place, x: T)
    requires Owned(s) && s'.locks == s.locks - {x}
    requires Occupant(s, at) == Some(x) && Occupant(s', at) == None
    requires forall p :: p != at ==> Occupant(s', p) == Occupant(s, p)
    ensures Owned(s')
  {
    forall y <- s'.locks ensures exists p :: Occupant(s', p) == Some(y) {
      var p :| Occupant(s, p) == Some(y);
      assert Occupant(s', p) == Some(y);
    }
  }

  lemma PlaceMoved<T(!new)>(s: State<T>, s': State<T>, from: Place, to: Place, x: T)
    requires Owned(s) && s'.locks == s.locks
    requires Occupant(s, from) == Some(x) && Occupant(s', from) == None
    requires Occupant(s, to) == None && Occupant(s', to) == Some(x)
    requires forall p :: p != from && p != to ==> Occupant(s', p) == Occupant(s, p)
    ensures Owned(s')
  {
    forall y <- s'.locks ensures exists p :: Occupant(s', p) == Some(y) {
      var p :| Occupant(s, p) == Some(y);
      assert Occupant(s', if p == from then to else p) == Some(y);
    }
  }

  /** A batch of k items leaves the front of queue q for the hands of consumer t. */
  function Origin(p: Place, t: nat, q: nat, k: nat): Place {
    match p
    case InFlight(u, i) => if u == t then InSlots(q, i) else p
    case InSlots(r, i) => if r == q then InSlots(q, i + k) else p
    case AtProducer(_) => p
  }

  function Destination(p: Place, t: nat, q: nat, k: nat): Place {
    match p
    case InSlots(r, i) => if r == q then (if i < k then InFlight(t, i) else InSlots(q, i - k)) else p
    case _ => p
  }

  lemma PlacesShifted<T(!new)>(s: State<T>, s': State<T>, t: nat, q: nat, k: nat)
    requires Owned(s) && s'.locks == s.locks
    requires forall p :: Occupant(s', p).Some? ==> Occupant(s, Origin(p, t, q, k)) == Occupant(s', p)
                                                   && Destination(Origin(p, t, q, k), t, q, k) == p
    requires forall p :: Occupant(s, p).Some? ==> Occupant(s', Destination(p, t, q, k)) == Occupant(s, p)
    ensures Owned(s')
  {
    forall x <- s'.locks ensures exists p :: Occupant(s', p) == Some(x) {
      var p :| Occupant(s, p) == Some(x);
      assert Occupant(s', Destination(p, t, q, k)) == Some(x);
    }
    forall p | Occupant(s', p).Some? ensures Occupant(s', p).value in s'.locks {
      assert Occupant(s, Origin(p, t, q, k)) == Occupant(s', p);
    }
    forall p, r | Occupant(s', p).Some? && Occupant(s', p) == Occupant(s', r) ensures p == r {
      assert Origin(p, t, q, k) == Origin(r, t, q, k);
    }
  }

  // ---- one step -------------------------------------------------------------------------

  lemma OnlyLocalPlaces<T(!new)>(s: State<T>, t: nat, l: Local<T>)
    requires t < |s.threads| && HasQueue(s, s.threads[t])
    ensures var s', q := WithLocal(s, t, l), s.threads[t].q;
            && Occupant(s', AtProducer(t)) == Carried(l.thread)
            && (forall i :: Occupant(s', InFlight(t, i)) == Flying(l.thread, i))
            && (forall i :: Occupant(s', InSlots(q, i)) == Slot(l.queue, i))
            && (forall u :: u != t ==> Occupant(s', AtProducer(u)) == Occupant(s, AtProducer(u)))
            && (forall u, i :: u != t ==> Occupant(s', InFlight(u, i)) == Occupant(s, InFlight(u, i)))
            && (forall r, i :: r != q ==> Occupant(s', InSlots(r, i)) == Occupant(s, InSlots(r, i)))
  {
  }

  lemma TakeOrigins<T(!new)>(s: State<T>, t: nat, p: Place)
    requires t < |s.threads| && HasQueue(s, s.threads[t]) && s.threads[t].Draining?
    requires TakeBatch(s.queues[s.threads[t].q].slots, s.threads[t].size).Some?
    requires Occupant(WithLocal(s, t, Proceeded(View(s, t), false)), p).Some?
    ensures var q, k := s.threads[t].q, |TakeBatch(s.queues[s.threads[t].q].slots, s.threads[t].size).value.0|;
            Occupant(s, Origin(p, t, q, k)) == Occupant(WithLocal(s, t, Proceeded(View(s, t), false)), p)
            && Destination(Origin(p, t, q, k), t, q, k) == p
  {
    TakeSplits(s.queues[s.threads[t].q].slots, s.threads[t].size);
    OnlyLocalPlaces(s, t, Proceeded(View(s, t), false));
  }

  lemma TakeDestinations<T(!new)>(s: State<T>, t: nat, p: Place)
    requires t < |s.threads| && HasQueue(s, s.threads[t]) && s.threads[t].Draining?
    requires TakeBatch(s.queues[s.threads[t].q].slots, s.threads[t].size).Some?
    requires Occupant(s, p).Some?
    ensures var q, k := s.threads[t].q, |TakeBatch(s.queues[s.threads[t].q].slots, s.threads[t].size).value.0|;
            Occupant(WithLocal(s, t, Proceeded(View(s, t), false)), Destination(p, t, q, k)) == Occupant(s, p)
  {
    TakeSplits(s.queues[s.threads[t].q].slots, s.threads[t].size);
    OnlyLocalPlaces(s, t, Proceeded(View(s, t), false));
  }

  lemma TakeKeepsOwned<T(!new)>(s: State<T>, t: nat)
    requires Owned(s) && t < |s.threads| && HasQueue(s, s.threads[t]) && s.threads[t].Draining?
    requires TakeBatch(s.queues[s.threads[t].q].slots, s.threads[t].size).Some?
    ensures Owned(WithLocal(s, t, Proceeded(View(s, t), false)))
  {
    var q, l := s.threads[t].q, Proceeded(View(s, t), false);
    var s' := WithLocal(s, t, l);
    var (b, rest) := TakeBatch(s.queues[q].slots, s.threads[t].size).value;
    forall p | Occupant(s', p).Some?
      ensures Occupant(s, Origin(p, t, q, |b|)) == Occupant(s', p) && Destination(Origin(p, t, q, |b|), t, q, |b|) == p
    {
      TakeOrigins(s, t, p);
    }
    forall p | Occupant(s, p).Some? ensures Occupant(s', Destination(p, t, q, |b|)) == Occupant(s, p) {
      TakeDestinations(s, t, p);
    }
    PlacesShifted(s, s', t, q, |b|);
  }

  lemma ClaimKeepsOwned<T(!new)>(s: State<T>, t: nat, held: bool)
    requires Owned(s) && t < |s.threads| && HasQueue(s, s.threads[t])
    requires Proceeded(View(s, t), held).locks != s.locks
    ensures Owned(WithLocal(s, t, Proceeded(View(s, t), held)))
  {
    var th, l := s.threads[t], Proceeded(View(s, t), held);
    OnlyLocalPlaces(s, t, l);
    PlaceFilled(s, WithLocal(s, t, l), AtProducer(t), if th.Claiming? then th.item else th.rest[0]);
  }

  lemma AppendKeepsOwned<T(!new)>(s: State<T>, t: nat, held: bool)
    requires Owned(s) && t < |s.threads| && HasQueue(s, s.threads[t])
    requires Carried(s.threads[t]).Some? && Carried(Proceeded(View(s, t), held).thread).None?
    ensures Owned(WithLocal(s, t, Proceeded(View(s, t), held)))
  {
    var th, l := s.threads[t], Proceeded(View(s, t), held);
    OnlyLocalPlaces(s, t, l);
    PlaceMoved(s, WithLocal(s, t, l), AtProducer(t), InSlots(th.q, |s.queues[th.q].slots|), th.item);
  }

  /** A step that moves no item and changes no claim. */
  lemma QuietKeepsOwned<T(!new)>(s: State<T>, t: nat, l: Local<T>)
    requires Owned(s) && t < |s.threads| && HasQueue(s, s.threads[t])
    requires l.locks == s.locks && l.queue.slots == View(s, t).queue.slots
    requires Carried(l.thread) == Carried(s.threads[t])
    requires forall i :: Flying(l.thread, i) == Flying(s.threads[t], i)
    ensures Owned(WithLocal(s, t, l))
  {
    OnlyLocalPlaces(s, t, l);
    PlacesKept(s, WithLocal(s, t, l));
  }

  lemma ProceedKeepsOwned<T(!new)>(s: State<T>, t: nat, held: bool)
    requires Owned(s) && t < |s.threads| && HasQueue(s, s.threads[t]) && Counted(s.threads[t])
    ensures Owned(WithLocal(s, t, Proceeded(View(s, t), held)))
  {
    var th, l := s.threads[t], Proceeded(View(s, t), held);
    if l.locks != s.locks {
      ClaimKeepsOwned(s, t, held);
    } else if Carried(th).Some? && Carried(l.thread).None? {
      AppendKeepsOwned(s, t, held);
    } else if l.thread.Handling? && th.Draining? {
      TakeKeepsOwned(s, t);
    } else {
      if th.Handling? {
        PendingZero(th.phases);
      }
      QuietKeepsOwned(s, t, l);
    }
  }

  lemma HandlerKeepsOwned<T(!new)>(s: State<T>, t: nat, i: nat)
    requires Owned(s) && t < |s.threads| && HasQueue(s, s.threads[t])
    ensures Owned(WithLocal(s, t, HandlerStep(View(s, t), i)))
  {
    var th, l := s.threads[t], HandlerStep(View(s, t), i);
    var s' := WithLocal(s, t, l);
    OnlyLocalPlaces(s, t, l);
    if th.Handling? && i < |th.phases| && i < |th.batch| && th.phases[i] == Running {
      PlaceCleared(s, s', InFlight(t, i), th.batch[i]);
    } else {
      PlacesKept(s, s');
    }
  }

  lemma ActKeepsOwned<T(!new)>(s: State<T>, t: nat, m: Move)
    requires Owned(s) && AllCounted(s) && t < |s.threads| && HasQueue(s, s.threads[t])
    ensures Owned(Step(s, Act(t, m)))
  {
    match m
    case Proceed => ProceedKeepsOwned(s, t, Held(s, s.threads[t].q));
    case Handler(i) => HandlerKeepsOwned(s, t, i);
    case Cancel =>
      var l := Moved(View(s, t), Held(s, s.threads[t].q), m);
      OnlyLocalPlaces(s, t, l);
      PlacesKept(s, WithLocal(s, t, l));
  }

  /** Re-enqueueing with a delay drops the claim at once; that is harmless exactly when the item
      is not claimed at that moment. */
  lemma DelayKeepsOwned<T(!new)>(s: State<T>, q: nat, item: T)
    requires Owned(s) && q < |s.queues|
    ensures Owned(Step(s, Delay(q, item))) <==> item !in s.locks
  {
    var s' := Step(s, Delay(q, item));
    assert forall p :: Occupant(s', p) == Occupant(s, p);
    if item in s.locks {
      var p :| Occupant(s, p) == Some(item);
      assert Occupant(s', p).Some?;
    } else {
      assert s'.locks == s.locks;
      PlacesKept(s, s');
    }
  }

  /** Removing items without handling them leaves their claims behind; that is harmless exactly
      when nothing is removed. */
  lemma OutsideTakeKeepsOwned<T(!new)>(s: State<T>, q: nat, size: int)
    requires Owned(s) && q < |s.queues| && !Held(s, q)
    ensures Owned(Step(s, OutsideTake(q, size))) <==> TakeBatch(s.queues[q].slots, size).None?
  {
    if TakeBatch(s.queues[q].slots, size).Some? {
      var s' := Step(s, OutsideTake(q, size));
      var (b, rest) := TakeBatch(s.queues[q].slots, size).value;
      TakeSplits(s.queues[q].slots, size);
      var x := b[0];
      assert Occupant(s, InSlots(q, 0)) == Some(x);
      forall p ensures Occupant(s', p) != Some(x) {
        var r := if p.InSlots? && p.q == q then InSlots(q, p.i + |b|) else p;
        assert Occupant(s', p).Some? ==> Occupant(s, r) == Occupant(s', p);
        assert r != InSlots(q, 0);
      }
    }
  }

  // ---- whole runs ---------------------------------------------------------------------------

  /** An event is careful when it re-enqueues only unclaimed items and takes nothing out past the
      consumers. Enqueue, BatchEnqueue and consumer events are always careful. */
  predicate Careful<T(==)>(s: State<T>, a: Action<T>) {
    match a
    case Delay(q, item) => q < |s.queues| ==> item !in s.locks
    case OutsideTake(q, size) => q < |s.queues| && !Held(s, q) ==> TakeBatch(s.queues[q].slots, size).None?
    case _ => true
  }

  lemma StepKeepsOwned<T(!new)>(s: State<T>, a: Action<T>)
    requires Owned(s) && AllCounted(s)
    ensures Owned(Step(s, a)) <==> Careful(s, a)
  {
    match a
    case Start(th) =>
      var s' := Step(s, a);
      assert forall p :: Occupant(s', p) == Occupant(s, p);
      PlacesKept(s, s');
    case Act(t, m) =>
      if t < |s.threads| && HasQueue(s, s.threads[t]) {
        ActKeepsOwned(s, t, m);
      }
    case Delay(q, item) =>
      if q < |s.queues| {
        DelayKeepsOwned(s, q, item);
      }
    case OutsideTake(q, size) =>
      if q < |s.queues| && !Held(s, q) {
        OutsideTakeKeepsOwned(s, q, size);
      }
  }

  ghost predicate AlwaysOwned<T(!new)>(queues: nat, actions: seq<Action<T>>) {
    forall n :: 0 <= n <= |actions| ==> Owned(Run(queues, actions[..n]))
  }

  ghost predicate AlwaysCareful<T(!new)>(queues: nat, actions: seq<Action<T>>) {
    forall n :: 0 <= n < |actions| ==> Careful(Run(queues, actions[..n]), actions[n])
  }

  lemma NextState<T(!new)>(queues: nat, actions: seq<Action<T>>, n: nat)
    requires n < |actions|
    ensures Run(queues, actions[..n + 1]) == Step(Run(queues, actions[..n]), actions[n])
  {
    assert actions[..n + 1][..n] == actions[..n];
  }

  lemma {:induction false} CarefulRunIsOwned<T(!new)>(queues: nat, actions: seq<Action<T>>, n: nat)
    requires AlwaysCareful(queues, actions) && n <= |actions|
    ensures Owned(Run(queues, actions[..n]))
  {
    if n == 0 {
      assert Run(queues, actions[..0]) == Initial<T>(queues);
    } else {
      CarefulRunIsOwned(queues, actions, n - 1);
      RunCounts(queues, actions[..n - 1]);
      NextState(queues, actions, n - 1);
      StepKeepsOwned(Run(queues, actions[..n - 1]), actions[n - 1]);
    }
  }

  /** Exclusive ownership over whole runs, with its exact condition: it holds at every moment of a
      run if and only if every event of the run is careful. */
  lemma OwnershipOverRuns<T(!new)>(queues: nat, actions: seq<Action<T>>)
    ensures AlwaysOwned(queues, actions) <==> AlwaysCareful(queues, actions)
  {
    if AlwaysCareful(queues, actions) {
      forall n | 0 <= n <= |actions| ensures Owned(Run(queues, actions[..n])) {
        CarefulRunIsOwned(queues, actions, n);
      }
    }
    if AlwaysOwned(queues, actions) {
      forall n | 0 <= n < |actions| ensures Careful(Run(queues, actions[..n]), actions[n]) {
        assert Owned(Run(queues, actions[..n]));
        assert Owned(Run(queues, actions[..n + 1]));
        RunCounts(queues, actions[..n]);
        NextState(queues, actions, n);
        StepKeepsOwned(Run(queues, actions[..n]), actions[n]);
      }
    }
  }

  /** Without delayed re-enqueues and outside removals, ownership is exclusive at every moment. */
  lemma ExclusiveOwnership<T(!new)>(queues: nat, actions: seq<Action<T>>)
    requires forall a <- actions :: !a.Delay? && !a.OutsideTake?
    ensures Owned(Run(queues, actions))
  {
    OwnershipOverRuns(queues, actions);
    assert AlwaysCareful(queues, actions);
    assert actions[..|actions|] == actions;
  }

  // ---- a run that loses ownership -----------------------------------------------------------------

  lemma RunNext<T(!new)>(queues: nat, actions: seq<Action<T>>, a: Action<T>)
    ensures Run(queues, actions + [a]) == Step(Run(queues, actions), a)
  {
    assert (actions + [a])[..|actions|] == actions;
  }

  /** A producer enqueues x, and a consumer takes it and starts its handler. */
  function Handing<T>(x: T): seq<Action<T>> {
    [] + [Start(Claiming(0, x))] + [Act(0, Proceed)] + [Act(0, Proceed)] + [Act(0, Proceed)]
    + [Start(Listening(0, 1))] + [Act(1, Proceed)] + [Act(1, Proceed)] + [Act(1, Proceed)]
  }

  lemma Produced<T(!new)>(x: T)
    ensures Run(1, [] + [Start(Claiming(0, x))] + [Act(0, Proceed)] + [Act(0, Proceed)] + [Act(0, Proceed)])
            == State({x}, [Queue([x], true, [x], [])], [Stopped])
  {
    var a0: seq<Action<T>> := [];
    var a1 := a0 + [Start(Claiming(0, x))];
    var a2 := a1 + [Act(0, Proceed)];
    var a3 := a2 + [Act(0, Proceed)];
    RunNext(1, a0, Start(Claiming(0, x)));
    RunNext(1, a1, Act(0, Proceed));
    assert Run(1, a2) == State({x}, [Queue([], false, [], [])], [Claimed(0, x)]);
    assert !Held(Run(1, a2), 0);
    RunNext(1, a2, Act(0, Proceed));
    assert [] + [x] == [x];
    assert Run(1, a3) == State({x}, [Queue([x], false, [x], [])], [Posting(0)]);
    RunNext(1, a3, Act(0, Proceed));
  }

  lemma Woken<T(!new)>(x: T, actions: seq<Action<T>>)
    requires Run(1, actions) == State({x}, [Queue([x], true, [x], [])], [Stopped])
    ensures Run(1, actions + [Start(Listening(0, 1))] + [Act(1, Proceed)])
            == State({x}, [Queue([x], false, [x], [])], [Stopped, Draining(0, 1)])
  {
    RunNext(1, actions, Start(Listening(0, 1)));
    RunNext(1, actions + [Start(Listening(0, 1))], Act(1, Proceed));
  }

  lemma Taken<T(!new)>(x: T, actions: seq<Action<T>>)
    requires Run(1, actions) == State({x}, [Queue([x], false, [x], [])], [Stopped, Draining(0, 1)])
    ensures Run(1, actions + [Act(1, Proceed)] + [Act(1, Proceed)])
            == State({x}, [Queue([], false, [x], [x])], [Stopped, Handling(0, 1, [x], [Running], 1)])
  {
    assert !Held(Run(1, actions), 0);
    RunNext(1, actions, Act(1, Proceed));
    assert [] + [x] == [x] && TakeBatch([x], 1) == Some(([x], []));
    assert Run(1, actions + [Act(1, Proceed)])
        == State({x}, [Queue([], false, [x], [x])], [Stopped, Handling(0, 1, [x], [], 0)]);
    RunNext(1, actions + [Act(1, Proceed)], Act(1, Proceed));
    assert [] + [Running] == [Running];
  }

  lemma Handed<T(!new)>(x: T)
    ensures Run(1, Handing(x)) == State({x}, [Queue([], false, [x], [x])], [Stopped, Handling(0, 1, [x], [Running], 1)])
  {
    var produced := [] + [Start(Claiming(0, x))] + [Act(0, Proceed)] + [Act(0, Proceed)] + [Act(0, Proceed)];
    Produced(x);
    Woken(x, produced);
    Taken(x, produced + [Start(Listening(0, 1))] + [Act(1, Proceed)]);
  }

  /** For instance, a handler that re-enqueues its own item with a delay: the item is claimed again
      while it is still being handled. */
  lemma DelayLosesOwnership<T(!new)>(x: T)
    ensures Owned(Run(1, Handing(x)))
    ensures var s := Run(1, Handing(x) + [Delay(0, x)] + [Act(2, Proceed)]);
            Occupant(s, InFlight(1, 0)) == Some(x) && Occupant(s, AtProducer(2)) == Some(x) && !Owned(s)
  {
    Handed(x);
    ExclusiveOwnership(1, Handing(x));
    RunNext(1, Handing(x), Delay(0, x));
    RunNext(1, Handing(x) + [Delay(0, x)], Act(2, Proceed));
    assert Run(1, Handing(x) + [Delay(0, x)])
        == State({}, [Queue([], false, [x], [x])], [Stopped, Handling(0, 1, [x], [Running], 1), Claiming(0, x)]);
  }
}
