/** Producers and consumers of any number of work queues, interleaved step by step.

    The claim table is shared by all queues. A claim is taken before the queue's mutex (single
    items) or while holding it (batches); the wake-up token is posted after the append and is
    received without the mutex. */
module QueueProtocol {
  import opened Positional
  import opened WorkQueue

  /** A started handler goroutine: running, claim deleted, wg.Done called. */
  datatype Phase = Running | Released | Finished

  /** Where a thread stands. In Handling, `phases` has one entry per handler started so far. */
  datatype Thread<T> =
    | Stopped
    | Claiming(q: nat, item: T)
    | Claimed(q: nat, item: T)
    | Posting(q: nat)
    | BatchWaiting(q: nat, rest: seq<T>)
    | Batching(q: nat, rest: seq<T>)
    | BatchClaimed(q: nat, item: T, rest: seq<T>)
    | Listening(q: nat, size: int)
    | Draining(q: nat, size: int)
    | Handling(q: nat, size: int, batch: seq<T>, phases: seq<Phase>, wg: int)

  /** `appended` and `taken` record everything that ever entered and left the slots. */
  datatype Queue<T> = Queue(slots: seq<T>, token: bool, appended: seq<T>, taken: seq<T>)

  datatype State<T> = State(locks: set<T>, queues: seq<Queue<T>>, threads: seq<Thread<T>>)

  /** What one step of a thread can touch: the claims, its queue, itself. */
  datatype Local<T> = Local(locks: set<T>, queue: Queue<T>, thread: Thread<T>)

  /** A thread's next step; a cancelled select; a handler of its batch. */
  datatype Move = Proceed | Cancel | Handler(i: nat)

  /** Start covers the three ways in: Enqueue, BatchEnqueue, ConsumerWithContext. */
  datatype Action<T> =
    | Start(thread: Thread<T>)
    | Act(t: nat, move: Move)
    | Delay(q: nat, item: T)
    | OutsideTake(q: nat, size: int)

  function Push<T>(w: Queue<T>, item: T): Queue<T> {
    w.(slots := w.slots + [item], appended := w.appended + [item])
  }

  function Removed<T>(w: Queue<T>, b: seq<T>, rest: seq<T>): Queue<T> {
    w.(slots := rest, taken := w.taken + b)
  }

  /** One step of a thread, given whether its queue's mutex is held. A blocked thread stays. */
  function Proceeded<T(==)>(l: Local<T>, held: bool): Local<T> {
    match l.thread
    case Claiming(q, x) =>
      if x in l.locks then l.(thread := Stopped)
      else l.(thread := Claimed(q, x), locks := l.locks + {x})
    case Claimed(q, x) =>
      if held then l else l.(thread := Posting(q), queue := Push(l.queue, x))
    case Posting(q) =>
      l.(thread := Stopped, queue := l.queue.(token := true))
    case BatchWaiting(q, rest) =>
      if held then l else l.(thread := Batching(q, rest))
    case Batching(q, rest) =>
      if rest == [] then l.(thread := Posting(q))
      else if rest[0] in l.locks then l.(thread := Batching(q, rest[1..]))
      else l.(thread := BatchClaimed(q, rest[0], rest[1..]), locks := l.locks + {rest[0]})
    case BatchClaimed(q, x, rest) =>
      l.(thread := Batching(q, rest), queue := Push(l.queue, x))
    case Listening(q, size) =>
      if l.queue.token then l.(thread := Draining(q, size), queue := l.queue.(token := false)) else l
    case Draining(q, size) =>
      if held then l else
      (match TakeBatch(l.queue.slots, size)
       case Some((b, rest)) => l.(thread := Handling(q, size, b, [], 0), queue := Removed(l.queue, b, rest))
       case None => l.(thread := Listening(q, size)))
    case Handling(q, size, batch, phases, wg) =>
      if |phases| < |batch| then l.(thread := Handling(q, size, batch, phases + [Running], wg + 1))
      else if wg == 0 then l.(thread := Draining(q, size))
      else l
    case Stopped => l
  }

  /** A handler ends (normally or by a recovered panic): the claim is deleted, then wg.Done runs. */
  function HandlerStep<T(==)>(l: Local<T>, i: nat): Local<T> {
    if !l.thread.Handling? || i >= |l.thread.phases| || i >= |l.thread.batch| then l
    else if l.thread.phases[i] == Running then
      l.(thread := l.thread.(phases := l.thread.phases[i := Released]), locks := l.locks - {l.thread.batch[i]})
    else if l.thread.phases[i] == Released then
      l.(thread := l.thread.(phases := l.thread.phases[i := Finished], wg := l.thread.wg - 1))
    else l
  }

  function Moved<T(==)>(l: Local<T>, held: bool, m: Move): Local<T> {
    match m
    case Proceed => Proceeded(l, held)
    case Cancel => if l.thread.Listening? then l.(thread := Stopped) else l
    case Handler(i) => HandlerStep(l, i)
  }

  function Initial<T>(queues: nat): State<T> {
    State({}, seq(queues, _ => Queue([], false, [], [])), [])
  }

  predicate HoldsMutex<T>(th: Thread<T>, q: nat) {
    (th.Posting? || th.Batching? || th.BatchClaimed?) && th.q == q
  }

  predicate Held<T>(s: State<T>, q: nat) {
    exists t :: 0 <= t < |s.threads| && HoldsMutex(s.threads[t], q)
  }

  predicate HasQueue<T>(s: State<T>, th: Thread<T>) {
    !th.Stopped? && th.q < |s.queues|
  }

  function View<T>(s: State<T>, t: nat): Local<T>
    requires t < |s.threads| && HasQueue(s, s.threads[t])
  {
    Local(s.locks, s.queues[s.threads[t].q], s.threads[t])
  }

  function WithLocal<T>(s: State<T>, t: nat, l: Local<T>): State<T>
    requires t < |s.threads| && HasQueue(s, s.threads[t])
  {
    State(l.locks, s.queues[s.threads[t].q := l.queue], s.threads[t := l.thread])
  }

  /** The effect of an event; one that is not possible changes nothing. */
  function Step<T(==)>(s: State<T>, a: Action<T>): State<T> {
    match a
    case Start(th) =>
      if (th.Claiming? || th.BatchWaiting? || th.Listening?) && th.q < |s.queues|
      then s.(threads := s.threads + [th]) else s
    case Act(t, m) =>
      if t < |s.threads| && HasQueue(s, s.threads[t])
      then WithLocal(s, t, Moved(View(s, t), Held(s, s.threads[t].q), m)) else s
    case Delay(q, item) =>
      if q < |s.queues| then s.(locks := s.locks - {item}, threads := s.threads + [Claiming(q, item)]) else s
    case OutsideTake(q, size) =>
      if q < |s.queues| && !Held(s, q) && TakeBatch(s.queues[q].slots, size).Some?
      then s.(queues := s.queues[q := Removed(s.queues[q], TakeBatch(s.queues[q].slots, size).value.0,
                                                           TakeBatch(s.queues[q].slots, size).value.1)])
      else s
  }

  function Run<T(==)>(queues: nat, actions: seq<Action<T>>): State<T> {
    if actions == [] then Initial(queues) else Step(Run(queues, actions[..|actions| - 1]), actions[|actions| - 1])
  }

  // ---- conservation -----------------------------------------------------------------

  predicate Balanced<T(==)>(w: Queue<T>) {
    w.appended == w.taken + w.slots
  }

  ghost predicate Conserved<T(!new)>(s: State<T>) {
    forall q :: 0 <= q < |s.queues| ==> Balanced(s.queues[q])
  }

  lemma TakeSplits<T>(slots: seq<T>, size: int)
    requires TakeBatch(slots, size).Some?
    ensures var (b, rest) := TakeBatch(slots, size).value; slots == b + rest && b != []
  {
  }

  lemma RemovedBalanced<T>(w: Queue<T>, size: int)
    requires Balanced(w) && TakeBatch(w.slots, size).Some?
    ensures Balanced(Removed(w, TakeBatch(w.slots, size).value.0, TakeBatch(w.slots, size).value.1))
  {
    TakeSplits(w.slots, size);
  }

  lemma MoveBalanced<T>(l: Local<T>, held: bool, m: Move)
    requires Balanced(l.queue)
    ensures Balanced(Moved(l, held, m).queue)
  {
    if l.thread.Draining? && TakeBatch(l.queue.slots, l.thread.size).Some? {
      RemovedBalanced(l.queue, l.thread.size);
    }
  }

  /** First in, first out, nothing lost or invented: at every moment of every run, what was
      appended is what was taken followed by what is still there. */
  lemma {:induction false} RunConserves<T(!new)>(queues: nat, actions: seq<Action<T>>)
    ensures Conserved(Run(queues, actions))
  {
    if actions == [] {
    } else {
      var s, a := Run(queues, actions[..|actions| - 1]), actions[|actions| - 1];
      RunConserves(queues, actions[..|actions| - 1]);
      match a
      case Act(t, m) =>
        if t < |s.threads| && HasQueue(s, s.threads[t]) {
          MoveBalanced(View(s, t), Held(s, s.threads[t].q), m);
        }
      case OutsideTake(q, size) =>
        if q < |s.queues| && TakeBatch(s.queues[q].slots, size).Some? {
          RemovedBalanced(s.queues[q], size);
        }
      case _ =>
    }
  }

  // ---- no lost wake-up ----------------------------------------------------------------

  /** A consumer inside its drain loop, or a producer that has the mutex and will still post. */
  predicate Alert<T>(th: Thread<T>, q: nat) {
    HoldsMutex(th, q) || ((th.Draining? || th.Handling?) && th.q == q)
  }

  ghost predicate AnyAlert<T(!new)>(s: State<T>, q: nat) {
    exists t :: 0 <= t < |s.threads| && Alert(s.threads[t], q)
  }

  ghost predicate WokenUp<T(!new)>(s: State<T>) {
    forall q :: 0 <= q < |s.queues| && s.queues[q].slots != [] ==> s.queues[q].token || AnyAlert(s, q)
  }

  predicate PositiveSize<T>(th: Thread<T>) {
    th.Listening? || th.Draining? || th.Handling? ==> th.size > 0
  }

  /** Every consumer was started with a batch size a caller may use. */
  ghost predicate PositiveSizes<T>(s: State<T>) {
    forall t :: 0 <= t < |s.threads| ==> PositiveSize(s.threads[t])
  }

  /** A move keeps its own queue awake: it wakes it itself, or it changes neither the token nor
      the slots, or it leaves the slots empty. */
  lemma MoveWakes<T>(l: Local<T>, held: bool, m: Move, q: nat)
    requires !l.thread.Stopped? && l.thread.q == q && PositiveSize(l.thread)
    ensures var l' := Moved(l, held, m);
            Alert(l'.thread, q) || l'.queue.token || l'.queue.slots == []
            || (l'.queue.slots == l.queue.slots && l'.queue.token == l.queue.token && !Alert(l.thread, q))
  {
  }

  lemma ActWakes<T(!new)>(s: State<T>, t: nat, m: Move)
    requires WokenUp(s) && PositiveSizes(s) && t < |s.threads| && HasQueue(s, s.threads[t])
    ensures WokenUp(Step(s, Act(t, m)))
  {
    var q, l := s.threads[t].q, View(s, t);
    var l' := Moved(l, Held(s, q), m);
    var s' := Step(s, Act(t, m));
    assert PositiveSize(l.thread);
    MoveWakes(l, Held(s, q), m, q);
    forall k | 0 <= k < |s'.queues| && s'.queues[k].slots != [] && !s'.queues[k].token ensures AnyAlert(s', k) {
      if k == q && Alert(l'.thread, q) {
        assert Alert(s'.threads[t], k);
      } else {
        var u :| 0 <= u < |s.threads| && Alert(s.threads[u], k);
        assert s'.threads[u] == s.threads[u];
        assert Alert(s'.threads[u], k);
      }
    }
  }

  lemma StepWakes<T(!new)>(s: State<T>, a: Action<T>)
    requires WokenUp(s) && PositiveSizes(s)
    ensures WokenUp(Step(s, a))
  {
    if a.Act? {
      if a.t < |s.threads| && HasQueue(s, s.threads[a.t]) {
        ActWakes(s, a.t, a.move);
      }
    } else {
      var s' := Step(s, a);
      forall k | 0 <= k < |s'.queues| && s'.queues[k].slots != [] && !s'.queues[k].token ensures AnyAlert(s', k) {
        var u :| 0 <= u < |s.threads| && Alert(s.threads[u], k);
        assert Alert(s'.threads[u], k);
      }
    }
  }

  ghost predicate AllSizesPositive<T(!new)>(actions: seq<Action<T>>) {
    forall a <- actions :: a.Start? ==> PositiveSize(a.thread)
  }

  lemma {:induction false} SizesStayPositive<T(!new)>(queues: nat, actions: seq<Action<T>>)
    requires AllSizesPositive(actions)
    ensures PositiveSizes(Run(queues, actions))
  {
    if actions == [] {
    } else {
      SizesStayPositive(queues, actions[..|actions| - 1]);
    }
  }

  /** No wake-up is lost: whatever the interleaving, with cancellations, spurious tokens, delayed
      re-enqueues and outside removals, a queue that is not empty has its token posted, a consumer
      inside its drain loop, or a producer that holds the mutex and has not posted yet. */
  lemma {:induction false} RunWakes<T(!new)>(queues: nat, actions: seq<Action<T>>)
    requires AllSizesPositive(actions)
    ensures WokenUp(Run(queues, actions))
  {
    if actions == [] {
    } else {
      var s := Run(queues, actions[..|actions| - 1]);
      RunWakes(queues, actions[..|actions| - 1]);
      SizesStayPositive(queues, actions[..|actions| - 1]);
      StepWakes(s, actions[|actions| - 1]);
    }
  }

  /** Between critical sections: a token is posted or a consumer is draining. */
  lemma AwakeWhenUnlocked<T(!new)>(queues: nat, actions: seq<Action<T>>, q: nat)
    requires AllSizesPositive(actions) && q < queues
    ensures |Run(queues, actions).queues| == queues
    ensures var s := Run(queues, actions);
            !Held(s, q) && s.queues[q].slots != [] ==>
              || s.queues[q].token
              || exists t :: 0 <= t < |s.threads| && (s.threads[t].Draining? || s.threads[t].Handling?)
                             && s.threads[t].q == q
  {
    RunWakes(queues, actions);
    QueueCount(queues, actions);
    var s := Run(queues, actions);
    if !Held(s, q) && s.queues[q].slots != [] && !s.queues[q].token {
      var t :| 0 <= t < |s.threads| && Alert(s.threads[t], q);
      assert !HoldsMutex(s.threads[t], q);
    }
  }

  lemma {:induction false} QueueCount<T(!new)>(queues: nat, actions: seq<Action<T>>)
    ensures |Run(queues, actions).queues| == queues
  {
    if actions == [] {
    } else {
      QueueCount(queues, actions[..|actions| - 1]);
    }
  }

  /** The size condition is exact: a consumer that answers the token of a non-empty queue leaves
      the queue awake if and only if its batch size is positive or another thread is alert. */
  lemma WakeUpNeedsPositiveSize<T(!new)>(s: State<T>, t: nat, q: nat, size: int)
    requires WokenUp(s) && t < |s.threads| && q < |s.queues| && s.threads[t] == Listening(q, size)
    requires s.queues[q].token && s.queues[q].slots != [] && !Held(s, q)
    ensures WokenUp(Step(Step(s, Act(t, Proceed)), Act(t, Proceed)))
            <==> size > 0 || exists u :: 0 <= u < |s.threads| && u != t && Alert(s.threads[u], q)
  {
    var s1 := Step(s, Act(t, Proceed));
    assert s1.threads == s.threads[t := Draining(q, size)];
    forall u | 0 <= u < |s1.threads| ensures !HoldsMutex(s1.threads[u], q) {
      assert !HoldsMutex(s.threads[u], q);
    }
    var s2 := Step(s1, Act(t, Proceed));
    forall k | 0 <= k < |s2.queues| && k != q && s2.queues[k].slots != []
      ensures s2.queues[k].token || AnyAlert(s2, k) {
      if !s.queues[k].token {
        var u :| 0 <= u < |s.threads| && Alert(s.threads[u], k);
        assert s2.threads[u] == s.threads[u];
      }
    }
    if size > 0 {
      assert Alert(s2.threads[t], q);
    } else {
      assert s2.threads == s.threads && s2.queues[q].slots == s.queues[q].slots && !s2.queues[q].token;
    }
  }

  // ---- cancellation -----------------------------------------------------------------------------

  /** s after further events. */
  function Continued<T(==)>(s: State<T>, actions: seq<Action<T>>): State<T> {
    if actions == [] then s else Step(Continued(s, actions[..|actions| - 1]), actions[|actions| - 1])
  }

  lemma StoppedStays<T(!new)>(s: State<T>, t: nat, a: Action<T>)
    requires t < |s.threads| && s.threads[t] == Stopped
    ensures t < |Step(s, a).threads| && Step(s, a).threads[t] == Stopped
    ensures a.Act? && a.t == t ==> Step(s, a) == s
  {
  }

  /** A listening consumer that is cancelled stops for good: in every continuation it stays stopped,
      and no event of its own changes anything. */
  lemma {:induction false} CancelStops<T(!new)>(s: State<T>, t: nat, actions: seq<Action<T>>)
    requires t < |s.threads| && s.threads[t].Listening? && s.threads[t].q < |s.queues|
    ensures var s' := Continued(Step(s, Act(t, Cancel)), actions);
            && t < |s'.threads| && s'.threads[t] == Stopped && (forall m :: Step(s', Act(t, m)) == s')
            && Step(s, Act(t, Cancel)).queues == s.queues && Step(s, Act(t, Cancel)).locks == s.locks
  {
    if actions == [] {
    } else {
      CancelStops(s, t, actions[..|actions| - 1]);
      StoppedStays(Continued(Step(s, Act(t, Cancel)), actions[..|actions| - 1]), t, actions[|actions| - 1]);
    }
  }
}
