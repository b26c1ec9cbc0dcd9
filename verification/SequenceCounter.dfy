/** The per-day counter behind the issued numbers, as transactions that interleave freely.

    A transaction reads its row with SELECT ... FOR UPDATE, then updates it, or inserts it
    when there was none, then commits. Reading an existing row and inserting a row take the
    row lock, which is held until the transaction ends; rows have a unique primary key. */
module SequenceCounter {
  import opened Positional
  import opened Transactions

  /** Primary key of a counter row. */
  datatype Key = Key(yymmdd: string, flag: nat)

  const CAPACITY: nat := 9999

  datatype Stage =
    | Begun
    | SawRow(seen: nat)
    | SawNothing
    | Wrote(lastSeq: nat, seq4: nat)
    | Closed

  /** One call of nextSeq. */
  datatype Call = Call(key: Key, stage: Stage)

  /** A counter value that reached its caller, with the three random digits drawn for it. */
  datatype Slot = Slot(key: Key, seq4: nat, r3: nat)

  datatype State = State(table: map<Key, nat>, calls: seq<Call>, issued: seq<Slot>)

  const INITIAL: State := State(map[], [], [])

  /** Commit may succeed without the caller learning of it; drawing the random digits may fail. */
  datatype Action =
    | Begin(key: Key)
    | Read(t: nat)
    | Write(t: nat)
    | Commit(t: nat, acknowledged: bool, random: Option<nat>)
    | Abort(t: nat)

  predicate Holding(c: Call) {
    c.stage.SawRow? || c.stage.Wrote?
  }

  /** Some transaction holds the lock of row k. */
  predicate Locked(s: State, k: Key) {
    exists t :: 0 <= t < |s.calls| && Holding(s.calls[t]) && s.calls[t].key == k
  }

  function SetStage(s: State, t: nat, stage: Stage): (s': State)
    requires t < |s.calls|
  {
    s.(calls := s.calls[t := Call(s.calls[t].key, stage)])
  }

  /** The row lock is free, or the call waits. */
  function ReadStage(s: State, k: Key): Stage {
    if k !in s.table then SawNothing
    else if s.table[k] >= CAPACITY then Closed
    else SawRow(s.table[k])
  }

  /** An event that is not possible in the current state changes nothing. */
  function Step(s: State, a: Action): State {
    match a
    case Begin(k) => s.(calls := s.calls + [Call(k, Begun)])
    case Read(t) =>
      if t < |s.calls| && s.calls[t].stage == Begun && !Locked(s, s.calls[t].key)
      then SetStage(s, t, ReadStage(s, s.calls[t].key)) else s
    case Write(t) =>
      if t < |s.calls| && s.calls[t].stage.SawRow? && s.calls[t].key in s.table
      then SetStage(s, t, Wrote(s.table[s.calls[t].key] + 1, s.calls[t].stage.seen))
      else if t < |s.calls| && s.calls[t].stage == SawNothing && !Locked(s, s.calls[t].key)
      then SetStage(s, t, if s.calls[t].key in s.table then Closed else Wrote(1, 0))
      else s
    case Commit(t, acknowledged, random) =>
      if t < |s.calls| && s.calls[t].stage.Wrote?
      then Committed(s, t, if acknowledged then random else None) else s
    case Abort(t) =>
      if t < |s.calls| then SetStage(s, t, Closed) else s
  }

  function Committed(s: State, t: nat, random: Option<nat>): State
    requires t < |s.calls| && s.calls[t].stage.Wrote?
  {
    var c := s.calls[t];
    SetStage(s, t, Closed).(
      table := s.table[c.key := c.stage.lastSeq],
      issued := if random.Some? then s.issued + [Slot(c.key, c.stage.seq4, random.value % 1000)] else s.issued)
  }

  function Run(actions: seq<Action>): State {
    if actions == [] then INITIAL else Step(Run(actions[..|actions| - 1]), actions[|actions| - 1])
  }

  // ---- the invariant --------------------------------------------------------------

  /** At most one transaction holds a row. */
  ghost predicate Exclusive(calls: seq<Call>) {
    forall t, u :: 0 <= t < u < |calls| && Holding(calls[t]) && Holding(calls[u]) ==> calls[t].key != calls[u].key
  }

  predicate Taken(table: map<Key, nat>, k: Key, q: nat) {
    k in table && q < table[k] && q < CAPACITY
  }

  /** What a transaction saw is still what the table holds. */
  predicate CallOk(table: map<Key, nat>, c: Call) {
    match c.stage
    case SawRow(v) => c.key in table && table[c.key] == v < CAPACITY
    case Wrote(last, q) => last == q + 1 && q < CAPACITY && (if c.key in table then table[c.key] == q else q == 0)
    case _ => true
  }

  ghost predicate Inv(s: State) {
    && Exclusive(s.calls)
    && (forall c <- s.calls :: CallOk(s.table, c))
    && (forall n <- s.issued :: Taken(s.table, n.key, n.seq4) && n.r3 < 1000)
    && EachOnce(s.issued)
  }

  ghost predicate EachOnce(issued: seq<Slot>) {
    forall i, j :: 0 <= i < j < |issued| ==> issued[i].key != issued[j].key || issued[i].seq4 != issued[j].seq4
  }

  lemma SetStageKeepsInv(s: State, t: nat, stage: Stage)
    requires Inv(s) && t < |s.calls| && CallOk(s.table, Call(s.calls[t].key, stage))
    requires Holding(Call(s.calls[t].key, stage)) ==> Holding(s.calls[t]) || !Locked(s, s.calls[t].key)
    ensures Inv(SetStage(s, t, stage))
  {
    var s' := SetStage(s, t, stage);
    assert forall c <- s'.calls :: c in s.calls || c == Call(s.calls[t].key, stage);
  }

  lemma CommitKeepsInv(s: State, t: nat, random: Option<nat>)
    requires Inv(s) && t < |s.calls| && s.calls[t].stage.Wrote?
    ensures Inv(Committed(s, t, random))
  {
    var c, s' := s.calls[t], Committed(s, t, random);
    assert CallOk(s.table, c);
    forall u | 0 <= u < |s.calls| ensures CallOk(s'.table, s'.calls[u]) {
      assert CallOk(s.table, s.calls[u]);
    }
    forall n <- s'.issued ensures Taken(s'.table, n.key, n.seq4) && n.r3 < 1000 {
      assert n in s.issued || n == Slot(c.key, c.stage.seq4, n.r3);
    }
    assert !Taken(s.table, c.key, c.stage.seq4);
    assert forall n <- s.issued :: n.key != c.key || n.seq4 != c.stage.seq4;
  }

  lemma StepKeepsInv(s: State, a: Action)
    requires Inv(s)
    ensures Inv(Step(s, a))
  {
    match a
    case Begin(k) =>
      assert forall c <- Step(s, a).calls :: c in s.calls || c == Call(k, Begun);
    case Read(t) =>
      if t < |s.calls| && s.calls[t].stage == Begun && !Locked(s, s.calls[t].key) {
        SetStageKeepsInv(s, t, ReadStage(s, s.calls[t].key));
      }
    case Write(t) =>
      if t < |s.calls| {
        var k := s.calls[t].key;
        assert CallOk(s.table, s.calls[t]);
        if s.calls[t].stage.SawRow? && k in s.table {
          SetStageKeepsInv(s, t, Wrote(s.table[k] + 1, s.calls[t].stage.seen));
        } else if s.calls[t].stage == SawNothing && !Locked(s, k) {
          SetStageKeepsInv(s, t, if k in s.table then Closed else Wrote(1, 0));
        }
      }
    case Commit(t, acknowledged, random) =>
      if t < |s.calls| && s.calls[t].stage.Wrote? {
        CommitKeepsInv(s, t, if acknowledged then random else None);
      }
    case Abort(t) =>
      if t < |s.calls| {
        SetStageKeepsInv(s, t, Closed);
      }
  }

  /** In every interleaving, no counter value reaches two callers, and only 0..9998 are handed out. */
  lemma {:induction false} RunKeepsInv(actions: seq<Action>)
    ensures Inv(Run(actions))
  {
    if actions == [] {
    } else {
      RunKeepsInv(actions[..|actions| - 1]);
      StepKeepsInv(Run(actions[..|actions| - 1]), actions[|actions| - 1]);
    }
  }

  // ---- one call on its own ------------------------------------------------------------

  /** Database faults a call may meet. */
  datatype Faults = Faults(readFails: bool, writeFails: bool, commit: Commit)

  /** Effect of one transaction that runs alone: the new rows and the value handed out. */
  function NextSeqAlone(rows: map<Key, nat>, k: Key): (map<Key, nat>, Option<nat>) {
    if k !in rows then (rows[k := 1], Some(0))
    else if rows[k] >= CAPACITY then (rows, None)
    else (rows[k := rows[k] + 1], Some(rows[k]))
  }

  /** The same with faults: a failure changes nothing, except that a commit may be stored although
      the caller gets an error. */
  function NextSeqWith(rows: map<Key, nat>, k: Key, f: Faults): (map<Key, nat>, Option<nat>) {
    if f.readFails || f.writeFails || f.commit == Refused then (rows, None)
    else if f.commit == Acknowledged then NextSeqAlone(rows, k)
    else (NextSeqAlone(rows, k).0, None)
  }

  /** The method below is the uninterrupted run of one transaction of the protocol, with the same faults. */
  lemma AloneIsUninterrupted(s: State, k: Key, f: Faults, random: Option<nat>)
    requires !Locked(s, k)
    ensures var t := |s.calls|;
            var s2 := Step(Step(s, Begin(k)), if f.readFails then Abort(t) else Read(t));
            var s3 := Step(s2, if f.writeFails then Abort(t) else Write(t));
            var s' := Step(s3, if f.commit == Refused then Abort(t) else Commit(t, f.commit == Acknowledged, random));
            var (rows, r) := NextSeqWith(s.table, k, f);
            s'.table == rows && s'.calls == s.calls + [Call(k, Closed)]
            && s'.issued == if r.Some? && random.Some? then s.issued + [Slot(k, r.value, random.value % 1000)]
               else s.issued
  {
    var t := |s.calls|;
    var s1 := Step(s, Begin(k));
    assert !Locked(s1, k);
    assert s1.calls == s.calls + [Call(k, Begun)];
    var s2 := Step(s1, if f.readFails then Abort(t) else Read(t));
    assert s2.calls == s.calls + [Call(k, if f.readFails then Closed else ReadStage(s, k))];
    if k !in s.table {
      assert !Locked(s2, k);
    }
    var s3 := Step(s2, if f.writeFails then Abort(t) else Write(t));
    assert s3.calls == s.calls + [s3.calls[t]];
  }

  function RowsAfter(k: Key, calls: nat): map<Key, nat> {
    if calls == 0 then map[] else NextSeqAlone(RowsAfter(k, calls - 1), k).0
  }

  /** A day's counter hands out 0, 1, ..., 9998 in order; from then on every call fails,
      so the value 9999 of the documented range is never issued. */
  lemma {:induction false} NthCallOfTheDay(k: Key, n: nat)
    ensures NextSeqAlone(RowsAfter(k, n), k).1 == if n <= 9998 then Some(n) else None
  {
    RowsCount(k, n);
  }

  lemma {:induction false} RowsCount(k: Key, n: nat)
    ensures n > 0 ==> k in RowsAfter(k, n) && RowsAfter(k, n)[k] == if n < CAPACITY then n else CAPACITY
    ensures n == 0 ==> k !in RowsAfter(k, n)
  {
    if n == 0 {
    } else {
      RowsCount(k, n - 1);
    }
  }

  class CounterTable {
    var rows: map<Key, nat>

    constructor ()
      ensures rows == map[]
    {
      rows := map[];
    }

    method NextSeq(k: Key, faults: Faults) returns (r: Option<nat>)
      modifies this
      ensures (rows, r) == NextSeqWith(old(rows), k, faults)
      ensures r.Some? ==> r.value < CAPACITY
    {
      var tx, seq4 := rows, 0;
      if faults.readFails {
        return None;
      }
      if k in tx {
        if tx[k] >= CAPACITY {
          return None;
        }
        seq4 := tx[k];
        if faults.writeFails {
          return None;
        }
        tx := tx[k := tx[k] + 1];
      } else {
        if faults.writeFails {
          return None;
        }
        tx := tx[k := 1];
      }
      if faults.commit == Refused {
        return None;
      }
      rows := tx;
      if faults.commit == Unacknowledged {
        return None;
      }
      return Some(seq4);
    }
  }
}
