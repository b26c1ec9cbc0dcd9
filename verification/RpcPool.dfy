/** The connection pools of the EVM client: double-checked locking over a reader/writer lock,
    with any number of callers interleaved and dials that may fail. */
module RpcPool {
  import opened Positional

  datatype Pool = Pool(clients: seq<string>, names: seq<string>, installedBy: nat)

  /** Configured endpoints of a network, the display name of an endpoint, and resolveMulticall. */
  datatype Env = Env(config: string -> seq<string>, alias: (string, string) -> string, resolve: string -> string)

  /** Where a call of ensurePool stands. From Locked on it holds the write lock. */
  datatype Stage =
    | Checking
    | Waiting
    | Locked
    | Dialing(rest: seq<string>, clients: seq<string>, names: seq<string>)
    | Installed(pool: Pool)
    | Returned(result: Option<Pool>)

  /** `dials` records the outcomes of the dials a call has made. */
  datatype Caller = Caller(network: string, stage: Stage, dials: seq<bool>)

  /** `log` records every installation. */
  datatype Shared = Shared(pools: map<string, Pool>, mcAddr: map<string, string>, log: seq<(string, Pool)>)

  datatype State = State(shared: Shared, callers: seq<Caller>)

  datatype Action = Call(network: string) | Act(t: nat, dialSucceeds: bool)

  predicate Writing(c: Caller) {
    c.stage.Locked? || c.stage.Dialing? || c.stage.Installed?
  }

  predicate WriteLocked(s: State) {
    exists t :: 0 <= t < |s.callers| && Writing(s.callers[t])
  }

  /** One step of caller number t; a blocked caller stays where it is. */
  function Advance(env: Env, sh: Shared, c: Caller, t: nat, locked: bool, dialSucceeds: bool): (Shared, Stage) {
    match c.stage
    case Checking =>
      (sh, if locked then Checking else if c.network in sh.pools then Returned(Some(sh.pools[c.network])) else Waiting)
    case Waiting => (sh, if locked then Waiting else Locked)
    case Locked =>
      (sh, if c.network in sh.pools then Returned(Some(sh.pools[c.network]))
           else if env.config(c.network) == [] then Returned(None)
           else Dialing(env.config(c.network), [], []))
    case Dialing(rest, clients, names) =>
      if rest != [] then
        (sh, if dialSucceeds then Dialing(rest[1..], clients + [rest[0]], names + [env.alias(c.network, rest[0])])
             else Dialing(rest[1..], clients, names))
      else if clients == [] then (sh, Returned(None))
      else
        var pool := Pool(clients, names, t);
        (sh.(pools := sh.pools[c.network := pool], log := sh.log + [(c.network, pool)]), Installed(pool))
    case Installed(pool) =>
      (if c.network in sh.mcAddr then sh else sh.(mcAddr := sh.mcAddr[c.network := env.resolve(c.network)]),
       Returned(Some(pool)))
    case Returned(_) => (sh, c.stage)
  }

  predicate DialsNext(c: Caller) {
    c.stage.Dialing? && c.stage.rest != []
  }

  function Step(env: Env, s: State, a: Action): State {
    match a
    case Call(network) => s.(callers := s.callers + [Caller(network, Checking, [])])
    case Act(t, dialSucceeds) =>
      if t < |s.callers| then
        var c := s.callers[t];
        var (sh, stage) := Advance(env, s.shared, c, t, WriteLocked(s), dialSucceeds);
        State(sh, s.callers[t := Caller(c.network, stage, if DialsNext(c) then c.dials + [dialSucceeds] else c.dials)])
      else s
  }

  function Run(env: Env, actions: seq<Action>): State {
    if actions == [] then State(Shared(map[], map[], []), [])
    else Step(env, Run(env, actions[..|actions| - 1]), actions[|actions| - 1])
  }

  // ---- the invariant ------------------------------------------------------------------------

  /** Only clients of configured endpoints, each with its name, and at least one. */
  predicate ProperPool(env: Env, network: string, p: Pool) {
    && p.clients != [] && |p.names| == |p.clients|
    && (forall i :: 0 <= i < |p.clients| ==>
          p.clients[i] in env.config(network) && p.names[i] == env.alias(network, p.clients[i]))
  }

  ghost predicate SharedOk(env: Env, sh: Shared) {
    && (forall n <- sh.pools :: ProperPool(env, n, sh.pools[n]))
    && (forall n <- sh.mcAddr :: sh.mcAddr[n] == env.resolve(n) && n in sh.pools)
    && (forall i :: 0 <= i < |sh.log| ==> sh.log[i].0 in sh.pools && sh.pools[sh.log[i].0] == sh.log[i].1)
    && (forall i, j :: 0 <= i < j < |sh.log| ==> sh.log[i].0 != sh.log[j].0)
  }

  predicate StageOk(env: Env, sh: Shared, c: Caller) {
    match c.stage
    case Dialing(rest, clients, names) =>
      c.network !in sh.pools && |clients| == |names|
      && (forall i :: 0 <= i < |rest| ==> rest[i] in env.config(c.network))
      && (forall i :: 0 <= i < |clients| ==>
            clients[i] in env.config(c.network) && names[i] == env.alias(c.network, clients[i]))
    case Installed(pool) => c.network in sh.pools && sh.pools[c.network] == pool
    case Returned(Some(pool)) =>
      c.network in sh.pools && sh.pools[c.network] == pool && c.network in sh.mcAddr
    case _ => true
  }

  ghost predicate OneWriter(callers: seq<Caller>) {
    forall t, u :: 0 <= t < u < |callers| ==> !(Writing(callers[t]) && Writing(callers[u]))
  }

  /** Every pool has its multicall entry, except while its installer still holds the lock. */
  ghost predicate EntriesComplete(s: State) {
    forall n <- s.shared.pools ::
      || n in s.shared.mcAddr
      || exists t :: 0 <= t < |s.callers| && s.callers[t].stage.Installed? && s.callers[t].network == n
  }

  ghost predicate Inv(env: Env, s: State) {
    && SharedOk(env, s.shared)
    && OneWriter(s.callers)
    && (forall t :: 0 <= t < |s.callers| ==> StageOk(env, s.shared, s.callers[t]))
    && EntriesComplete(s)
  }

  /** What a caller may do to the shared maps: nothing, or install its own missing pool while it
      holds the lock, or complete its own entry. */
  lemma AdvanceIsLocal(env: Env, sh: Shared, c: Caller, t: nat, locked: bool, dialSucceeds: bool)
    requires SharedOk(env, sh) && StageOk(env, sh, c)
    requires !locked && c.network in sh.pools ==> c.network in sh.mcAddr
    requires c.stage.Locked? && c.network in sh.pools ==> c.network in sh.mcAddr
    ensures var (sh', stage) := Advance(env, sh, c, t, locked, dialSucceeds);
            && SharedOk(env, sh') && StageOk(env, sh', Caller(c.network, stage, c.dials))
            && (forall n <- sh.pools :: n in sh'.pools && sh'.pools[n] == sh.pools[n])
            && (forall n <- sh.mcAddr :: n in sh'.mcAddr)
            && (forall n <- sh'.pools :: n in sh.pools || (n == c.network && c.stage.Dialing? && stage.Installed?))
            && (c.stage.Installed? ==> c.network in sh'.mcAddr)
  {
    if c.stage.Dialing? && c.stage.rest == [] && c.stage.clients != [] {
      var (sh', stage) := Advance(env, sh, c, t, locked, dialSucceeds);
      assert ProperPool(env, c.network, sh'.pools[c.network]);
      assert forall i :: 0 <= i < |sh.log| ==> sh.log[i].0 != c.network;
    }
  }

  lemma UnlockedEntries(s: State, t: nat)
    requires EntriesComplete(s) && OneWriter(s.callers) && t < |s.callers|
    requires !WriteLocked(s) || s.callers[t].stage.Locked?
    ensures forall n <- s.shared.pools :: n in s.shared.mcAddr
  {
    forall u | 0 <= u < |s.callers| ensures !s.callers[u].stage.Installed? {
      assert s.callers[t].stage.Locked? && u != t ==> !Writing(s.callers[u]);
    }
  }

  lemma ActKeepsInv(env: Env, s: State, t: nat, dialSucceeds: bool)
    requires Inv(env, s) && t < |s.callers|
    ensures Inv(env, Step(env, s, Act(t, dialSucceeds)))
  {
    var c, s' := s.callers[t], Step(env, s, Act(t, dialSucceeds));
    assert StageOk(env, s.shared, c);
    if !WriteLocked(s) || c.stage.Locked? {
      UnlockedEntries(s, t);
    }
    AdvanceIsLocal(env, s.shared, c, t, WriteLocked(s), dialSucceeds);
    OthersStay(env, s, t, s');
    WritersStay(s, t, s');
    EntriesStay(s, t, s');
  }

  lemma OthersStay(env: Env, s: State, t: nat, s': State)
    requires t < |s.callers| == |s'.callers| && OneWriter(s.callers)
    requires s'.callers == s.callers[t := s'.callers[t]]
    requires forall u :: 0 <= u < |s.callers| ==> StageOk(env, s.shared, s.callers[u])
    requires StageOk(env, s'.shared, s'.callers[t])
    requires forall n <- s.shared.pools :: n in s'.shared.pools && s'.shared.pools[n] == s.shared.pools[n]
    requires forall n <- s.shared.mcAddr :: n in s'.shared.mcAddr
    requires forall n <- s'.shared.pools :: n in s.shared.pools || s.callers[t].stage.Dialing?
    ensures forall u :: 0 <= u < |s'.callers| ==> StageOk(env, s'.shared, s'.callers[u])
  {
    forall u | 0 <= u < |s'.callers| ensures StageOk(env, s'.shared, s'.callers[u]) {
      if u != t {
        assert StageOk(env, s.shared, s.callers[u]);
        assert !(Writing(s.callers[u]) && Writing(s.callers[t]));
      }
    }
  }

  lemma WritersStay(s: State, t: nat, s': State)
    requires t < |s.callers| == |s'.callers| && OneWriter(s.callers)
    requires s'.callers == s.callers[t := s'.callers[t]]
    requires Writing(s'.callers[t]) ==> Writing(s.callers[t]) || !WriteLocked(s)
    ensures OneWriter(s'.callers)
  {
  }

  lemma EntriesStay(s: State, t: nat, s': State)
    requires t < |s.callers| == |s'.callers| && EntriesComplete(s)
    requires s'.callers == s.callers[t := s'.callers[t]] && s'.callers[t].network == s.callers[t].network
    requires forall n <- s.shared.mcAddr :: n in s'.shared.mcAddr
    requires forall n <- s'.shared.pools ::
               n in s.shared.pools || (n == s.callers[t].network && s'.callers[t].stage.Installed?)
    requires s.callers[t].stage.Installed? ==> s.callers[t].network in s'.shared.mcAddr
    ensures EntriesComplete(s')
  {
    forall n <- s'.shared.pools | n !in s'.shared.mcAddr
      ensures exists u :: 0 <= u < |s'.callers| && s'.callers[u].stage.Installed? && s'.callers[u].network == n
    {
      if n in s.shared.pools {
        var u :| 0 <= u < |s.callers| && s.callers[u].stage.Installed? && s.callers[u].network == n;
        assert u != t;
        assert s'.callers[u] == s.callers[u];
      } else {
        assert s'.callers[t].stage.Installed?;
      }
    }
  }

  lemma {:induction false} RunKeepsInv(env: Env, actions: seq<Action>)
    ensures Inv(env, Run(env, actions))
  {
    if actions == [] {
    } else {
      var s := Run(env, actions[..|actions| - 1]);
      RunKeepsInv(env, actions[..|actions| - 1]);
      match actions[|actions| - 1]
      case Call(network) =>
        var s' := Step(env, s, Call(network));
        forall n <- s'.shared.pools | n !in s'.shared.mcAddr
          ensures exists u :: 0 <= u < |s'.callers| && s'.callers[u].stage.Installed? && s'.callers[u].network == n
        {
          var u :| 0 <= u < |s.callers| && s.callers[u].stage.Installed? && s.callers[u].network == n;
          assert s'.callers[u] == s.callers[u];
        }
      case Act(t, dialSucceeds) =>
        if t < |s.callers| {
          ActKeepsInv(env, s, t, dialSucceeds);
        }
    }
  }

  /** Over every interleaving of callers and dial failures: at most one pool is ever installed per
      network; every successful call for a network returns that very pool, with as many names as
      clients and at least one; and its multicall entry is then what resolveMulticall gives. */
  lemma OnePoolPerNetwork(env: Env, actions: seq<Action>)
    ensures var s := Run(env, actions);
            && (forall i, j :: 0 <= i < j < |s.shared.log| ==> s.shared.log[i].0 != s.shared.log[j].0)
            && (forall t, u :: 0 <= t < |s.callers| && 0 <= u < |s.callers|
                               && s.callers[t].stage.Returned? && s.callers[t].stage.result.Some?
                               && s.callers[u].stage.Returned? && s.callers[u].stage.result.Some?
                               && s.callers[t].network == s.callers[u].network
                               ==> s.callers[t].stage.result == s.callers[u].stage.result)
            && (forall t :: 0 <= t < |s.callers| && s.callers[t].stage.Returned? && s.callers[t].stage.result.Some? ==>
                  ProperPool(env, s.callers[t].network, s.callers[t].stage.result.value)
                  && s.callers[t].network in s.shared.mcAddr
                  && s.shared.mcAddr[s.callers[t].network] == env.resolve(s.callers[t].network))
  {
    var s := Run(env, actions);
    RunKeepsInv(env, actions);
    forall t | 0 <= t < |s.callers| && s.callers[t].stage.Returned? && s.callers[t].stage.result.Some?
      ensures s.callers[t].network in s.shared.pools
              && s.shared.pools[s.callers[t].network] == s.callers[t].stage.result.value
              && s.callers[t].network in s.shared.mcAddr
    {
      assert StageOk(env, s.shared, s.callers[t]);
    }
  }

  // ---- which endpoints a pool holds ---------------------------------------------------------------

  /** The endpoints whose dial succeeded, in order. */
  function Picked(urls: seq<string>, dials: seq<bool>): seq<string>
    requires |dials| <= |urls|
  {
    if dials == [] then []
    else
      var last := |dials| - 1;
      Picked(urls, dials[..last]) + if dials[last] then [urls[last]] else []
  }

  lemma PickedNext(urls: seq<string>, dials: seq<bool>, succeeds: bool)
    requires |dials| < |urls|
    ensures Picked(urls, dials + [succeeds]) == Picked(urls, dials) + if succeeds then [urls[|dials|]] else []
  {
    assert (dials + [succeeds])[..|dials|] == dials;
  }

  lemma {:induction false} PickedNone(urls: seq<string>, dials: seq<bool>)
    requires |dials| <= |urls|
    ensures Picked(urls, dials) == [] <==> forall i :: 0 <= i < |dials| ==> !dials[i]
  {
    if dials == [] {
    } else {
      PickedNone(urls, dials[..|dials| - 1]);
    }
  }

  /** A call dials the configured endpoints in turn, and fails only when none is left to use. */
  predicate DialsOk(env: Env, c: Caller) {
    var urls := env.config(c.network);
    && |c.dials| <= |urls|
    && match c.stage
       case Dialing(rest, clients, _) => rest == urls[|c.dials|..] && clients == Picked(urls, c.dials)
       case Installed(_) => |c.dials| == |urls|
       case Returned(None) => |c.dials| == |urls| && Picked(urls, c.dials) == []
       case Returned(Some(_)) => true
       case _ => c.dials == []
  }

  /** A pool holds what its installer's dials reached. */
  ghost predicate Sourced(env: Env, s: State) {
    forall n <- s.shared.pools ::
      var t := s.shared.pools[n].installedBy;
      && t < |s.callers| && s.callers[t].network == n && (s.callers[t].stage.Installed? || s.callers[t].stage.Returned?)
      && |s.callers[t].dials| == |env.config(n)|
      && s.shared.pools[n].clients == Picked(env.config(n), s.callers[t].dials)
  }

  ghost predicate DialInv(env: Env, s: State) {
    (forall t :: 0 <= t < |s.callers| ==> DialsOk(env, s.callers[t])) && Sourced(env, s)
  }

  /** One more dial. */
  lemma DialKeepsOk(env: Env, sh: Shared, c: Caller, t: nat, locked: bool, dialSucceeds: bool)
    requires DialsOk(env, c) && DialsNext(c)
    ensures DialsOk(env, Caller(c.network, Advance(env, sh, c, t, locked, dialSucceeds).1, c.dials + [dialSucceeds]))
  {
    var urls := env.config(c.network);
    PickedNext(urls, c.dials, dialSucceeds);
    assert c.stage.rest[0] == urls[|c.dials|] && c.stage.rest[1..] == urls[|c.dials| + 1..];
  }

  lemma OthersKeepOk(env: Env, sh: Shared, c: Caller, t: nat, locked: bool, dialSucceeds: bool)
    requires DialsOk(env, c) && !DialsNext(c)
    ensures DialsOk(env, Caller(c.network, Advance(env, sh, c, t, locked, dialSucceeds).1, c.dials))
  {
  }

  lemma AdvanceKeepsDials(env: Env, s: State, t: nat, dialSucceeds: bool)
    requires DialInv(env, s) && t < |s.callers|
    ensures DialsOk(env, Step(env, s, Act(t, dialSucceeds)).callers[t])
  {
    var c := s.callers[t];
    assert DialsOk(env, c);
    if DialsNext(c) {
      DialKeepsOk(env, s.shared, c, t, WriteLocked(s), dialSucceeds);
    } else {
      OthersKeepOk(env, s.shared, c, t, WriteLocked(s), dialSucceeds);
    }
  }

  lemma ActKeepsSources(env: Env, s: State, t: nat, dialSucceeds: bool)
    requires DialInv(env, s) && t < |s.callers|
    ensures Sourced(env, Step(env, s, Act(t, dialSucceeds)))
  {
    var c, s' := s.callers[t], Step(env, s, Act(t, dialSucceeds));
    assert DialsOk(env, c);
    forall n <- s'.shared.pools
      ensures var u := s'.shared.pools[n].installedBy;
              && u < |s'.callers| && s'.callers[u].network == n
              && (s'.callers[u].stage.Installed? || s'.callers[u].stage.Returned?)
              && |s'.callers[u].dials| == |env.config(n)|
              && s'.shared.pools[n].clients == Picked(env.config(n), s'.callers[u].dials) {
      if n in s.shared.pools && s'.shared.pools[n] == s.shared.pools[n] {
        var u := s.shared.pools[n].installedBy;
        assert u < |s.callers| && s.callers[u].network == n;
      }
    }
  }

  lemma {:induction false} RunKeepsDials(env: Env, actions: seq<Action>)
    ensures DialInv(env, Run(env, actions))
  {
    if actions == [] {
    } else {
      var s := Run(env, actions[..|actions| - 1]);
      RunKeepsDials(env, actions[..|actions| - 1]);
      match actions[|actions| - 1]
      case Call(_) =>
      case Act(t, dialSucceeds) =>
        if t < |s.callers| {
          AdvanceKeepsDials(env, s, t, dialSucceeds);
          ActKeepsSources(env, s, t, dialSucceeds);
        }
    }
  }

  /** A pool holds exactly the configured endpoints that its installer's dials reached, in order. */
  lemma PoolHoldsReached(env: Env, actions: seq<Action>, n: string)
    ensures var s := Run(env, actions);
            n in s.shared.pools ==>
              var t := s.shared.pools[n].installedBy;
              && t < |s.callers| && s.callers[t].network == n && |s.callers[t].dials| == |env.config(n)|
              && s.shared.pools[n].clients == Picked(env.config(n), s.callers[t].dials)
  {
    RunKeepsDials(env, actions);
  }

  /** A call fails only if its network has no endpoint configured or every dial it made failed. */
  lemma FailuresAreTotal(env: Env, actions: seq<Action>, t: nat)
    ensures var s := Run(env, actions);
            t < |s.callers| && s.callers[t].stage == Returned(None) ==>
              && |s.callers[t].dials| == |env.config(s.callers[t].network)|
              && forall i :: 0 <= i < |s.callers[t].dials| ==> !s.callers[t].dials[i]
  {
    var s := Run(env, actions);
    RunKeepsDials(env, actions);
    if t < |s.callers| && s.callers[t].stage == Returned(None) {
      PickedNone(env.config(s.callers[t].network), s.callers[t].dials);
    }
  }
}
