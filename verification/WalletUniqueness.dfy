/** When concurrent calls of the wallet service keep wallets unique. */
module WalletUniqueness {
  import opened Positional
  import opened Transactions
  import opened WalletService
  import opened WalletTransactions

  ghost predicate Unique(tables: Tables) {
    && (forall r, q ::
          r in tables.chains && q in tables.chains && r.tenantId == q.tenantId && r.chain == q.chain ==> r == q)
    && (forall a, b :: a in tables.addresses && b in tables.addresses && a.chainId == b.chainId && a.index == b.index
                       ==> a == b)
  }

  /** All answers for one wallet are the same, id included. */
  ghost predicate EqualAnswers<Enc>(s: State<Enc>) {
    forall t, u :: 0 <= t < |s.sessions| && 0 <= u < |s.sessions| && SameWallet(s.sessions[t], s.sessions[u])
                   && s.sessions[t].stage.Closed? && s.sessions[t].stage.result.Some?
                   && s.sessions[u].stage.Closed? && s.sessions[u].stage.result.Some?
                   ==> s.sessions[t].stage == s.sessions[u].stage
  }

  predicate SameAddress<Enc>(c: Session<Enc>, row: ChainRow, a: AddressRow) {
    a.chainId == row.id && a.index == c.req.uniqueId
  }

  /** Another call has committed, since this call's snapshot, a row of a key this call inserted. */
  ghost predicate Overtaken<Enc>(tables: Tables, c: Session<Enc>)
    requires c.stage.HasAddress?
  {
    || (c.stage.made && exists r :: r in tables.chains && r !in c.stage.snap.chains && Serves(c, r))
    || (exists a :: a in tables.addresses && a !in c.stage.snap.addresses && SameAddress(c, c.stage.row, a))
  }

  /** The address was in this call's snapshot all the time, but the lookup failed. */
  ghost predicate Blind<Enc>(c: Session<Enc>)
    requires c.stage.HasAddress?
  {
    c.stage.missed && exists a :: a in c.stage.snap.addresses && SameAddress(c, c.stage.row, a)
  }

  /** No call commits when it has been overtaken or was blind. */
  ghost predicate Timely<Enc>(s: State<Enc>, a: Action<Enc>) {
    a.Finish? && a.t < |s.sessions| && s.sessions[a.t].stage.HasAddress? && a.commit != Refused
    ==> !Overtaken(s.tables, s.sessions[a.t]) && !Blind(s.sessions[a.t])
  }

  /** Without being overtaken or blind, no committed row has a key the call inserted. */
  lemma TimelyKeysAreFree<Enc>(d: Deriver<Enc>, masters: nat -> Enc, s: State<Enc>, c: Session<Enc>)
    requires TablesOk(d, masters, s) && SessionOk(d, masters, s, c) && c.stage.HasAddress?
    requires !Overtaken(s.tables, c) && !Blind(c)
    ensures c.stage.made ==> forall r <- s.tables.chains :: !Serves(c, r)
    ensures forall b <- s.tables.addresses :: !SameAddress(c, c.stage.row, b)
  {
    var snap, row := c.stage.snap, c.stage.row;
    forall b <- s.tables.addresses ensures !SameAddress(c, row, b) {
      if b in snap.addresses && SameAddress(c, row, b) {
        var r :| r in s.tables.chains && AddressBelow(d, masters, r, b);
        if !c.stage.made {
          SameChain(s.tables, r, row);
        }
      }
    }
  }

  lemma TimelyKeepsUnique<Enc>(d: Deriver<Enc>, masters: nat -> Enc, s: State<Enc>, t: nat)
    requires Consistent(d, masters, s) && Unique(s.tables) && t < |s.sessions| && s.sessions[t].stage.HasAddress?
    requires !Overtaken(s.tables, s.sessions[t]) && !Blind(s.sessions[t])
    ensures Unique(Stored(s.tables, s.sessions[t].stage))
  {
    assert SessionOk(d, masters, s, s.sessions[t]);
    TimelyKeysAreFree(d, masters, s, s.sessions[t]);
    StoredRows(d, masters, s, t);
  }

  lemma UniqueIsTimely<Enc>(d: Deriver<Enc>, masters: nat -> Enc, s: State<Enc>, t: nat)
    requires Consistent(d, masters, s) && t < |s.sessions| && s.sessions[t].stage.HasAddress?
    requires Unique(Stored(s.tables, s.sessions[t].stage))
    ensures !Overtaken(s.tables, s.sessions[t]) && !Blind(s.sessions[t])
  {
    var c := s.sessions[t];
    assert SessionOk(d, masters, s, c);
    StoredRows(d, masters, s, t);
    var tables := Stored(s.tables, c.stage);
    forall a <- s.tables.addresses ensures !SameAddress(c, c.stage.row, a) {
      assert a in tables.addresses && c.stage.a in tables.addresses;
    }
    forall r <- s.tables.chains | c.stage.made ensures !Serves(c, r) {
      assert r in tables.chains && c.stage.row in tables.chains;
    }
  }

  lemma StepKeepsUnique<Enc>(d: Deriver<Enc>, masters: nat -> Enc, s: State<Enc>, a: Action<Enc>)
    requires Consistent(d, masters, s) && Unique(s.tables)
    ensures Unique(Step(d, s, a).tables) <==> Timely(s, a)
  {
    if a.Finish? && a.t < |s.sessions| && s.sessions[a.t].stage.HasAddress? && a.commit != Refused {
      if Timely(s, a) {
        TimelyKeepsUnique(d, masters, s, a.t);
      }
      if Unique(Step(d, s, a).tables) {
        UniqueIsTimely(d, masters, s, a.t);
      }
    } else {
      assert Step(d, s, a).tables == s.tables;
    }
  }

  lemma UniqueGivesEqualAnswers<Enc>(d: Deriver<Enc>, masters: nat -> Enc, s: State<Enc>)
    requires Consistent(d, masters, s) && Unique(s.tables)
    ensures EqualAnswers(s)
  {
    forall t, u | 0 <= t < |s.sessions| && 0 <= u < |s.sessions| && SameWallet(s.sessions[t], s.sessions[u])
                  && s.sessions[t].stage.Closed? && s.sessions[t].stage.result.Some?
                  && s.sessions[u].stage.Closed? && s.sessions[u].stage.result.Some?
      ensures s.sessions[t].stage == s.sessions[u].stage {
      var c, e := s.sessions[t], s.sessions[u];
      assert SessionOk(d, masters, s, c) && SessionOk(d, masters, s, e);
      var r, a :| Recorded(d, masters, s.tables, c, r, a)
                  && a.id == c.stage.result.value.0 && a.address == c.stage.result.value.1;
      var q, b :| Recorded(d, masters, s.tables, e, q, b)
                  && b.id == e.stage.result.value.0 && b.address == e.stage.result.value.1;
      assert r == q;
      assert a == b;
    }
  }

  ghost predicate AlwaysUnique<Enc>(d: Deriver<Enc>, actions: seq<Action<Enc>>) {
    forall n :: 0 <= n <= |actions| ==> Unique(After(d, actions[..n]).tables) && EqualAnswers(After(d, actions[..n]))
  }

  ghost predicate AlwaysTimely<Enc>(d: Deriver<Enc>, actions: seq<Action<Enc>>) {
    forall n :: 0 <= n < |actions| ==> Timely(After(d, actions[..n]), actions[n])
  }

  lemma NextState<Enc>(d: Deriver<Enc>, actions: seq<Action<Enc>>, n: nat)
    requires n < |actions|
    ensures After(d, actions[..n + 1]) == Step(d, After(d, actions[..n]), actions[n])
  {
    assert actions[..n + 1][..n] == actions[..n];
  }

  lemma {:induction false} TimelyRunIsUnique<Enc>(d: Deriver<Enc>, masters: nat -> Enc, actions: seq<Action<Enc>>,
                                                  n: nat)
    requires CanonicalStarts(d, masters, actions) && AlwaysTimely(d, actions) && n <= |actions|
    ensures Unique(After(d, actions[..n]).tables)
  {
    if n == 0 {
    } else {
      TimelyRunIsUnique(d, masters, actions, n - 1);
      RunIsConsistent(d, masters, actions[..n - 1]);
      NextState(d, actions, n - 1);
      StepKeepsUnique(d, masters, After(d, actions[..n - 1]), actions[n - 1]);
    }
  }

  /** The exact condition for concurrent calls: at every moment of a run the rows are unique and all
      answers for one wallet are equal, if and only if no call commits a row after another call has
      committed one of the same key outside its snapshot, or after a failed lookup that hid one. */
  lemma UniqueIffTimely<Enc>(d: Deriver<Enc>, masters: nat -> Enc, actions: seq<Action<Enc>>)
    requires CanonicalStarts(d, masters, actions)
    ensures AlwaysUnique(d, actions) <==> AlwaysTimely(d, actions)
  {
    if AlwaysTimely(d, actions) {
      forall n | 0 <= n <= |actions|
        ensures Unique(After(d, actions[..n]).tables) && EqualAnswers(After(d, actions[..n])) {
        TimelyRunIsUnique(d, masters, actions, n);
        RunIsConsistent(d, masters, actions[..n]);
        UniqueGivesEqualAnswers(d, masters, After(d, actions[..n]));
      }
    }
    if AlwaysUnique(d, actions) {
      forall n | 0 <= n < |actions| ensures Timely(After(d, actions[..n]), actions[n]) {
        assert Unique(After(d, actions[..n]).tables);
        assert Unique(After(d, actions[..n + 1]).tables);
        RunIsConsistent(d, masters, actions[..n]);
        NextState(d, actions, n);
        StepKeepsUnique(d, masters, After(d, actions[..n]), actions[n]);
      }
    }
  }

  // ---- a condition callers can meet -------------------------------------------------------------

  predicate Reading(stage: Stage) {
    !stage.Open? && !stage.Closed?
  }

  /** No call stores its rows while another one of the same tenant and chain is between its first
      read and its end, and no address lookup fails. */
  ghost predicate Serial<Enc>(s: State<Enc>, a: Action<Enc>) {
    match a
    case Finish(t, commit) =>
      t < |s.sessions| && s.sessions[t].stage.HasAddress? && commit != Refused ==>
        forall u :: 0 <= u < |s.sessions| && u != t && Reading(s.sessions[u].stage) ==>
          s.sessions[u].tenant.id != s.sessions[t].tenant.id || s.sessions[u].req.chain != s.sessions[t].req.chain
    case Act(t, works) => t < |s.sessions| && s.sessions[t].stage.HasChain? ==> works
    case _ => true
  }

  /** The session's snapshot is still all there is for its tenant and chain. */
  ghost predicate UpToDate<Enc>(tables: Tables, c: Session<Enc>) {
    Reading(c.stage) ==>
      && (forall r <- tables.chains :: Serves(c, r) ==> r in c.stage.snap.chains)
      && (!c.stage.NoChain? ==>
            forall a <- tables.addresses :: a.chainId == c.stage.row.id ==> a in c.stage.snap.addresses)
      && (c.stage.NoAddress? || c.stage.HasAddress? ==> !c.stage.missed)
  }

  ghost predicate AllUpToDate<Enc>(s: State<Enc>) {
    forall t :: 0 <= t < |s.sessions| ==> UpToDate(s.tables, s.sessions[t])
  }

  lemma NoAddressUnderNewRow<Enc>(d: Deriver<Enc>, masters: nat -> Enc, s: State<Enc>, a: AddressRow)
    requires TablesOk(d, masters, s) && a in s.tables.addresses
    ensures a.chainId < s.nextChain
  {
    assert AddressCached(d, masters, s.tables.chains, a);
  }

  lemma ActStaysUpToDate<Enc>(d: Deriver<Enc>, masters: nat -> Enc, s: State<Enc>, t: nat, works: bool)
    requires Consistent(d, masters, s) && AllUpToDate(s) && t < |s.sessions|
    requires s.sessions[t].stage.HasChain? ==> works
    ensures AllUpToDate(Acted(d, s, t, works))
  {
    var c := s.sessions[t];
    assert SessionOk(d, masters, s, c) && UpToDate(s.tables, c);
    forall a <- s.tables.addresses ensures a.chainId < s.nextChain {
      NoAddressUnderNewRow(d, masters, s, a);
    }
    if c.stage.HasChain? {
      FirstAddressSound(c.stage.snap.addresses, c.tenant.id, c.stage.row.id, c.req.uniqueId);
    }
  }

  /** Two sessions that hold the same chain row work for the same tenant and chain. */
  lemma SharedRow<Enc>(d: Deriver<Enc>, masters: nat -> Enc, s: State<Enc>, t: nat, u: nat)
    requires Consistent(d, masters, s) && t < |s.sessions| && u < |s.sessions| && t != u
    requires s.sessions[t].stage.HasAddress?
    requires Reading(s.sessions[u].stage) && !s.sessions[u].stage.NoChain?
    requires s.sessions[u].stage.row.id == s.sessions[t].stage.row.id
    ensures s.sessions[u].tenant.id == s.sessions[t].tenant.id && s.sessions[u].req.chain == s.sessions[t].req.chain
  {
    assert SessionOk(d, masters, s, s.sessions[t]) && SessionOk(d, masters, s, s.sessions[u]);
    assert Apart(s.sessions[t].stage, s.sessions[u].stage);
    SameChain(s.tables, s.sessions[t].stage.row, s.sessions[u].stage.row);
  }

  lemma FinishStaysUpToDate<Enc>(d: Deriver<Enc>, masters: nat -> Enc, s: State<Enc>, t: nat, commit: Commit)
    requires Consistent(d, masters, s) && AllUpToDate(s) && t < |s.sessions| && s.sessions[t].stage.HasAddress?
    requires Serial(s, Finish(t, commit))
    ensures AllUpToDate(Finished(s, t, commit))
  {
    var s' := Finished(s, t, commit);
    StoredRows(d, masters, s, t);
    assert SessionOk(d, masters, s, s.sessions[t]);
    forall u | 0 <= u < |s'.sessions| ensures UpToDate(s'.tables, s'.sessions[u]) {
      if u != t && Reading(s.sessions[u].stage) && commit != Refused {
        assert UpToDate(s.tables, s.sessions[u]);
        if !s.sessions[u].stage.NoChain? && s.sessions[u].stage.row.id == s.sessions[t].stage.row.id {
          SharedRow(d, masters, s, t, u);
        }
      } else {
        assert UpToDate(s.tables, s.sessions[u]);
      }
    }
  }

  lemma SerialStepIsTimely<Enc>(d: Deriver<Enc>, masters: nat -> Enc, s: State<Enc>, a: Action<Enc>)
    requires Consistent(d, masters, s) && AllUpToDate(s) && Serial(s, a)
    ensures Timely(s, a) && AllUpToDate(Step(d, s, a))
  {
    match a
    case Start(_, _) =>
    case Act(t, works) =>
      if t < |s.sessions| {
        ActStaysUpToDate(d, masters, s, t, works);
      }
    case Finish(t, commit) =>
      if t < |s.sessions| && s.sessions[t].stage.HasAddress? {
        assert UpToDate(s.tables, s.sessions[t]);
        FinishStaysUpToDate(d, masters, s, t, commit);
      }
    case Abort(_) =>
  }

  ghost predicate AlwaysSerial<Enc>(d: Deriver<Enc>, actions: seq<Action<Enc>>) {
    forall n :: 0 <= n < |actions| ==> Serial(After(d, actions[..n]), actions[n])
  }

  lemma {:induction false} SerialRunStaysUpToDate<Enc>(d: Deriver<Enc>, masters: nat -> Enc,
                                                       actions: seq<Action<Enc>>, n: nat)
    requires CanonicalStarts(d, masters, actions) && AlwaysSerial(d, actions) && n <= |actions|
    ensures AllUpToDate(After(d, actions[..n]))
  {
    if n == 0 {
    } else {
      SerialRunStaysUpToDate(d, masters, actions, n - 1);
      RunIsConsistent(d, masters, actions[..n - 1]);
      NextState(d, actions, n - 1);
      SerialStepIsTimely(d, masters, After(d, actions[..n - 1]), actions[n - 1]);
    }
  }

  /** Calls of different tenants or chains may interleave freely: if only the calls of one tenant
      and chain do not overlap, wallets are unique and all answers for one wallet are equal. */
  lemma SerialRunsAreUnique<Enc>(d: Deriver<Enc>, masters: nat -> Enc, actions: seq<Action<Enc>>)
    requires CanonicalStarts(d, masters, actions) && AlwaysSerial(d, actions)
    ensures AlwaysUnique(d, actions)
  {
    forall n | 0 <= n < |actions| ensures Timely(After(d, actions[..n]), actions[n]) {
      SerialRunStaysUpToDate(d, masters, actions, n);
      RunIsConsistent(d, masters, actions[..n]);
      SerialStepIsTimely(d, masters, After(d, actions[..n]), actions[n]);
    }
    UniqueIffTimely(d, masters, actions);
  }
}
