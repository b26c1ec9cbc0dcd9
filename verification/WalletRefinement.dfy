/** The atomic call of the wallet service is a session that nobody interrupts. */
module WalletRefinement {
  import opened Positional
  import opened Transactions
  import opened WalletService
  import opened WalletTransactions

  function WorksAt(f: Faults, stage: Stage): bool {
    match stage
    case Open => !f.chainReadFails
    case NoChain(_) => !f.chainSaveFails
    case HasChain(_, _, _) => !f.addressReadFails
    case NoAddress(_, _, _, _) => !f.addressSaveFails
    case _ => true
  }

  /** n steps of session t and of nobody else, with the given faults. */
  function Alone<Enc>(d: Deriver<Enc>, s: State<Enc>, t: nat, n: nat, f: Faults): State<Enc>
    requires t < |s.sessions|
    decreases n
  {
    if n == 0 then s else Alone(d, Acted(d, s, t, WorksAt(f, s.sessions[t].stage)), t, n - 1, f)
  }

  lemma AloneNext<Enc>(d: Deriver<Enc>, s: State<Enc>, t: nat, n: nat, f: Faults)
    requires t < |s.sessions|
    ensures Alone(d, s, t, n + 1, f) == Alone(d, Acted(d, s, t, WorksAt(f, s.sessions[t].stage)), t, n, f)
  {
  }

  function StoreOf<Enc>(s: State<Enc>): Store {
    Store(s.tables.chains, s.tables.addresses, s.nextChain, s.nextAddress)
  }

  lemma InsertLast<R(!new)>(rows: seq<R>, row: R, id: R -> nat)
    requires forall r <- rows :: id(r) < id(row)
    ensures InsertBy(rows, row, id) == rows + [row]
  {
  }

  lemma EndedStays<Enc>(d: Deriver<Enc>, s: State<Enc>, t: nat, n: nat, f: Faults)
    requires t < |s.sessions| && (s.sessions[t].stage.Closed? || s.sessions[t].stage.HasAddress?)
    ensures Alone(d, s, t, n, f) == s
    decreases n
  {
    if n == 0 {
    } else {
      EndedStays(d, s, t, n - 1, f);
    }
  }

  /** A call on its own: its start, its reads and insertions, and its commit. */
  function AloneCall<Enc>(d: Deriver<Enc>, s: State<Enc>, req: Request, tenant: Tenant<Enc>, f: Faults): State<Enc> {
    var started := Step(d, s, Start(req, tenant));
    Step(d, Alone(d, started, |s.sessions|, 4, f), Finish(|s.sessions|, f.commit))
  }

  /** s with one more session at the given stage. */
  function Joined<Enc>(s: State<Enc>, req: Request, tenant: Tenant<Enc>, nextChain: nat, nextAddress: nat,
                       stage: Stage): State<Enc> {
    State(s.tables, nextChain, nextAddress, s.sessions + [Session(req, tenant, stage)])
  }

  /** Reading the chain, and inserting it when there is none, gives the chain row the service works with. */
  lemma AloneObtains<Enc>(d: Deriver<Enc>, s: State<Enc>, req: Request, tenant: Tenant<Enc>, f: Faults)
    returns (n: nat, stage: Stage)
    requires d.lookup(req.chain).Some?
    ensures n <= 2
    ensures var (tx, row) := ObtainChain(d, StoreOf(s), req, tenant, d.lookup(req.chain).value, f);
            && tx.addresses == s.tables.addresses && tx.nextAddress == s.nextAddress
            && stage == (if row.Some? then HasChain(s.tables, tx.chains != s.tables.chains, row.value)
               else Closed(None))
            && tx.chains == (if row.Some? && stage.made then s.tables.chains + [row.value] else s.tables.chains)
            && (row.Some? && stage.made ==> row.value.id == s.nextChain)
            && Alone(d, Step(d, s, Start(req, tenant)), |s.sessions|, n, f)
               == Joined(s, req, tenant, tx.nextChain, s.nextAddress, stage)
  {
    var t := |s.sessions|;
    var s0 := Step(d, s, Start(req, tenant));
    assert s0 == Joined(s, req, tenant, s.nextChain, s.nextAddress, Open);
    AloneNext(d, s0, t, 0, f);
    var s1 := Acted(d, s0, t, !f.chainReadFails);
    if f.chainReadFails || FirstChain(s.tables.chains, req.tenantId, req.chain).Some? {
      n, stage := 1, s1.sessions[t].stage;
    } else {
      assert s1 == Joined(s, req, tenant, s.nextChain, s.nextAddress, NoChain(s.tables));
      AloneNext(d, s0, t, 1, f);
      AloneNext(d, s1, t, 0, f);
      n, stage := 2, Acted(d, s1, t, !f.chainSaveFails).sessions[t].stage;
    }
  }

  /** What the address lookup and insertion leave. */
  lemma AloneAnswers<Enc>(d: Deriver<Enc>, s: State<Enc>, req: Request, tenant: Tenant<Enc>, f: Faults, nextChain: nat,
                          made: bool, row: ChainRow) returns (stage: Stage)
    ensures var found := if f.addressReadFails then None
                         else FirstAddress(s.tables.addresses, tenant.id, row.id, req.uniqueId);
            var hit := found.Some? && found.value.id != 0;
            var leaf := d.address(tenant.enc, row.xpub, tenant.id % UINT32, req.uniqueId, row.chain);
            var a := if leaf.None? || f.addressSaveFails then None
                     else Some(AddressRow(s.nextAddress, tenant.id, row.id, req.uniqueId, leaf.value.0, leaf.value.1));
            && (hit ==> stage == Closed(Some((found.value.id, found.value.address))))
            && (!hit && a.None? ==> stage == Closed(None))
            && (!hit && a.Some? ==> stage.HasAddress? && stage.made == made && stage.row == row && stage.a == a.value)
            && Alone(d, Joined(s, req, tenant, nextChain, s.nextAddress, HasChain(s.tables, made, row)),
                     |s.sessions|, 2, f)
               == Joined(s, req, tenant, nextChain, if !hit && a.Some? then s.nextAddress + 1 else s.nextAddress, stage)
  {
    var t, s1 := |s.sessions|, Joined(s, req, tenant, nextChain, s.nextAddress, HasChain(s.tables, made, row));
    AloneNext(d, s1, t, 1, f);
    var s2 := Acted(d, s1, t, !f.addressReadFails);
    assert s2 == Joined(s, req, tenant, nextChain, s.nextAddress, s2.sessions[t].stage);
    if s2.sessions[t].stage.Closed? {
      EndedStays(d, s2, t, 1, f);
      stage := s2.sessions[t].stage;
    } else {
      AloneNext(d, s2, t, 0, f);
      stage := Acted(d, s2, t, !f.addressSaveFails).sessions[t].stage;
    }
  }

  lemma {:induction false} AloneAppend<Enc>(d: Deriver<Enc>, s: State<Enc>, t: nat, n: nat, m: nat, f: Faults)
    requires t < |s.sessions|
    ensures |Alone(d, s, t, n, f).sessions| == |s.sessions|
    ensures Alone(d, s, t, n + m, f) == Alone(d, Alone(d, s, t, n, f), t, m, f)
    decreases n
  {
    if n == 0 {
    } else {
      var next := Acted(d, s, t, WorksAt(f, s.sessions[t].stage));
      AloneAppend(d, next, t, n - 1, m, f);
      AloneNext(d, s, t, n - 1, f);
      AloneNext(d, s, t, n - 1 + m, f);
    }
  }

  /** The tables' ids are below the counters, so new rows come last. */
  ghost predicate IdsBelow<Enc>(s: State<Enc>) {
    (forall r <- s.tables.chains :: r.id < s.nextChain) && (forall a <- s.tables.addresses :: a.id < s.nextAddress)
  }

  lemma AloneFinishes<Enc>(s: State<Enc>, req: Request, tenant: Tenant<Enc>, nextChain: nat, nextAddress: nat,
                           stage: Stage, commit: Commit)
    requires IdsBelow(s) && stage.HasAddress? && stage.a.id == s.nextAddress
             && (stage.made ==> stage.row.id == s.nextChain)
    ensures var s' := Finished(Joined(s, req, tenant, nextChain, nextAddress, stage), |s.sessions|, commit);
            && s'.tables == (if commit.Refused? then s.tables
                             else Tables(if stage.made then s.tables.chains + [stage.row] else s.tables.chains,
                                         s.tables.addresses + [stage.a]))
            && s'.nextChain == nextChain && s'.nextAddress == nextAddress
            && s'.sessions == s.sessions + [Session(req, tenant, Closed(AnswerTo(stage.a, commit)))]
  {
    InsertLast(s.tables.addresses, stage.a, (b: AddressRow) => b.id);
    if stage.made {
      InsertLast(s.tables.chains, stage.row, (r: ChainRow) => r.id);
    }
  }

  /** The four steps of a call that nobody interrupts. */
  lemma AloneSteps<Enc>(d: Deriver<Enc>, s: State<Enc>, req: Request, tenant: Tenant<Enc>, f: Faults)
    returns (s': State<Enc>, stage: Stage)
    requires d.lookup(req.chain).Some?
    ensures s' == Alone(d, Step(d, s, Start(req, tenant)), |s.sessions|, 4, f)
    ensures var (tx, row) := ObtainChain(d, StoreOf(s), req, tenant, d.lookup(req.chain).value, f);
            && s'.tables == s.tables && s'.nextChain == tx.nextChain
               && s'.sessions == s.sessions + [Session(req, tenant, stage)]
            && (row.None? ==> stage == Closed(None) && s'.nextAddress == s.nextAddress)
            && (row.Some? ==>
                  var found := if f.addressReadFails then None
                               else FirstAddress(tx.addresses, tenant.id, row.value.id, req.uniqueId);
                  var leaf := d.address(tenant.enc, row.value.xpub, tenant.id % UINT32, req.uniqueId, row.value.chain);
                  if found.Some? && found.value.id != 0 then
                    stage == Closed(Some((found.value.id, found.value.address))) && s'.nextAddress == s.nextAddress
                  else if leaf.None? || f.addressSaveFails then stage == Closed(None) && s'.nextAddress == s.nextAddress
                  else
                    && stage.HasAddress? && stage.row == row.value && stage.made == (tx.chains != s.tables.chains)
                    && stage.a == AddressRow(s.nextAddress, tenant.id, row.value.id, req.uniqueId, leaf.value.0,
                                             leaf.value.1)
                    && s'.nextAddress == s.nextAddress + 1)
  {
    var t, s0 := |s.sessions|, Step(d, s, Start(req, tenant));
    var n, held := AloneObtains(d, s, req, tenant, f);
    AloneAppend(d, s0, t, n, 4 - n, f);
    var s1 := Alone(d, s0, t, n, f);
    s', stage := Alone(d, s1, t, 4 - n, f), held;
    if held.Closed? {
      EndedStays(d, s1, t, 4 - n, f);
    } else {
      stage := AloneAnswers(d, s, req, tenant, f, s1.nextChain, held.made, held.row);
      AloneAppend(d, s1, t, 2, 2 - n, f);
      EndedStays(d, Alone(d, s1, t, 2, f), t, 2 - n, f);
    }
  }

  lemma AloneCloses<Enc>(d: Deriver<Enc>, s: State<Enc>, req: Request, tenant: Tenant<Enc>, f: Faults,
                         s': State<Enc>, stage: Stage)
    requires s' == Alone(d, Step(d, s, Start(req, tenant)), |s.sessions|, 4, f)
    requires s'.tables == s.tables && s'.sessions == s.sessions + [Session(req, tenant, stage)] && IdsBelow(s)
    requires stage.Closed? || stage.HasAddress?
    requires stage.HasAddress? ==> stage.a.id == s.nextAddress && (stage.made ==> stage.row.id == s.nextChain)
    ensures var after := AloneCall(d, s, req, tenant, f);
            && after.nextChain == s'.nextChain && after.nextAddress == s'.nextAddress
            && (stage.Closed? ==> after == s')
            && (stage.HasAddress? ==>
                  && after.tables == (if f.commit.Refused? then s.tables
                                      else Tables(if stage.made then s.tables.chains + [stage.row] else s.tables.chains,
                                                  s.tables.addresses + [stage.a]))
                  && after.sessions == s.sessions + [Session(req, tenant, Closed(AnswerTo(stage.a, f.commit)))])
  {
    assert s' == Joined(s, req, tenant, s'.nextChain, s'.nextAddress, stage);
    if stage.HasAddress? {
      AloneFinishes(s, req, tenant, s'.nextChain, s'.nextAddress, stage, f.commit);
    }
  }

  /** The atomic call of the service is the uninterrupted run of one session, with every fault. */
  lemma AloneIsCreated<Enc>(d: Deriver<Enc>, s: State<Enc>, req: Request, tenant: Tenant<Enc>, f: Faults)
    requires IdsBelow(s) && !f.badKdf
    ensures var out, s' := Created(d, StoreOf(s), req, tenant, f), AloneCall(d, s, req, tenant, f);
            StoreOf(s') == out.store && s'.sessions == s.sessions + [Session(req, tenant, Closed(out.result))]
  {
    if d.lookup(req.chain).None? {
      EndedStays(d, Step(d, s, Start(req, tenant)), |s.sessions|, 4, f);
    } else {
      var s', stage := AloneSteps(d, s, req, tenant, f);
      AloneCloses(d, s, req, tenant, f, s', stage);
    }
  }
}
