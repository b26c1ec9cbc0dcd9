/** Two calls for one wallet that do not, and two that do although one reads too early. */
module WalletRaces {
  import opened Positional
  import opened Transactions
  import opened WalletService
  import opened WalletTransactions
  import opened WalletUniqueness

  function Pair<Enc>(req: Request, tenant: Tenant<Enc>, tables: Tables, nextChain: nat, nextAddress: nat,
                     p: Stage, q: Stage): State<Enc> {
    State(tables, nextChain, nextAddress, [Session(req, tenant, p), Session(req, tenant, q)])
  }

  /** A canonical request whose derivations succeed. */
  ghost predicate Derivable<Enc>(d: Deriver<Enc>, req: Request, tenant: Tenant<Enc>) {
    && req.tenantId == tenant.id && d.lookup(req.chain).Some? && d.lookup(req.chain).value.name == req.chain
    && FreshAddress(d, tenant, req.chain, req.uniqueId).Some?
  }

  /** The rows of the wallet, whatever ids they get. */
  ghost predicate RowsOf<Enc>(d: Deriver<Enc>, req: Request, tenant: Tenant<Enc>, row: ChainRow, a: AddressRow) {
    && row.tenantId == tenant.id && row.chain == req.chain
    && FreshAddress(d, tenant, req.chain, req.uniqueId) == Some(a.address)
    && (forall stage, id :: NewChainRow(d, Session(req, tenant, stage), id) == Some(row.(id := id)))
    && (forall stage, k, id ::
          NewAddressRow(d, Session(req, tenant, stage), row.(id := k), id) == Some(a.(id := id, chainId := k)))
  }

  lemma DerivedRows<Enc>(d: Deriver<Enc>, req: Request, tenant: Tenant<Enc>) returns (row: ChainRow, a: AddressRow)
    requires Derivable(d, req, tenant)
    ensures RowsOf(d, req, tenant, row, a)
  {
    var def := d.lookup(req.chain).value;
    var account := d.chain(tenant.enc, tenant.id % UINT32, def.name).value;
    row := ChainRow(0, tenant.id, def.name, def.coinType, account.0, account.1);
    var leaf := d.address(tenant.enc, row.xpub, tenant.id % UINT32, req.uniqueId, row.chain).value;
    a := AddressRow(0, tenant.id, 0, req.uniqueId, leaf.0, leaf.1);
  }

  lemma AfterTwo<Enc>(d: Deriver<Enc>, prefix: seq<Action<Enc>>, a: Action<Enc>, b: Action<Enc>)
    ensures After(d, prefix + [a, b]) == Step(d, Step(d, After(d, prefix), a), b)
  {
    assert (prefix + [a, b])[..|prefix| + 1] == prefix + [a];
    assert (prefix + [a])[..|prefix|] == prefix;
  }

  /** Two equal requests start. */
  function BothStart<Enc>(req: Request, tenant: Tenant<Enc>): seq<Action<Enc>> {
    [] + [Start(req, tenant), Start(req, tenant)]
  }

  lemma BothStarted<Enc>(d: Deriver<Enc>, req: Request, tenant: Tenant<Enc>)
    requires Derivable(d, req, tenant)
    ensures After(d, BothStart(req, tenant)) == Pair(req, tenant, Tables([], []), 1, 1, Open, Open)
  {
    AfterTwo(d, [], Start(req, tenant), Start(req, tenant));
  }

  /** Both look for the chain, insert it, look for the address, insert it and commit, in turn. */
  function Race<Enc>(req: Request, tenant: Tenant<Enc>): seq<Action<Enc>> {
    BothStart(req, tenant) + [Act(0, true), Act(1, true)] + [Act(0, true), Act(1, true)] + [Act(0, true), Act(1, true)]
    + [Act(0, true), Act(1, true)] + [Finish(0, Acknowledged), Finish(1, Acknowledged)]
  }

  lemma BothRead<Enc>(d: Deriver<Enc>, req: Request, tenant: Tenant<Enc>, s: State<Enc>)
    requires Derivable(d, req, tenant) && s == Pair(req, tenant, Tables([], []), 1, 1, Open, Open)
    ensures var none := Tables([], []);
            && Step(d, s, Act(0, true)) == Pair(req, tenant, none, 1, 1, NoChain(none), Open)
            && Step(d, Step(d, s, Act(0, true)), Act(1, true))
               == Pair(req, tenant, none, 1, 1, NoChain(none), NoChain(none))
  {
  }

  lemma BothInsertChain<Enc>(d: Deriver<Enc>, req: Request, tenant: Tenant<Enc>, row: ChainRow, a: AddressRow)
    requires RowsOf(d, req, tenant, row, a)
    ensures var none := Tables([], []);
            Step(d, Step(d, Pair(req, tenant, none, 1, 1, NoChain(none), NoChain(none)), Act(0, true)), Act(1, true))
            == Pair(req, tenant, none, 3, 1, HasChain(none, true, row.(id := 1)), HasChain(none, true, row.(id := 2)))
  {
  }

  lemma BothMissAddress<Enc>(d: Deriver<Enc>, req: Request, tenant: Tenant<Enc>, r: ChainRow, q: ChainRow)
    ensures var none := Tables([], []);
            Step(d, Step(d, Pair(req, tenant, none, 3, 1, HasChain(none, true, r), HasChain(none, true, q)),
                         Act(0, true)), Act(1, true))
            == Pair(req, tenant, none, 3, 1, NoAddress(none, true, r, false), NoAddress(none, true, q, false))
  {
  }

  lemma BothInsertAddress<Enc>(d: Deriver<Enc>, req: Request, tenant: Tenant<Enc>, row: ChainRow, a: AddressRow,
                               r: ChainRow, q: ChainRow)
    requires RowsOf(d, req, tenant, row, a) && r == row.(id := 1) && q == row.(id := 2)
    ensures var none := Tables([], []);
            Step(d, Step(d, Pair(req, tenant, none, 3, 1, NoAddress(none, true, r, false),
                                 NoAddress(none, true, q, false)),
                         Act(0, true)), Act(1, true))
            == Pair(req, tenant, none, 3, 3, HasAddress(none, true, r, false, a.(id := 1, chainId := 1)),
                    HasAddress(none, true, q, false, a.(id := 2, chainId := 2)))
  {
  }

  lemma BothFinish<Enc>(d: Deriver<Enc>, req: Request, tenant: Tenant<Enc>, r: ChainRow, q: ChainRow, a: AddressRow,
                        b: AddressRow)
    requires r.id < q.id && a.id < b.id
    ensures var none := Tables([], []);
            Step(d, Step(d, Pair(req, tenant, none, 3, 3, HasAddress(none, true, r, false, a),
                                 HasAddress(none, true, q, false, b)),
                         Finish(0, Acknowledged)), Finish(1, Acknowledged))
            == Pair(req, tenant, Tables([r, q], [a, b]), 3, 3, Closed(Some((a.id, a.address))),
                    Closed(Some((b.id, b.address))))
  {
    assert WithChain([], r) == [r] && WithAddress([], a) == [a];
    assert WithChain([r], q) == [r, q] && WithAddress([a], b) == [a, b];
  }

  lemma RaceEnds<Enc>(d: Deriver<Enc>, req: Request, tenant: Tenant<Enc>, row: ChainRow, a: AddressRow)
    requires Derivable(d, req, tenant) && RowsOf(d, req, tenant, row, a)
    ensures After(d, Race(req, tenant))
            == Pair(req, tenant, Tables([row.(id := 1), row.(id := 2)],
                                        [a.(id := 1, chainId := 1), a.(id := 2, chainId := 2)]), 3, 3,
                    Closed(Some((1, a.address))), Closed(Some((2, a.address))))
  {
    var starts, both := BothStart(req, tenant), [Act(0, true), Act(1, true)];
    var r, q := row.(id := 1), row.(id := 2);
    BothStarted(d, req, tenant);
    AfterTwo(d, starts, Act(0, true), Act(1, true));
    BothRead(d, req, tenant, After(d, starts));
    AfterTwo(d, starts + both, Act(0, true), Act(1, true));
    BothInsertChain(d, req, tenant, row, a);
    AfterTwo(d, starts + both + both, Act(0, true), Act(1, true));
    BothMissAddress(d, req, tenant, r, q);
    AfterTwo(d, starts + both + both + both, Act(0, true), Act(1, true));
    BothInsertAddress(d, req, tenant, row, a, r, q);
    AfterTwo(d, starts + both + both + both + both, Finish(0, Acknowledged), Finish(1, Acknowledged));
    BothFinish(d, req, tenant, r, q, a.(id := 1, chainId := 1), a.(id := 2, chainId := 2));
  }

  /** Two concurrent calls for any wallet can both succeed with different ids, and leave two chain
      rows of one tenant and chain. */
  lemma TwoCallsDuplicate<Enc>(d: Deriver<Enc>, req: Request, tenant: Tenant<Enc>)
    requires Derivable(d, req, tenant)
    ensures var s, addr := After(d, Race(req, tenant)), FreshAddress(d, tenant, req.chain, req.uniqueId).value;
            && s.sessions == [Session(req, tenant, Closed(Some((1, addr)))),
                              Session(req, tenant, Closed(Some((2, addr))))]
            && |s.tables.chains| == 2
            && (forall r <- s.tables.chains :: r.tenantId == tenant.id && r.chain == req.chain)
            && !Unique(s.tables) && !EqualAnswers(s)
  {
    var row, a := DerivedRows(d, req, tenant);
    RaceEnds(d, req, tenant, row, a);
    var s := After(d, Race(req, tenant));
    assert row.(id := 1) in s.tables.chains && row.(id := 2) in s.tables.chains;
    assert SameWallet(s.sessions[0], s.sessions[1]);
  }

  /** Some other call has inserted, and not committed, a chain row of this call's tenant and chain. */
  ghost predicate RivalInserted<Enc>(s: State<Enc>, t: nat)
    requires t < |s.sessions|
  {
    exists u :: 0 <= u < |s.sessions| && u != t && MadeChain(s.sessions[u].stage)
                && Serves(s.sessions[t], s.sessions[u].stage.row)
  }

  /** Looking at the reads is not enough: in that race nothing had been inserted or committed when
      either call looked for the chain. */
  lemma ReadsDoNotTell<Enc>(d: Deriver<Enc>, req: Request, tenant: Tenant<Enc>)
    requires Derivable(d, req, tenant)
    ensures var s := After(d, BothStart(req, tenant));
            && |s.sessions| == 2 && s.sessions[0].stage == s.sessions[1].stage == Open
            && s.tables == Tables([], []) && !RivalInserted(s, 0)
    ensures var s := Step(d, After(d, BothStart(req, tenant)), Act(0, true));
            && |s.sessions| == 2 && s.sessions[1].stage == Open && s.tables == Tables([], []) && !RivalInserted(s, 1)
  {
    BothStarted(d, req, tenant);
    BothRead(d, req, tenant, After(d, BothStart(req, tenant)));
  }

  /** The first call is cut short after it has inserted the chain row and the second one has read. */
  function GivenUp<Enc>(req: Request, tenant: Tenant<Enc>): seq<Action<Enc>> {
    BothStart(req, tenant) + [Act(0, true), Act(0, true)] + [Act(1, true), Abort(0)] + [Act(1, true), Act(1, true)]
    + [Act(1, true), Finish(1, Acknowledged)]
  }

  lemma FirstInserts<Enc>(d: Deriver<Enc>, req: Request, tenant: Tenant<Enc>, row: ChainRow, a: AddressRow)
    requires RowsOf(d, req, tenant, row, a)
    ensures var none := Tables([], []);
            Step(d, Step(d, Pair(req, tenant, none, 1, 1, Open, Open), Act(0, true)), Act(0, true))
            == Pair(req, tenant, none, 2, 1, HasChain(none, true, row.(id := 1)), Open)
  {
  }

  lemma SecondReads<Enc>(d: Deriver<Enc>, req: Request, tenant: Tenant<Enc>, r: ChainRow)
    ensures var none := Tables([], []);
            Step(d, Step(d, Pair(req, tenant, none, 2, 1, HasChain(none, true, r), Open), Act(1, true)), Abort(0))
            == Pair(req, tenant, none, 2, 1, Closed(None), NoChain(none))
  {
  }

  lemma SecondInserts<Enc>(d: Deriver<Enc>, req: Request, tenant: Tenant<Enc>, row: ChainRow, a: AddressRow)
    requires RowsOf(d, req, tenant, row, a)
    ensures var none := Tables([], []);
            Step(d, Step(d, Pair(req, tenant, none, 2, 1, Closed(None), NoChain(none)), Act(1, true)), Act(1, true))
            == Pair(req, tenant, none, 3, 1, Closed(None), NoAddress(none, true, row.(id := 2), false))
  {
  }

  lemma SecondFinishes<Enc>(d: Deriver<Enc>, req: Request, tenant: Tenant<Enc>, row: ChainRow, a: AddressRow,
                            r: ChainRow, b: AddressRow)
    requires RowsOf(d, req, tenant, row, a) && r == row.(id := 2) && b == a.(id := 1, chainId := 2)
    ensures var none := Tables([], []);
            Step(d, Step(d, Pair(req, tenant, none, 3, 1, Closed(None), NoAddress(none, true, r, false)), Act(1, true)),
                 Finish(1, Acknowledged))
            == Pair(req, tenant, Tables([r], [b]), 3, 2, Closed(None), Closed(Some((1, a.address))))
  {
    assert WithChain([], r) == [r] && WithAddress([], b) == [b];
  }

  lemma FirstHasInserted<Enc>(d: Deriver<Enc>, req: Request, tenant: Tenant<Enc>, row: ChainRow, a: AddressRow)
    requires Derivable(d, req, tenant) && RowsOf(d, req, tenant, row, a)
    ensures var s := After(d, BothStart(req, tenant) + [Act(0, true), Act(0, true)]);
            && s == Pair(req, tenant, Tables([], []), 2, 1, HasChain(Tables([], []), true, row.(id := 1)), Open)
            && |s.sessions| == 2 && RivalInserted(s, 1)
  {
    BothStarted(d, req, tenant);
    AfterTwo(d, BothStart(req, tenant), Act(0, true), Act(0, true));
    FirstInserts(d, req, tenant, row, a);
    var s := After(d, BothStart(req, tenant) + [Act(0, true), Act(0, true)]);
    assert MadeChain(s.sessions[0].stage) && Serves(s.sessions[1], s.sessions[0].stage.row);
  }

  lemma GivenUpEnds<Enc>(d: Deriver<Enc>, req: Request, tenant: Tenant<Enc>, row: ChainRow, a: AddressRow)
    requires Derivable(d, req, tenant) && RowsOf(d, req, tenant, row, a)
    ensures After(d, GivenUp(req, tenant))
            == Pair(req, tenant, Tables([row.(id := 2)], [a.(id := 1, chainId := 2)]), 3, 2,
                    Closed(None), Closed(Some((1, a.address))))
  {
    var first := BothStart(req, tenant) + [Act(0, true), Act(0, true)];
    FirstHasInserted(d, req, tenant, row, a);
    AfterTwo(d, first, Act(1, true), Abort(0));
    SecondReads(d, req, tenant, row.(id := 1));
    AfterTwo(d, first + [Act(1, true), Abort(0)], Act(1, true), Act(1, true));
    SecondInserts(d, req, tenant, row, a);
    AfterTwo(d, first + [Act(1, true), Abort(0)] + [Act(1, true), Act(1, true)], Act(1, true), Finish(1, Acknowledged));
    SecondFinishes(d, req, tenant, row, a, row.(id := 2), a.(id := 1, chainId := 2));
  }

  /** Nor is every such read harmful: a call reads "none" while another one has inserted the row,
      that one is cut short, and nothing is duplicated. */
  lemma RolledBackRivalIsHarmless<Enc>(d: Deriver<Enc>, req: Request, tenant: Tenant<Enc>)
    requires Derivable(d, req, tenant)
    ensures var s := After(d, BothStart(req, tenant) + [Act(0, true), Act(0, true)]);
            |s.sessions| == 2 && s.sessions[1].stage == Open && RivalInserted(s, 1)
    ensures var s := After(d, GivenUp(req, tenant));
            && |s.sessions| == 2 && s.sessions[1].stage.Closed? && s.sessions[1].stage.result.Some?
            && Unique(s.tables) && EqualAnswers(s) && |s.tables.chains| == |s.tables.addresses| == 1
  {
    var row, a := DerivedRows(d, req, tenant);
    FirstHasInserted(d, req, tenant, row, a);
    GivenUpEnds(d, req, tenant, row, a);
  }
}
