/** Concurrent calls of the wallet service. Every call runs in a transaction of its own that sees
    a snapshot of the committed tables, taken at its first read, and its own writes; the tables
    have no unique key but the primary one, and rows are kept in primary-key order. */
module WalletTransactions {
  import opened Positional
  import opened Transactions
  import opened WalletService

  datatype Tables = Tables(chains: seq<ChainRow>, addresses: seq<AddressRow>)

  /** Where a call stands. `made` says that it inserted the chain row itself, `missed` that its
      address lookup failed, which the code takes for "no such address". */
  datatype Stage =
    | Open
    | NoChain(snap: Tables)
    | HasChain(snap: Tables, made: bool, row: ChainRow)
    | NoAddress(snap: Tables, made: bool, row: ChainRow, missed: bool)
    | HasAddress(snap: Tables, made: bool, row: ChainRow, missed: bool, a: AddressRow)
    | Closed(result: Option<(nat, string)>)

  datatype Session<Enc> = Session(req: Request, tenant: Tenant<Enc>, stage: Stage)

  /** Committed tables, auto-increment counters, and all calls so far. */
  datatype State<Enc> =
    State(tables: Tables, nextChain: nat, nextAddress: nat, sessions: seq<Session<Enc>>)

  /** A database operation may fail, and a call may be cut short anywhere. */
  datatype Action<Enc> =
    | Start(req: Request, tenant: Tenant<Enc>)
    | Act(t: nat, works: bool)
    | Finish(t: nat, commit: Commit)
    | Abort(t: nat)

  /** A row in its place by primary key. */
  function InsertBy<R>(rows: seq<R>, row: R, id: R -> nat): seq<R> {
    if rows == [] || id(rows[|rows| - 1]) < id(row) then rows + [row]
    else InsertBy(rows[..|rows| - 1], row, id) + [rows[|rows| - 1]]
  }

  function WithChain(chains: seq<ChainRow>, row: ChainRow): seq<ChainRow> {
    InsertBy(chains, row, (r: ChainRow) => r.id)
  }

  function WithAddress(addresses: seq<AddressRow>, a: AddressRow): seq<AddressRow> {
    InsertBy(addresses, a, (b: AddressRow) => b.id)
  }

  function SetStage<Enc>(s: State<Enc>, t: nat, stage: Stage): State<Enc>
    requires t < |s.sessions|
  {
    s.(sessions := s.sessions[t := s.sessions[t].(stage := stage)])
  }

  /** The next read or insertion of call t. */
  function Acted<Enc>(d: Deriver<Enc>, s: State<Enc>, t: nat, works: bool): State<Enc>
    requires t < |s.sessions|
  {
    var c := s.sessions[t];
    match c.stage
    case Open =>
      if !works then SetStage(s, t, Closed(None))
      else
        (match FirstChain(s.tables.chains, c.req.tenantId, c.req.chain)
         case Some(row) => SetStage(s, t, HasChain(s.tables, false, row))
         case None => SetStage(s, t, NoChain(s.tables)))
    case NoChain(snap) =>
      (match NewChainRow(d, c, s.nextChain)
       case Some(row) =>
         if works then SetStage(s, t, HasChain(snap, true, row)).(nextChain := s.nextChain + 1)
         else SetStage(s, t, Closed(None))
       case None => SetStage(s, t, Closed(None)))
    case HasChain(snap, made, row) =>
      (match FirstAddress(snap.addresses, c.tenant.id, row.id, c.req.uniqueId)
       case Some(a) =>
         if works && a.id != 0 then SetStage(s, t, Closed(Some((a.id, a.address))))
         else SetStage(s, t, NoAddress(snap, made, row, true))
       case None => SetStage(s, t, NoAddress(snap, made, row, !works)))
    case NoAddress(snap, made, row, missed) =>
      (match NewAddressRow(d, c, row, s.nextAddress)
       case Some(a) =>
         if works then SetStage(s, t, HasAddress(snap, made, row, missed, a)).(nextAddress := s.nextAddress + 1)
         else SetStage(s, t, Closed(None))
       case None => SetStage(s, t, Closed(None)))
    case HasAddress(_, _, _, _, _) => s
    case Closed(_) => s
  }

  function NewChainRow<Enc>(d: Deriver<Enc>, c: Session<Enc>, id: nat): Option<ChainRow> {
    match d.lookup(c.req.chain)
    case None => None
    case Some(def) =>
      match d.chain(c.tenant.enc, c.tenant.id % UINT32, def.name)
      case None => None
      case Some((xpub, path)) => Some(ChainRow(id, c.tenant.id, def.name, def.coinType, xpub, path))
  }

  function NewAddressRow<Enc>(d: Deriver<Enc>, c: Session<Enc>, row: ChainRow, id: nat): Option<AddressRow> {
    match d.address(c.tenant.enc, row.xpub, c.tenant.id % UINT32, c.req.uniqueId, row.chain)
    case None => None
    case Some((addr, path)) => Some(AddressRow(id, c.tenant.id, row.id, c.req.uniqueId, addr, path))
  }

  /** The tables once the rows of a session are stored. */
  function Stored(tables: Tables, stage: Stage): Tables
    requires stage.HasAddress?
  {
    Tables(if stage.made then WithChain(tables.chains, stage.row) else tables.chains,
           WithAddress(tables.addresses, stage.a))
  }

  /** What the caller is told. */
  function AnswerTo(a: AddressRow, commit: Commit): Option<(nat, string)> {
    if commit == Acknowledged then Some((a.id, a.address)) else None
  }

  function Finished<Enc>(s: State<Enc>, t: nat, commit: Commit): State<Enc>
    requires t < |s.sessions| && s.sessions[t].stage.HasAddress?
  {
    var stage := s.sessions[t].stage;
    var closed := SetStage(s, t, Closed(AnswerTo(stage.a, commit)));
    if commit == Refused then closed else closed.(tables := Stored(s.tables, stage))
  }

  /** An unknown chain ends the call before its transaction; an event that is not possible changes nothing. */
  function Step<Enc>(d: Deriver<Enc>, s: State<Enc>, a: Action<Enc>): State<Enc> {
    match a
    case Start(req, tenant) =>
      s.(sessions := s.sessions + [Session(req, tenant, if d.lookup(req.chain).Some? then Open else Closed(None))])
    case Act(t, works) => if t < |s.sessions| then Acted(d, s, t, works) else s
    case Finish(t, commit) =>
      if t < |s.sessions| && s.sessions[t].stage.HasAddress? then Finished(s, t, commit) else s
    case Abort(t) =>
      if t < |s.sessions| && !s.sessions[t].stage.Closed? then SetStage(s, t, Closed(None)) else s
  }

  function After<Enc>(d: Deriver<Enc>, actions: seq<Action<Enc>>): State<Enc> {
    if actions == [] then State(Tables([], []), 1, 1, [])
    else Step(d, After(d, actions[..|actions| - 1]), actions[|actions| - 1])
  }

  // ---- rows in order -------------------------------------------------------------------------

  ghost predicate Ordered<R(!new)>(rows: seq<R>, id: R -> nat) {
    forall i, j :: 0 <= i < j < |rows| ==> id(rows[i]) < id(rows[j])
  }

  ghost predicate FreshId<R(!new)>(rows: seq<R>, row: R, id: R -> nat) {
    forall r <- rows :: id(r) != id(row)
  }

  lemma {:induction false} InsertedRows<R(!new)>(rows: seq<R>, row: R, id: R -> nat)
    ensures forall r :: r in InsertBy(rows, row, id) <==> r in rows || r == row
  {
    if rows == [] {
    } else {
      var init, last := rows[..|rows| - 1], rows[|rows| - 1];
      assert rows == init + [last];
      InsertedRows(init, row, id);
    }
  }

  lemma {:induction false} InsertKeepsOrder<R(!new)>(rows: seq<R>, row: R, id: R -> nat)
    requires Ordered(rows, id) && FreshId(rows, row, id)
    ensures Ordered(InsertBy(rows, row, id), id)
  {
    if rows == [] || id(rows[|rows| - 1]) < id(row) {
    } else {
      var init, last := rows[..|rows| - 1], rows[|rows| - 1];
      InsertKeepsOrder(init, row, id);
      InsertedRows(init, row, id);
      var into := InsertBy(init, row, id);
      forall i | 0 <= i < |into| ensures id(into[i]) < id(last) {
        assert into[i] in into;
      }
    }
  }

  ghost predicate InOrder(tables: Tables) {
    Ordered(tables.chains, (r: ChainRow) => r.id) && Ordered(tables.addresses, (a: AddressRow) => a.id)
  }

  lemma SameById<R(!new)>(rows: seq<R>, r: R, q: R, id: R -> nat)
    requires Ordered(rows, id) && r in rows && q in rows && id(r) == id(q)
    ensures r == q
  {
  }

  lemma SameChain(tables: Tables, r: ChainRow, q: ChainRow)
    requires InOrder(tables) && r in tables.chains && q in tables.chains && r.id == q.id
    ensures r == q
  {
    SameById(tables.chains, r, q, (x: ChainRow) => x.id);
  }

  // ---- what every interleaving keeps ------------------------------------------------------------

  /** A snapshot is part of what is committed later. */
  ghost predicate Within(snap: Tables, tables: Tables) {
    (forall r <- snap.chains :: r in tables.chains) && (forall a <- snap.addresses :: a in tables.addresses)
  }

  /** A chain row of this session's tenant and chain. */
  predicate Serves<Enc>(c: Session<Enc>, r: ChainRow) {
    r.tenantId == c.tenant.id && r.chain == c.req.chain
  }

  /** The committed rows behind an answer. */
  ghost predicate Recorded<Enc>(d: Deriver<Enc>, masters: nat -> Enc, tables: Tables, c: Session<Enc>, r: ChainRow,
                                a: AddressRow) {
    && r in tables.chains && a in tables.addresses
    && Serves(c, r) && AddressBelow(d, masters, r, a) && a.index == c.req.uniqueId
  }

  ghost predicate ChainInHand<Enc>(d: Deriver<Enc>, masters: nat -> Enc, s: State<Enc>, c: Session<Enc>, snap: Tables,
                                   made: bool, row: ChainRow) {
    && Within(snap, s.tables)
    && Serves(c, row) && ChainCached(d, masters, row) && 0 < row.id < s.nextChain
    && (if made then NoneServes(c, snap) else row in snap.chains)
  }

  ghost predicate NoneServes<Enc>(c: Session<Enc>, snap: Tables) {
    forall r <- snap.chains :: !Serves(c, r)
  }

  /** No visible address of this wallet, unless the lookup failed. */
  ghost predicate NoneFound<Enc>(c: Session<Enc>, snap: Tables, row: ChainRow, missed: bool) {
    !missed ==> forall a <- snap.addresses ::
                  a.tenantId != c.tenant.id || a.chainId != row.id || a.index != c.req.uniqueId
  }

  predicate MadeChain(stage: Stage) {
    (stage.HasChain? || stage.NoAddress? || stage.HasAddress?) && stage.made
  }

  /** The rows a session has inserted are not among the committed ones. */
  ghost predicate Unstored(tables: Tables, stage: Stage) {
    && (MadeChain(stage) ==> forall r <- tables.chains :: r.id != stage.row.id)
    && (stage.HasAddress? ==> forall b <- tables.addresses :: b.id != stage.a.id)
  }

  ghost predicate StageOk<Enc>(d: Deriver<Enc>, masters: nat -> Enc, s: State<Enc>, c: Session<Enc>) {
    match c.stage
    case Open => true
    case NoChain(snap) => Within(snap, s.tables) && NoneServes(c, snap)
    case HasChain(snap, made, row) => ChainInHand(d, masters, s, c, snap, made, row)
    case NoAddress(snap, made, row, missed) =>
      ChainInHand(d, masters, s, c, snap, made, row) && NoneFound(c, snap, row, missed)
    case HasAddress(snap, made, row, missed, a) =>
      && ChainInHand(d, masters, s, c, snap, made, row) && NoneFound(c, snap, row, missed)
      && AddressBelow(d, masters, row, a) && a.index == c.req.uniqueId && 0 < a.id < s.nextAddress
    case Closed(Some((id, addr))) =>
      exists r, a :: Recorded(d, masters, s.tables, c, r, a) && a.id == id && a.address == addr
    case Closed(None) => true
  }

  ghost predicate SessionOk<Enc>(d: Deriver<Enc>, masters: nat -> Enc, s: State<Enc>, c: Session<Enc>) {
    Canonical(d, masters, c.req, c.tenant) && Unstored(s.tables, c.stage) && StageOk(d, masters, s, c)
  }

  /** Uncommitted rows of different sessions have different ids. */
  predicate Apart(p: Stage, q: Stage) {
    && (MadeChain(p) && MadeChain(q) ==> p.row.id != q.row.id)
    && (p.HasAddress? && q.HasAddress? ==> p.a.id != q.a.id)
  }

  ghost predicate AllApart<Enc>(sessions: seq<Session<Enc>>) {
    forall t, u :: 0 <= t < |sessions| && 0 <= u < |sessions| && t != u ==> Apart(sessions[t].stage, sessions[u].stage)
  }

  ghost predicate TablesOk<Enc>(d: Deriver<Enc>, masters: nat -> Enc, s: State<Enc>) {
    && s.nextChain > 0 && s.nextAddress > 0 && InOrder(s.tables)
    && (forall r <- s.tables.chains :: 0 < r.id < s.nextChain && ChainCached(d, masters, r))
    && (forall a <- s.tables.addresses :: 0 < a.id < s.nextAddress && AddressCached(d, masters, s.tables.chains, a))
  }

  ghost predicate Consistent<Enc>(d: Deriver<Enc>, masters: nat -> Enc, s: State<Enc>) {
    && TablesOk(d, masters, s)
    && (forall t :: 0 <= t < |s.sessions| ==> SessionOk(d, masters, s, s.sessions[t]))
    && AllApart(s.sessions)
  }

  /** s' is s after session t moved on, with tables and counters that only grew. */
  ghost predicate Moved<Enc>(s: State<Enc>, s': State<Enc>, t: nat) {
    && t < |s.sessions| == |s'.sessions| && s'.sessions == s.sessions[t := s'.sessions[t]]
    && Within(s.tables, s'.tables) && s'.nextChain >= s.nextChain && s'.nextAddress >= s.nextAddress
  }

  lemma SessionKept<Enc>(d: Deriver<Enc>, masters: nat -> Enc, s: State<Enc>, s': State<Enc>, c: Session<Enc>)
    requires SessionOk(d, masters, s, c) && Unstored(s'.tables, c.stage)
    requires Within(s.tables, s'.tables) && s'.nextChain >= s.nextChain && s'.nextAddress >= s.nextAddress
    ensures SessionOk(d, masters, s', c)
  {
    match c.stage
    case Closed(Some((id, addr))) =>
      var r, a :| Recorded(d, masters, s.tables, c, r, a) && a.id == id && a.address == addr;
      assert Recorded(d, masters, s'.tables, c, r, a);
    case _ =>
  }

  lemma MoveKeeps<Enc>(d: Deriver<Enc>, masters: nat -> Enc, s: State<Enc>, s': State<Enc>, t: nat)
    requires Consistent(d, masters, s) && Moved(s, s', t)
    requires TablesOk(d, masters, s') && SessionOk(d, masters, s', s'.sessions[t])
    requires forall u :: 0 <= u < |s.sessions| && u != t ==>
               Apart(s.sessions[u].stage, s'.sessions[t].stage) && Unstored(s'.tables, s.sessions[u].stage)
    ensures Consistent(d, masters, s')
  {
    forall u | 0 <= u < |s'.sessions| ensures SessionOk(d, masters, s', s'.sessions[u]) {
      if u != t {
        SessionKept(d, masters, s, s', s.sessions[u]);
      }
    }
  }

  /** Steps that read or insert leave the tables alone. */
  lemma StageKeeps<Enc>(d: Deriver<Enc>, masters: nat -> Enc, s: State<Enc>, s': State<Enc>, t: nat)
    requires Consistent(d, masters, s) && Moved(s, s', t) && s'.tables == s.tables
    requires SessionOk(d, masters, s', s'.sessions[t])
    requires MadeChain(s'.sessions[t].stage) ==>
               (MadeChain(s.sessions[t].stage) && s'.sessions[t].stage.row.id == s.sessions[t].stage.row.id)
               || s'.sessions[t].stage.row.id >= s.nextChain
    requires s'.sessions[t].stage.HasAddress? ==> s'.sessions[t].stage.a.id >= s.nextAddress
    ensures Consistent(d, masters, s')
  {
    forall u | 0 <= u < |s.sessions| && u != t
      ensures Apart(s.sessions[u].stage, s'.sessions[t].stage) && Unstored(s'.tables, s.sessions[u].stage) {
      assert SessionOk(d, masters, s, s.sessions[u]);
      assert Apart(s.sessions[u].stage, s.sessions[t].stage);
    }
    MoveKeeps(d, masters, s, s', t);
  }

  lemma OpenKeeps<Enc>(d: Deriver<Enc>, masters: nat -> Enc, s: State<Enc>, t: nat, works: bool)
    requires Consistent(d, masters, s) && t < |s.sessions| && s.sessions[t].stage.Open?
    ensures Consistent(d, masters, Acted(d, s, t, works))
  {
    var c := s.sessions[t];
    assert SessionOk(d, masters, s, c);
    FirstChainSound(s.tables.chains, c.tenant.id, c.req.chain);
    StageKeeps(d, masters, s, Acted(d, s, t, works), t);
  }

  lemma NoChainKeeps<Enc>(d: Deriver<Enc>, masters: nat -> Enc, s: State<Enc>, t: nat, works: bool)
    requires Consistent(d, masters, s) && t < |s.sessions| && s.sessions[t].stage.NoChain?
    ensures Consistent(d, masters, Acted(d, s, t, works))
  {
    var c := s.sessions[t];
    assert SessionOk(d, masters, s, c);
    StageKeeps(d, masters, s, Acted(d, s, t, works), t);
  }

  /** The address a call finds was stored under the chain row it has in hand. */
  lemma FoundIsRecorded<Enc>(d: Deriver<Enc>, masters: nat -> Enc, s: State<Enc>, c: Session<Enc>, a: AddressRow)
    requires TablesOk(d, masters, s) && SessionOk(d, masters, s, c) && c.stage.HasChain?
    requires FirstAddress(c.stage.snap.addresses, c.tenant.id, c.stage.row.id, c.req.uniqueId) == Some(a)
    ensures Recorded(d, masters, s.tables, c, c.stage.row, a)
  {
    FirstAddressSound(c.stage.snap.addresses, c.tenant.id, c.stage.row.id, c.req.uniqueId);
    assert AddressCached(d, masters, s.tables.chains, a);
    var r :| r in s.tables.chains && AddressBelow(d, masters, r, a);
    if !c.stage.made {
      SameChain(s.tables, r, c.stage.row);
    }
  }

  lemma HasChainKeeps<Enc>(d: Deriver<Enc>, masters: nat -> Enc, s: State<Enc>, t: nat, works: bool)
    requires Consistent(d, masters, s) && t < |s.sessions| && s.sessions[t].stage.HasChain?
    ensures Consistent(d, masters, Acted(d, s, t, works))
  {
    var c, s' := s.sessions[t], Acted(d, s, t, works);
    var snap, row := c.stage.snap, c.stage.row;
    assert SessionOk(d, masters, s, c);
    FirstAddressSound(snap.addresses, c.tenant.id, row.id, c.req.uniqueId);
    match FirstAddress(snap.addresses, c.tenant.id, row.id, c.req.uniqueId) {
      case Some(a) =>
        FoundIsRecorded(d, masters, s, c, a);
        assert Recorded(d, masters, s'.tables, s'.sessions[t], row, a);
      case None =>
    }
    StageKeeps(d, masters, s, s', t);
  }

  lemma NoAddressKeeps<Enc>(d: Deriver<Enc>, masters: nat -> Enc, s: State<Enc>, t: nat, works: bool)
    requires Consistent(d, masters, s) && t < |s.sessions| && s.sessions[t].stage.NoAddress?
    ensures Consistent(d, masters, Acted(d, s, t, works))
  {
    var c := s.sessions[t];
    assert SessionOk(d, masters, s, c);
    StageKeeps(d, masters, s, Acted(d, s, t, works), t);
  }

  /** The tables after a session's rows are stored. */
  lemma StoredRows<Enc>(d: Deriver<Enc>, masters: nat -> Enc, s: State<Enc>, t: nat)
    requires Consistent(d, masters, s) && t < |s.sessions| && s.sessions[t].stage.HasAddress?
    ensures var stage := s.sessions[t].stage;
            && InOrder(Stored(s.tables, stage))
            && (forall r ::
                  r in Stored(s.tables, stage).chains <==> r in s.tables.chains || (stage.made && r == stage.row))
            && (forall b :: b in Stored(s.tables, stage).addresses <==> b in s.tables.addresses || b == stage.a)
  {
    var stage := s.sessions[t].stage;
    assert SessionOk(d, masters, s, s.sessions[t]);
    InsertedRows(s.tables.addresses, stage.a, (b: AddressRow) => b.id);
    InsertKeepsOrder(s.tables.addresses, stage.a, (b: AddressRow) => b.id);
    InsertedRows(s.tables.chains, stage.row, (r: ChainRow) => r.id);
    if stage.made {
      InsertKeepsOrder(s.tables.chains, stage.row, (r: ChainRow) => r.id);
    }
  }

  lemma StoredTablesOk<Enc>(d: Deriver<Enc>, masters: nat -> Enc, s: State<Enc>, t: nat, s': State<Enc>)
    requires Consistent(d, masters, s) && t < |s.sessions| && s.sessions[t].stage.HasAddress?
    requires s'.tables == Stored(s.tables, s.sessions[t].stage)
    requires s'.nextChain == s.nextChain && s'.nextAddress == s.nextAddress
    ensures TablesOk(d, masters, s') && Within(s.tables, s'.tables)
    ensures s.sessions[t].stage.row in s'.tables.chains && s.sessions[t].stage.a in s'.tables.addresses
  {
    var stage := s.sessions[t].stage;
    StoredRows(d, masters, s, t);
    assert SessionOk(d, masters, s, s.sessions[t]);
    forall b <- s'.tables.addresses ensures AddressCached(d, masters, s'.tables.chains, b) {
      if b == stage.a {
        assert AddressBelow(d, masters, stage.row, b);
      } else {
        var r :| r in s.tables.chains && AddressBelow(d, masters, r, b);
        assert r in s'.tables.chains;
      }
    }
  }

  lemma FinishKeeps<Enc>(d: Deriver<Enc>, masters: nat -> Enc, s: State<Enc>, t: nat, commit: Commit)
    requires Consistent(d, masters, s) && t < |s.sessions| && s.sessions[t].stage.HasAddress?
    ensures Consistent(d, masters, Finished(s, t, commit))
  {
    var c, s' := s.sessions[t], Finished(s, t, commit);
    assert SessionOk(d, masters, s, c);
    if commit.Refused? {
      StageKeeps(d, masters, s, s', t);
    } else {
      StoredTablesOk(d, masters, s, t, s');
      StoredRows(d, masters, s, t);
      assert Recorded(d, masters, s'.tables, s'.sessions[t], c.stage.row, c.stage.a);
      forall u | 0 <= u < |s.sessions| && u != t
        ensures Apart(s.sessions[u].stage, s'.sessions[t].stage) && Unstored(s'.tables, s.sessions[u].stage) {
        assert SessionOk(d, masters, s, s.sessions[u]);
        assert Apart(s.sessions[u].stage, c.stage);
      }
      MoveKeeps(d, masters, s, s', t);
    }
  }

  lemma StepKeepsConsistent<Enc>(d: Deriver<Enc>, masters: nat -> Enc, s: State<Enc>, a: Action<Enc>)
    requires Consistent(d, masters, s) && (a.Start? ==> Canonical(d, masters, a.req, a.tenant))
    ensures Consistent(d, masters, Step(d, s, a))
  {
    match a
    case Start(req, tenant) => StartKeeps(d, masters, s, req, tenant);
    case Act(t, works) =>
      if t < |s.sessions| {
        match s.sessions[t].stage
        case Open => OpenKeeps(d, masters, s, t, works);
        case NoChain(_) => NoChainKeeps(d, masters, s, t, works);
        case HasChain(_, _, _) => HasChainKeeps(d, masters, s, t, works);
        case NoAddress(_, _, _, _) => NoAddressKeeps(d, masters, s, t, works);
        case _ =>
      }
    case Finish(t, commit) =>
      if t < |s.sessions| && s.sessions[t].stage.HasAddress? {
        FinishKeeps(d, masters, s, t, commit);
      }
    case Abort(t) =>
      if t < |s.sessions| && !s.sessions[t].stage.Closed? {
        assert SessionOk(d, masters, s, s.sessions[t]);
        StageKeeps(d, masters, s, Step(d, s, a), t);
      }
  }

  lemma StartKeeps<Enc>(d: Deriver<Enc>, masters: nat -> Enc, s: State<Enc>, req: Request, tenant: Tenant<Enc>)
    requires Consistent(d, masters, s) && Canonical(d, masters, req, tenant)
    ensures Consistent(d, masters, Step(d, s, Start(req, tenant)))
  {
    var s' := Step(d, s, Start(req, tenant));
    forall u | 0 <= u < |s'.sessions| ensures SessionOk(d, masters, s', s'.sessions[u]) {
      if u < |s.sessions| {
        SessionKept(d, masters, s, s', s.sessions[u]);
      }
    }
  }

  ghost predicate CanonicalStarts<Enc>(d: Deriver<Enc>, masters: nat -> Enc, actions: seq<Action<Enc>>) {
    forall a <- actions :: a.Start? ==> Canonical(d, masters, a.req, a.tenant)
  }

  /** Whatever interleaves or fails, every committed row caches the derivation functions, and every
      answer given is recorded in the committed tables. */
  lemma {:induction false} RunIsConsistent<Enc>(d: Deriver<Enc>, masters: nat -> Enc, actions: seq<Action<Enc>>)
    requires CanonicalStarts(d, masters, actions)
    ensures Consistent(d, masters, After(d, actions))
  {
    if actions == [] {
    } else {
      RunIsConsistent(d, masters, actions[..|actions| - 1]);
      StepKeepsConsistent(d, masters, After(d, actions[..|actions| - 1]), actions[|actions| - 1]);
    }
  }

  /** An answer given by any call of any interleaving is the address derived from scratch. */
  lemma AnswerIsDerived<Enc>(d: Deriver<Enc>, masters: nat -> Enc, actions: seq<Action<Enc>>, t: nat)
    requires CanonicalStarts(d, masters, actions) && t < |After(d, actions).sessions|
    ensures var c := After(d, actions).sessions[t];
            c.stage.Closed? && c.stage.result.Some? ==>
              FreshAddress(d, c.tenant, c.req.chain, c.req.uniqueId) == Some(c.stage.result.value.1)
  {
    var s := After(d, actions);
    var c := s.sessions[t];
    RunIsConsistent(d, masters, actions);
    assert SessionOk(d, masters, s, c);
    if c.stage.Closed? && c.stage.result.Some? {
      var (id, addr) := c.stage.result.value;
      var r, a :| Recorded(d, masters, s.tables, c, r, a) && a.id == id && a.address == addr;
      assert ChainCached(d, masters, r);
    }
  }

  predicate SameWallet<Enc>(c: Session<Enc>, e: Session<Enc>) {
    c.tenant.id == e.tenant.id && c.req.chain == e.req.chain && c.req.uniqueId == e.req.uniqueId
  }

  /** Under every interleaving, and even when lookups fail, all answers for one wallet name the
      same address. */
  lemma AddressesAgree<Enc>(d: Deriver<Enc>, masters: nat -> Enc, actions: seq<Action<Enc>>, t: nat, u: nat)
    requires CanonicalStarts(d, masters, actions)
    requires t < |After(d, actions).sessions| && u < |After(d, actions).sessions|
    ensures var c, e := After(d, actions).sessions[t], After(d, actions).sessions[u];
            SameWallet(c, e) && c.stage.Closed? && e.stage.Closed? && c.stage.result.Some? && e.stage.result.Some?
            ==> c.stage.result.value.1 == e.stage.result.value.1
  {
    var s := After(d, actions);
    RunIsConsistent(d, masters, actions);
    assert SessionOk(d, masters, s, s.sessions[t]) && SessionOk(d, masters, s, s.sessions[u]);
    AnswerIsDerived(d, masters, actions, t);
    AnswerIsDerived(d, masters, actions, u);
  }
}
