/** The get-or-create wallet service: two tables that cache the derivation functions, written
    inside one transaction per call. Here calls are atomic; the module WalletTransactions
    interleaves them. */
module WalletService {
  import opened Positional
  import opened KeyDerivation
  import opened Transactions

  const SUPPORTED: seq<ChainDef> := [
    ChainDef("ETH", 60), ChainDef("BSC", 60), ChainDef("OP", 60), ChainDef("ARB", 60), ChainDef("POLYGON", 60),
    ChainDef("TRON", 195), ChainDef("SOLANA", 501), ChainDef("BSC_TESTNET", 60)]

  function FirstNamed(defs: seq<ChainDef>, name: string): (r: Option<ChainDef>)
    ensures r.Some? ==> r.value.name == name && r.value in defs
    ensures r.None? ==> forall def <- defs :: def.name != name
  {
    if defs == [] then None
    else if defs[0].name == name then Some(defs[0])
    else FirstNamed(defs[1..], name)
  }

  /** The alias "arbitrum" stands for ARB. */
  function CheckValidChainCode(code: string): (r: Option<ChainDef>)
    ensures r.Some? ==> r.value in SUPPORTED && r.value.name == if code == "arbitrum" then "ARB" else code
    ensures r.None? ==> forall def <- SUPPORTED :: def.name != if code == "arbitrum" then "ARB" else code
  {
    FirstNamed(SUPPORTED, if code == "arbitrum" then "ARB" else code)
  }

  /** The registry, written out. */
  lemma KnownChains()
    ensures SUPPORTED[..5] == [ChainDef("ETH", 60), ChainDef("BSC", 60), ChainDef("OP", 60), ChainDef("ARB", 60),
                               ChainDef("POLYGON", 60)]
    ensures SUPPORTED[5..] == [ChainDef("TRON", 195), ChainDef("SOLANA", 501), ChainDef("BSC_TESTNET", 60)]
    ensures CheckValidChainCode("ETH") == Some(ChainDef("ETH", 60))
    ensures CheckValidChainCode("arbitrum") == Some(ChainDef("ARB", 60))
  {
    assert |"arbitrum"| == 8 && |"ETH"| == 3 && |"ARB"| == 3 && "ETH"[0] == 'E' && "ARB"[0] == 'A';
  }

  // ---- rows ---------------------------------------------------------------------------

  /** Rows are kept in primary-key order, which is the order in which First looks at them. */
  datatype ChainRow = ChainRow(id: nat, tenantId: nat, chain: string, coinType: nat, xpub: string, path: string)
  datatype AddressRow = AddressRow(id: nat, tenantId: nat, chainId: nat, index: nat, address: string, path: string)

  /** Committed tables and the auto-increment counters, which rollback does not turn back. */
  datatype Store = Store(chains: seq<ChainRow>, addresses: seq<AddressRow>, nextChain: nat, nextAddress: nat)

  datatype Request = Request(tenantId: nat, uniqueId: nat, chain: string)
  datatype Tenant<Enc> = Tenant(id: nat, enc: Enc)

  /** The chain registry, and the derivation functions of a tenant's encrypted master. */
  datatype Deriver<!Enc> = Deriver(
    lookup: string -> Option<ChainDef>,
    chain: (Enc, nat, string) -> Option<(string, string)>,
    address: (Enc, string, nat, nat, string) -> Option<(string, string)>)

  datatype Faults = Faults(badKdf: bool, chainReadFails: bool, chainSaveFails: bool, addressReadFails: bool,
                           addressSaveFails: bool, commit: Commit)

  const NO_FAULTS: Faults := Faults(false, false, false, false, false, Acknowledged)

  function FirstChain(rows: seq<ChainRow>, tenantId: nat, chain: string): Option<ChainRow> {
    if rows == [] then None
    else if rows[0].tenantId == tenantId && rows[0].chain == chain then Some(rows[0])
    else FirstChain(rows[1..], tenantId, chain)
  }

  function FirstAddress(rows: seq<AddressRow>, tenantId: nat, chainId: nat, index: nat): Option<AddressRow> {
    if rows == [] then None
    else if rows[0].tenantId == tenantId && rows[0].chainId == chainId && rows[0].index == index then Some(rows[0])
    else FirstAddress(rows[1..], tenantId, chainId, index)
  }

  lemma {:induction false} FirstChainSound(rows: seq<ChainRow>, tenantId: nat, chain: string)
    ensures match FirstChain(rows, tenantId, chain)
            case Some(r) => r in rows && r.tenantId == tenantId && r.chain == chain
            case None => forall r <- rows :: r.tenantId != tenantId || r.chain != chain
  {
    if rows == [] {
    } else {
      FirstChainSound(rows[1..], tenantId, chain);
    }
  }

  lemma {:induction false} FirstAddressSound(rows: seq<AddressRow>, tenantId: nat, chainId: nat, index: nat)
    ensures match FirstAddress(rows, tenantId, chainId, index)
            case Some(r) => r in rows && r.tenantId == tenantId && r.chainId == chainId && r.index == index
            case None => forall r <- rows :: r.tenantId != tenantId || r.chainId != chainId || r.index != index
  {
    if rows == [] {
    } else {
      FirstAddressSound(rows[1..], tenantId, chainId, index);
    }
  }

  lemma {:induction false} FirstChainAppend(rows: seq<ChainRow>, row: ChainRow, tenantId: nat, chain: string)
    ensures FirstChain(rows + [row], tenantId, chain)
            == if FirstChain(rows, tenantId, chain).Some? then FirstChain(rows, tenantId, chain)
               else if row.tenantId == tenantId && row.chain == chain then Some(row) else None
  {
    if rows == [] {
      assert (rows + [row])[1..] == [];
    } else {
      assert (rows + [row])[1..] == rows[1..] + [row];
      FirstChainAppend(rows[1..], row, tenantId, chain);
    }
  }

  lemma {:induction false} FirstAddressAppend(rows: seq<AddressRow>, row: AddressRow, tenantId: nat, chainId: nat,
                                              index: nat)
    ensures FirstAddress(rows + [row], tenantId, chainId, index)
            == if FirstAddress(rows, tenantId, chainId, index).Some? then FirstAddress(rows, tenantId, chainId, index)
               else if row.tenantId == tenantId && row.chainId == chainId && row.index == index then Some(row) else None
  {
    if rows == [] {
      assert (rows + [row])[1..] == [];
    } else {
      assert (rows + [row])[1..] == rows[1..] + [row];
      FirstAddressAppend(rows[1..], row, tenantId, chainId, index);
    }
  }

  // ---- one call -------------------------------------------------------------------------

  /** The chain row a call works with: the stored one, or one just inserted by its transaction. */
  function ObtainChain<Enc>(d: Deriver<Enc>, s: Store, req: Request, tenant: Tenant<Enc>, def: ChainDef,
                            f: Faults): (Store, Option<ChainRow>) {
    if f.chainReadFails then (s, None)
    else match FirstChain(s.chains, req.tenantId, req.chain)
         case Some(row) => (s, Some(row))
         case None =>
           match d.chain(tenant.enc, tenant.id % UINT32, def.name)
           case None => (s, None)
           case Some((xpub, path)) =>
             if f.chainSaveFails then (s, None)
             else
               var row := ChainRow(s.nextChain, tenant.id, def.name, def.coinType, xpub, path);
               (s.(chains := s.chains + [row], nextChain := s.nextChain + 1), Some(row))
  }

  datatype Outcome = Outcome(store: Store, result: Option<(nat, string)>, leftOpen: bool)

  /** Back to the committed tables; the counters stay where the transaction left them. */
  function RolledBack(before: Store, tx: Store): Outcome {
    Outcome(tx.(chains := before.chains, addresses := before.addresses), None, false)
  }

  /** The branch that finds the address marks itself committed without committing: its
      transaction is left open and whatever it wrote stays invisible. */
  function Created<Enc>(d: Deriver<Enc>, s: Store, req: Request, tenant: Tenant<Enc>, f: Faults): Outcome {
    match d.lookup(req.chain)
    case None => Outcome(s, None, false)
    case Some(def) =>
      if f.badKdf then Outcome(s, None, false) else
      var (tx, chain) := ObtainChain(d, s, req, tenant, def, f);
      match chain
      case None => RolledBack(s, tx)
      case Some(row) =>
        var found := if f.addressReadFails then None else FirstAddress(tx.addresses, tenant.id, row.id, req.uniqueId);
        if found.Some? && found.value.id != 0 then
          Outcome(RolledBack(s, tx).store, Some((found.value.id, found.value.address)), true)
        else match d.address(tenant.enc, row.xpub, tenant.id % UINT32, req.uniqueId, row.chain)
             case None => RolledBack(s, tx)
             case Some((addr, path)) =>
               if f.addressSaveFails then RolledBack(s, tx)
               else
                 var a := AddressRow(tx.nextAddress, tenant.id, row.id, req.uniqueId, addr, path);
                 var tx' := tx.(addresses := tx.addresses + [a],
                                nextAddress := tx.nextAddress + 1);
                 if f.commit == Refused then RolledBack(s, tx')
                 else Outcome(tx', if f.commit == Acknowledged then Some((tx.nextAddress, addr)) else None, false)
  }

  class Service {
    var store: Store

    constructor ()
      ensures store == Store([], [], 1, 1)
    {
      store := Store([], [], 1, 1);
    }

    /** Finds or inserts the chain row, in the transaction's own view of the tables. */
    method TenantChain<Enc>(d: Deriver<Enc>, req: Request, tenant: Tenant<Enc>, def: ChainDef, f: Faults)
      returns (tx: Store, chain: Option<ChainRow>)
      ensures (tx, chain) == ObtainChain(d, store, req, tenant, def, f)
    {
      tx := store;
      if f.chainReadFails {
        return tx, None;
      }
      chain := FirstChain(tx.chains, req.tenantId, req.chain);
      if chain.None? {
        var path := d.chain(tenant.enc, tenant.id % UINT32, def.name);
        if path.None? {
          return tx, None;
        }
        if f.chainSaveFails {
          return tx, None;
        }
        var row := ChainRow(tx.nextChain, tenant.id, def.name, def.coinType, path.value.0, path.value.1);
        tx := tx.(chains := tx.chains + [row], nextChain := tx.nextChain + 1);
        chain := Some(row);
      }
    }

    /** The deferred rollback: the tables stay as committed, used-up ids stay used up. */
    method Rollback(tx: Store)
      modifies this
      ensures store == RolledBack(old(store), tx).store
    {
      store := tx.(chains := store.chains, addresses := store.addresses);
    }

    method WalletCreate<Enc>(d: Deriver<Enc>, req: Request, tenant: Tenant<Enc>, f: Faults)
      returns (r: Option<(nat, string)>, leftOpen: bool)
      modifies this
      ensures Outcome(store, r, leftOpen) == Created(d, old(store), req, tenant, f)
    {
      var def := d.lookup(req.chain);
      if def.None? {
        return None, false;
      }
      if f.badKdf {
        return None, false;
      }
      var tx, chain := TenantChain(d, req, tenant, def.value, f);
      if chain.None? {
        Rollback(tx);
        return None, false;
      }
      var found := if f.addressReadFails then None
                   else FirstAddress(tx.addresses, tenant.id, chain.value.id, req.uniqueId);
      if found.Some? && found.value.id != 0 {
        Rollback(tx);
        return Some((found.value.id, found.value.address)), true;
      }
      var addr := d.address(tenant.enc, chain.value.xpub, tenant.id % UINT32, req.uniqueId, chain.value.chain);
      if addr.None? || f.addressSaveFails {
        Rollback(tx);
        return None, false;
      }
      var row := AddressRow(tx.nextAddress, tenant.id, chain.value.id, req.uniqueId, addr.value.0, addr.value.1);
      tx := tx.(addresses := tx.addresses + [row], nextAddress := tx.nextAddress + 1);
      if f.commit == Refused {
        Rollback(tx);
        return None, false;
      }
      store := tx;
      if f.commit == Unacknowledged {
        return None, false;
      }
      return Some((row.id, row.address)), false;
    }
  }

  /** An error return leaves both tables as they were, for every request and every fault, unless
      the commit was unacknowledged; then they are what the acknowledged call would have left. An
      unknown chain, a bad key setting and a failed first read are such errors. */
  lemma ErrorsAreAtomic<Enc>(d: Deriver<Enc>, s: Store, req: Request, tenant: Tenant<Enc>, f: Faults)
    ensures var out := Created(d, s, req, tenant, f);
            out.result == None && f.commit != Unacknowledged
            ==> out.store.chains == s.chains && out.store.addresses == s.addresses
    ensures f.commit == Unacknowledged
            ==> Created(d, s, req, tenant, f).store == Created(d, s, req, tenant, f.(commit := Acknowledged)).store
    ensures d.lookup(req.chain).None? || f.badKdf || f.chainReadFails ==>
              Created(d, s, req, tenant, f) == Outcome(s, None, false)
  {
  }

  // ---- the invariant ----------------------------------------------------------------------

  /** A stored chain row caches the account derivation of its tenant. */
  ghost predicate ChainCached<Enc>(d: Deriver<Enc>, masters: nat -> Enc, r: ChainRow) {
    && d.lookup(r.chain) == Some(ChainDef(r.chain, r.coinType))
    && d.chain(masters(r.tenantId), r.tenantId % UINT32, r.chain) == Some((r.xpub, r.path))
  }

  /** The address row is what the address derivation gives below this chain row. */
  predicate AddressBelow<Enc>(d: Deriver<Enc>, masters: nat -> Enc, r: ChainRow, a: AddressRow) {
    && r.id == a.chainId && r.tenantId == a.tenantId
    && d.address(masters(a.tenantId), r.xpub, a.tenantId % UINT32, a.index, r.chain) == Some((a.address, a.path))
  }

  /** A stored address row caches the address derivation below its chain row. */
  ghost predicate AddressCached<Enc>(d: Deriver<Enc>, masters: nat -> Enc, chains: seq<ChainRow>, a: AddressRow) {
    exists r :: r in chains && AddressBelow(d, masters, r, a)
  }

  ghost predicate ChainsUnique(chains: seq<ChainRow>) {
    forall i, j :: 0 <= i < j < |chains| ==>
      chains[i].id != chains[j].id && (chains[i].tenantId != chains[j].tenantId || chains[i].chain != chains[j].chain)
  }

  ghost predicate AddressesUnique(addresses: seq<AddressRow>) {
    forall i, j :: 0 <= i < j < |addresses| ==>
      && addresses[i].id != addresses[j].id
      && (addresses[i].chainId != addresses[j].chainId || addresses[i].index != addresses[j].index)
  }

  ghost predicate Inv<Enc>(d: Deriver<Enc>, masters: nat -> Enc, s: Store) {
    && s.nextChain > 0 && s.nextAddress > 0
    && (forall r <- s.chains :: 0 < r.id < s.nextChain && ChainCached(d, masters, r))
    && (forall a <- s.addresses :: 0 < a.id < s.nextAddress && AddressCached(d, masters, s.chains, a))
    && ChainsUnique(s.chains)
    && AddressesUnique(s.addresses)
  }

  /** The request names its own tenant and the chain's own name; the tenant record is the stored one. */
  ghost predicate Canonical<Enc>(d: Deriver<Enc>, masters: nat -> Enc, req: Request, tenant: Tenant<Enc>) {
    && req.tenantId == tenant.id && tenant.enc == masters(tenant.id)
    && (d.lookup(req.chain).Some? ==> d.lookup(req.chain).value.name == req.chain)
  }

  /** The state inside the transaction, after the chain row was obtained. */
  lemma ObtainKeepsInv<Enc>(d: Deriver<Enc>, masters: nat -> Enc, s: Store, req: Request, tenant: Tenant<Enc>,
                            def: ChainDef, f: Faults)
    requires Inv(d, masters, s) && Canonical(d, masters, req, tenant) && d.lookup(req.chain) == Some(def)
    ensures var (tx, row) := ObtainChain(d, s, req, tenant, def, f);
            Inv(d, masters, tx) && tx.addresses == s.addresses
            && (row.Some? ==> row.value in tx.chains && row.value.tenantId == tenant.id && row.value.chain == req.chain
                              && FirstChain(tx.chains, tenant.id, req.chain) == row)
            && (tx.chains != s.chains ==> row.Some? && FreshChain(s, row.value.id))
  {
    var (tx, row) := ObtainChain(d, s, req, tenant, def, f);
    FirstChainSound(s.chains, tenant.id, req.chain);
    if tx.chains != s.chains {
      FirstChainAppend(s.chains, row.value, tenant.id, req.chain);
      forall a <- s.addresses ensures AddressCached(d, masters, tx.chains, a) && a.chainId != row.value.id {
        var r :| r in s.chains && AddressBelow(d, masters, r, a);
        assert r in tx.chains;
      }
    }
  }

  /** No address row refers to this chain id. */
  ghost predicate FreshChain(s: Store, id: nat) {
    forall a <- s.addresses :: a.chainId != id
  }

  /** The early return loses nothing: the branch that answers without committing has not inserted
      anything, so the tables and even the counters are exactly as before. */
  lemma EarlyReturnWroteNothing<Enc>(d: Deriver<Enc>, masters: nat -> Enc, s: Store, req: Request,
                                     tenant: Tenant<Enc>, f: Faults)
    requires Inv(d, masters, s) && Canonical(d, masters, req, tenant)
    requires Created(d, s, req, tenant, f).leftOpen
    ensures Created(d, s, req, tenant, f).store == s
  {
    var def := d.lookup(req.chain).value;
    ObtainKeepsInv(d, masters, s, req, tenant, def, f);
    var (tx, row) := ObtainChain(d, s, req, tenant, def, f);
    FirstAddressSound(tx.addresses, tenant.id, row.value.id, req.uniqueId);
  }

  lemma AppendAddress<Enc>(d: Deriver<Enc>, masters: nat -> Enc, tx: Store, row: ChainRow, a: AddressRow)
    requires Inv(d, masters, tx) && row in tx.chains && a.id == tx.nextAddress && a.chainId == row.id
             && a.tenantId == row.tenantId
    requires d.address(masters(a.tenantId), row.xpub, a.tenantId % UINT32, a.index, row.chain)
             == Some((a.address, a.path))
    requires FirstAddress(tx.addresses, a.tenantId, row.id, a.index) == None
    ensures Inv(d, masters, tx.(addresses := tx.addresses + [a], nextAddress := tx.nextAddress + 1))
  {
    FirstAddressSound(tx.addresses, a.tenantId, row.id, a.index);
    assert AddressBelow(d, masters, row, a);
    forall b <- tx.addresses ensures b.chainId != a.chainId || b.index != a.index {
      var r :| r in tx.chains && AddressBelow(d, masters, r, b);
      if b.chainId == row.id {
        SameRow(tx.chains, r, row);
      }
    }
  }

  lemma SameRow(chains: seq<ChainRow>, r: ChainRow, q: ChainRow)
    requires ChainsUnique(chains) && r in chains && q in chains && r.id == q.id
    ensures r == q
  {
  }

  lemma UsedIdsKeepInv<Enc>(d: Deriver<Enc>, masters: nat -> Enc, s: Store, s': Store)
    requires Inv(d, masters, s) && s'.chains == s.chains && s'.addresses == s.addresses
    requires s'.nextChain >= s.nextChain && s'.nextAddress >= s.nextAddress
    ensures Inv(d, masters, s')
  {
  }

  /** A call that changes the address table inserted one address below the chain row it obtained. */
  lemma InsertedAddress<Enc>(d: Deriver<Enc>, s: Store, req: Request, tenant: Tenant<Enc>, f: Faults)
    returns (row: ChainRow, a: AddressRow)
    requires Created(d, s, req, tenant, f).store.addresses != s.addresses && !f.addressReadFails
    ensures d.lookup(req.chain).Some?
    ensures var (tx, chain) := ObtainChain(d, s, req, tenant, d.lookup(req.chain).value, f);
            var found := FirstAddress(tx.addresses, tenant.id, row.id, req.uniqueId);
            && chain == Some(row) && (found.None? || found.value.id == 0)
            && a.id == tx.nextAddress && a.chainId == row.id && a.tenantId == tenant.id && a.index == req.uniqueId
            && d.address(tenant.enc, row.xpub, tenant.id % UINT32, req.uniqueId, row.chain) == Some((a.address, a.path))
            && Created(d, s, req, tenant, f).store
               == tx.(addresses := tx.addresses + [a], nextAddress := tx.nextAddress + 1)
  {
    var (tx, chain) := ObtainChain(d, s, req, tenant, d.lookup(req.chain).value, f);
    row := chain.value;
    var leaf := d.address(tenant.enc, row.xpub, tenant.id % UINT32, req.uniqueId, row.chain).value;
    a := AddressRow(tx.nextAddress, tenant.id, row.id, req.uniqueId, leaf.0, leaf.1);
  }

  lemma CreateKeepsInv<Enc>(d: Deriver<Enc>, masters: nat -> Enc, s: Store, req: Request, tenant: Tenant<Enc>,
                            f: Faults)
    requires Inv(d, masters, s) && Canonical(d, masters, req, tenant) && !f.addressReadFails
    ensures Inv(d, masters, Created(d, s, req, tenant, f).store)
  {
    if Created(d, s, req, tenant, f).store.addresses == s.addresses {
      UsedIdsKeepInv(d, masters, s, Created(d, s, req, tenant, f).store);
    } else {
      var row, a := InsertedAddress(d, s, req, tenant, f);
      ObtainKeepsInv(d, masters, s, req, tenant, d.lookup(req.chain).value, f);
      var tx := ObtainChain(d, s, req, tenant, d.lookup(req.chain).value, f).0;
      FirstAddressSound(tx.addresses, tenant.id, row.id, req.uniqueId);
      AppendAddress(d, masters, tx, row, a);
    }
  }

  // ---- answers over runs --------------------------------------------------------------------

  /** What the tables say about a wallet. */
  function Answer(s: Store, tenantId: nat, chain: string, index: nat): Option<(nat, string)> {
    match FirstChain(s.chains, tenantId, chain)
    case None => None
    case Some(row) =>
      match FirstAddress(s.addresses, tenantId, row.id, index)
      case None => None
      case Some(a) => Some((a.id, a.address))
  }

  /** The address derived from scratch. */
  function FreshAddress<Enc>(d: Deriver<Enc>, tenant: Tenant<Enc>, chain: string, index: nat): Option<string> {
    match d.chain(tenant.enc, tenant.id % UINT32, chain)
    case None => None
    case Some((xpub, _)) =>
      match d.address(tenant.enc, xpub, tenant.id % UINT32, index, chain)
      case None => None
      case Some((addr, _)) => Some(addr)
  }

  lemma StoredAddressIsFresh<Enc>(d: Deriver<Enc>, masters: nat -> Enc, s: Store, row: ChainRow, a: AddressRow)
    requires Inv(d, masters, s) && row in s.chains && a in s.addresses && a.chainId == row.id
             && a.tenantId == row.tenantId
    ensures FreshAddress(d, Tenant(row.tenantId, masters(row.tenantId)), row.chain, a.index) == Some(a.address)
  {
    var r :| r in s.chains && AddressBelow(d, masters, r, a);
    SameRow(s.chains, r, row);
    assert ChainCached(d, masters, row);
  }

  lemma AnswerIsFresh<Enc>(d: Deriver<Enc>, masters: nat -> Enc, s: Store, tenantId: nat, chain: string, index: nat)
    requires Inv(d, masters, s) && Answer(s, tenantId, chain, index).Some?
    ensures FreshAddress(d, Tenant(tenantId, masters(tenantId)), chain, index)
            == Some(Answer(s, tenantId, chain, index).value.1)
    ensures Answer(s, tenantId, chain, index).value.0 > 0
  {
    FirstChainSound(s.chains, tenantId, chain);
    var row := FirstChain(s.chains, tenantId, chain).value;
    FirstAddressSound(s.addresses, tenantId, row.id, index);
    StoredAddressIsFresh(d, masters, s, row, FirstAddress(s.addresses, tenantId, row.id, index).value);
  }

  /** Cache agreement: a successful call answers what its tables then hold, and that is the
      address derived from scratch. */
  lemma SuccessIsStoredAndFresh<Enc>(d: Deriver<Enc>, masters: nat -> Enc, s: Store, req: Request,
                                     tenant: Tenant<Enc>, f: Faults)
    requires Inv(d, masters, s) && Canonical(d, masters, req, tenant) && !f.addressReadFails
    requires Created(d, s, req, tenant, f).result.Some?
    ensures var out := Created(d, s, req, tenant, f);
            Answer(out.store, tenant.id, req.chain, req.uniqueId) == out.result
            && FreshAddress(d, tenant, req.chain, req.uniqueId) == Some(out.result.value.1)
  {
    var out := Created(d, s, req, tenant, f);
    CreateKeepsInv(d, masters, s, req, tenant, f);
    ObtainKeepsInv(d, masters, s, req, tenant, d.lookup(req.chain).value, f);
    var (tx, row) := ObtainChain(d, s, req, tenant, d.lookup(req.chain).value, f);
    FirstAddressSound(tx.addresses, tenant.id, row.value.id, req.uniqueId);
    if out.leftOpen {
      EarlyReturnWroteNothing(d, masters, s, req, tenant, f);
    } else {
      FirstAddressAppend(tx.addresses, out.store.addresses[|tx.addresses|], tenant.id, row.value.id, req.uniqueId);
    }
    AnswerIsFresh(d, masters, out.store, tenant.id, req.chain, req.uniqueId);
  }

  lemma TablesOnlyGrow<Enc>(d: Deriver<Enc>, s: Store, req: Request, tenant: Tenant<Enc>, f: Faults)
    ensures var t := Created(d, s, req, tenant, f).store;
            (t.chains == s.chains || exists r :: t.chains == s.chains + [r])
            && (t.addresses == s.addresses || exists a :: t.addresses == s.addresses + [a])
  {
  }

  /** An answer never changes again, whatever calls follow. */
  lemma AnswerKept<Enc>(d: Deriver<Enc>, s: Store, req: Request, tenant: Tenant<Enc>, f: Faults, tenantId: nat,
                        chain: string, index: nat)
    requires Answer(s, tenantId, chain, index).Some?
    ensures Answer(Created(d, s, req, tenant, f).store, tenantId, chain, index) == Answer(s, tenantId, chain, index)
  {
    TablesOnlyGrow(d, s, req, tenant, f);
    var t := Created(d, s, req, tenant, f).store;
    if t.chains != s.chains {
      var r :| t.chains == s.chains + [r];
      FirstChainAppend(s.chains, r, tenantId, chain);
    }
    var row := FirstChain(s.chains, tenantId, chain).value;
    if t.addresses != s.addresses {
      var a :| t.addresses == s.addresses + [a];
      FirstAddressAppend(s.addresses, a, tenantId, row.id, index);
    }
  }

  datatype Call<Enc> = Call(req: Request, tenant: Tenant<Enc>, faults: Faults)

  function Run<Enc>(d: Deriver<Enc>, calls: seq<Call<Enc>>): Store {
    if calls == [] then Store([], [], 1, 1)
    else
      var c := calls[|calls| - 1];
      Created(d, Run(d, calls[..|calls| - 1]), c.req, c.tenant, c.faults).store
  }

  /** Result of call i of a run. */
  function ResultOf<Enc>(d: Deriver<Enc>, calls: seq<Call<Enc>>, i: nat): Option<(nat, string)>
    requires i < |calls|
  {
    Created(d, Run(d, calls[..i]), calls[i].req, calls[i].tenant, calls[i].faults).result
  }

  ghost predicate CanonicalRun<Enc>(d: Deriver<Enc>, masters: nat -> Enc, calls: seq<Call<Enc>>) {
    forall c <- calls :: Canonical(d, masters, c.req, c.tenant) && !c.faults.addressReadFails
  }

  /** At every moment of a canonical run: one chain row per tenant and chain, one address row per
      chain row and index, and every row caches the derivation functions. */
  lemma {:induction false} RunKeepsInv<Enc>(d: Deriver<Enc>, masters: nat -> Enc, calls: seq<Call<Enc>>)
    requires CanonicalRun(d, masters, calls)
    ensures Inv(d, masters, Run(d, calls))
  {
    if calls == [] {
    } else {
      var c := calls[|calls| - 1];
      RunKeepsInv(d, masters, calls[..|calls| - 1]);
      CreateKeepsInv(d, masters, Run(d, calls[..|calls| - 1]), c.req, c.tenant, c.faults);
    }
  }

  lemma NextStore<Enc>(d: Deriver<Enc>, calls: seq<Call<Enc>>, n: nat)
    requires n < |calls|
    ensures Run(d, calls[..n + 1])
            == Created(d, Run(d, calls[..n]), calls[n].req, calls[n].tenant, calls[n].faults).store
  {
    assert calls[..n + 1][..n] == calls[..n];
  }

  lemma ResultIsStored<Enc>(d: Deriver<Enc>, masters: nat -> Enc, calls: seq<Call<Enc>>, i: nat)
    requires CanonicalRun(d, masters, calls) && i < |calls| && ResultOf(d, calls, i).Some?
    ensures Answer(Run(d, calls[..i + 1]), calls[i].tenant.id, calls[i].req.chain, calls[i].req.uniqueId)
            == ResultOf(d, calls, i)
  {
    RunKeepsInv(d, masters, calls[..i]);
    SuccessIsStoredAndFresh(d, masters, Run(d, calls[..i]), calls[i].req, calls[i].tenant, calls[i].faults);
    NextStore(d, calls, i);
  }

  lemma {:induction false} AnswerStays<Enc>(d: Deriver<Enc>, calls: seq<Call<Enc>>, m: nat, n: nat, tenantId: nat,
                                            chain: string, index: nat)
    requires m <= n <= |calls| && Answer(Run(d, calls[..m]), tenantId, chain, index).Some?
    ensures Answer(Run(d, calls[..n]), tenantId, chain, index) == Answer(Run(d, calls[..m]), tenantId, chain, index)
    decreases n
  {
    if n == m {
    } else {
      var e := calls[n - 1];
      AnswerStays(d, calls, m, n - 1, tenantId, chain, index);
      AnswerKept(d, Run(d, calls[..n - 1]), e.req, e.tenant, e.faults, tenantId, chain, index);
      NextStore(d, calls, n - 1);
    }
  }

  /** Idempotence over whole runs: any two successful calls for the same tenant, chain and index,
      however far apart, return the same id and the same address. */
  lemma RepeatedRequestsAgree<Enc>(d: Deriver<Enc>, masters: nat -> Enc, calls: seq<Call<Enc>>, i: nat, j: nat)
    requires CanonicalRun(d, masters, calls) && i < j < |calls|
    requires ResultOf(d, calls, i).Some? && ResultOf(d, calls, j).Some?
    requires calls[i].tenant.id == calls[j].tenant.id && calls[i].req.chain == calls[j].req.chain
             && calls[i].req.uniqueId == calls[j].req.uniqueId
    ensures ResultOf(d, calls, i) == ResultOf(d, calls, j)
  {
    ResultIsStored(d, masters, calls, i);
    ResultIsStored(d, masters, calls, j);
    AnswerStays(d, calls, i + 1, j + 1, calls[i].tenant.id, calls[i].req.chain, calls[i].req.uniqueId);
  }

  /** A call whose commit was stored without acknowledgement has created its wallet: whatever
      request follows it and succeeds for that wallet returns what the lost answer would have been. */
  lemma RetryFindsLostWallet<Enc>(d: Deriver<Enc>, masters: nat -> Enc, s: Store, req: Request, tenant: Tenant<Enc>,
                                  f: Faults, g: Faults)
    requires Inv(d, masters, s) && Canonical(d, masters, req, tenant)
    requires !f.addressReadFails && !g.addressReadFails && f.commit == Unacknowledged
    ensures var meant := Created(d, s, req, tenant, f.(commit := Acknowledged));
            var lost := Created(d, s, req, tenant, f);
            var again := Created(d, lost.store, req, tenant, g);
            meant.result.Some? && again.result.Some? ==> again.result == meant.result
  {
    var meant := Created(d, s, req, tenant, f.(commit := Acknowledged));
    ErrorsAreAtomic(d, s, req, tenant, f);
    if meant.result.Some? && Created(d, meant.store, req, tenant, g).result.Some? {
      CreateKeepsInv(d, masters, s, req, tenant, f);
      SuccessIsStoredAndFresh(d, masters, s, req, tenant, f.(commit := Acknowledged));
      SuccessIsStoredAndFresh(d, masters, meant.store, req, tenant, g);
      AnswerKept(d, meant.store, req, tenant, g, tenant.id, req.chain, req.uniqueId);
    }
  }

  // ---- where the conditions are exact ---------------------------------------------------------

  /** The service ignores an error of the address lookup: for a wallet that already exists, the
      address table stays free of duplicates exactly when that lookup works. */
  lemma FailedLookupDuplicates<Enc>(d: Deriver<Enc>, masters: nat -> Enc, s: Store, req: Request,
                                    tenant: Tenant<Enc>, lookupFails: bool)
    requires Inv(d, masters, s) && Canonical(d, masters, req, tenant) && d.lookup(req.chain).Some?
    requires Answer(s, tenant.id, req.chain, req.uniqueId).Some?
    ensures AddressesUnique(Created(d, s, req, tenant, NO_FAULTS.(addressReadFails := lookupFails)).store.addresses)
            <==> !lookupFails
  {
    var f := NO_FAULTS.(addressReadFails := lookupFails);
    if lookupFails {
      FirstChainSound(s.chains, tenant.id, req.chain);
      var row := FirstChain(s.chains, tenant.id, req.chain).value;
      FirstAddressSound(s.addresses, tenant.id, row.id, req.uniqueId);
      var a := FirstAddress(s.addresses, tenant.id, row.id, req.uniqueId).value;
      StoredAddressIsFresh(d, masters, s, row, a);
      var k :| 0 <= k < |s.addresses| && s.addresses[k] == a;
      var t := Created(d, s, req, tenant, f).store;
      assert t.addresses[k] == a && |t.addresses| == |s.addresses| + 1;
      assert t.addresses[|s.addresses|].chainId == a.chainId && t.addresses[|s.addresses|].index == a.index;
    } else {
      CreateKeepsInv(d, masters, s, req, tenant, f);
    }
  }

  /** A request under another spelling of the chain never finds the row it stored: repeating a
      successful request gives the same id exactly when it uses the chain's own name. */
  lemma AliasBreaksIdempotence<Enc>(d: Deriver<Enc>, masters: nat -> Enc, s: Store, req: Request, tenant: Tenant<Enc>)
    requires Inv(d, masters, s) && req.tenantId == tenant.id && tenant.enc == masters(tenant.id)
    requires d.lookup(req.chain).Some? && d.lookup(d.lookup(req.chain).value.name) == d.lookup(req.chain)
    requires Created(d, s, req, tenant, NO_FAULTS).result.Some?
    ensures var once := Created(d, s, req, tenant, NO_FAULTS);
            Created(d, once.store, req, tenant, NO_FAULTS).result == once.result
            <==> d.lookup(req.chain).value.name == req.chain
  {
    var once := Created(d, s, req, tenant, NO_FAULTS);
    var twice := Created(d, once.store, req, tenant, NO_FAULTS);
    if d.lookup(req.chain).value.name == req.chain {
      SuccessIsStoredAndFresh(d, masters, s, req, tenant, NO_FAULTS);
      FirstChainSound(once.store.chains, tenant.id, req.chain);
      CreateKeepsInv(d, masters, s, req, tenant, NO_FAULTS);
      AnswerIsFresh(d, masters, once.store, tenant.id, req.chain, req.uniqueId);
    } else {
      FirstChainSound(s.chains, tenant.id, req.chain);
      AliasInserts(d, masters, s, req, tenant);
    }
  }

  lemma AliasInserts<Enc>(d: Deriver<Enc>, masters: nat -> Enc, s: Store, req: Request, tenant: Tenant<Enc>)
    requires Inv(d, masters, s) && req.tenantId == tenant.id
    requires d.lookup(req.chain).Some? && d.lookup(req.chain).value.name != req.chain
    requires FirstChain(s.chains, tenant.id, req.chain) == None
    requires Created(d, s, req, tenant, NO_FAULTS).result.Some?
    ensures var once := Created(d, s, req, tenant, NO_FAULTS);
            var twice := Created(d, once.store, req, tenant, NO_FAULTS);
            twice.result.Some? && twice.result.value.0 == once.result.value.0 + 1
            && twice.result.value.1 == once.result.value.1
            && |twice.store.chains| == |s.chains| + 2
  {
    var def := d.lookup(req.chain).value;
    var (tx, row) := ObtainChain(d, s, req, tenant, def, NO_FAULTS);
    NoAddressBelow(d, masters, s, tenant.id, s.nextChain, req.uniqueId);
    var once := Created(d, s, req, tenant, NO_FAULTS);
    FirstChainAppend(s.chains, row.value, tenant.id, req.chain);
    assert once.store.chains == s.chains + [row.value];
    var (tx', row') := ObtainChain(d, once.store, req, tenant, def, NO_FAULTS);
    FirstAddressAppend(s.addresses, once.store.addresses[|s.addresses|], tenant.id, row'.value.id, req.uniqueId);
    NoAddressBelow(d, masters, s, tenant.id, row'.value.id, req.uniqueId);
  }

  lemma NoAddressBelow<Enc>(d: Deriver<Enc>, masters: nat -> Enc, s: Store, tenantId: nat, chainId: nat, index: nat)
    requires Inv(d, masters, s) && chainId >= s.nextChain
    ensures FirstAddress(s.addresses, tenantId, chainId, index) == None
  {
    FirstAddressSound(s.addresses, tenantId, chainId, index);
    forall a <- s.addresses ensures a.chainId < s.nextChain {
      var r :| r in s.chains && AddressBelow(d, masters, r, a);
    }
  }

  /** A request that names another tenant who has the chain: the new address row hangs below that
      tenant's account, whose derivation it does not cache. */
  lemma ForeignChainRow<Enc>(d: Deriver<Enc>, masters: nat -> Enc, s: Store, req: Request, tenant: Tenant<Enc>,
                             f: Faults)
    requires Inv(d, masters, s) && !f.addressReadFails && req.tenantId != tenant.id
    requires FirstChain(s.chains, req.tenantId, req.chain).Some?
    requires Created(d, s, req, tenant, f).result.Some?
    ensures !Inv(d, masters, Created(d, s, req, tenant, f).store)
  {
    FirstChainSound(s.chains, req.tenantId, req.chain);
    var row := FirstChain(s.chains, req.tenantId, req.chain).value;
    NoForeignAddress(d, masters, s, row, tenant.id, req.uniqueId);
    var t := Created(d, s, req, tenant, f).store;
    var a := t.addresses[|s.addresses|];
    assert a in t.addresses && a.chainId == row.id && a.tenantId == tenant.id;
    forall r <- t.chains ensures !AddressBelow(d, masters, r, a) {
      if r.id == row.id {
        SameRow(s.chains, r, row);
      }
    }
  }

  lemma NoForeignAddress<Enc>(d: Deriver<Enc>, masters: nat -> Enc, s: Store, row: ChainRow, tenantId: nat, index: nat)
    requires Inv(d, masters, s) && row in s.chains && row.tenantId != tenantId
    ensures FirstAddress(s.addresses, tenantId, row.id, index) == None
  {
    FirstAddressSound(s.addresses, tenantId, row.id, index);
    forall a <- s.addresses ensures a.chainId != row.id || a.tenantId != tenantId {
      var r :| r in s.chains && AddressBelow(d, masters, r, a);
      if r.id == row.id {
        SameRow(s.chains, r, row);
      }
    }
  }

  /** A request that names another tenant without the chain, for a tenant who has it already: the
      tenant gets a second chain row. */
  lemma SecondChainRow<Enc>(d: Deriver<Enc>, masters: nat -> Enc, s: Store, req: Request, tenant: Tenant<Enc>,
                            f: Faults)
    requires Inv(d, masters, s) && d.lookup(req.chain).Some? && d.lookup(req.chain).value.name == req.chain
    requires FirstChain(s.chains, req.tenantId, req.chain).None? && FirstChain(s.chains, tenant.id, req.chain).Some?
    requires Created(d, s, req, tenant, f).result.Some?
    ensures !ChainsUnique(Created(d, s, req, tenant, f).store.chains)
  {
    NoAddressBelow(d, masters, s, tenant.id, s.nextChain, req.uniqueId);
    var t := Created(d, s, req, tenant, f).store;
    SecondRow(s.chains, t.chains, tenant.id, req.chain);
  }

  lemma SecondRow(before: seq<ChainRow>, after: seq<ChainRow>, tenantId: nat, chain: string)
    requires |after| == |before| + 1 && after[..|before|] == before
    requires after[|before|].tenantId == tenantId && after[|before|].chain == chain
    requires FirstChain(before, tenantId, chain).Some?
    ensures !ChainsUnique(after)
  {
    FirstChainSound(before, tenantId, chain);
    var k :| 0 <= k < |before| && before[k] == FirstChain(before, tenantId, chain).value;
    assert after[k] == after[..|before|][k];
  }

  /** The tenant a request names need not be the one it is made for, and nothing compares them. A
      successful call keeps the tables right if and only if they are the same, or neither of them
      has the chain yet. */
  lemma TenantMismatchIsExact<Enc>(d: Deriver<Enc>, masters: nat -> Enc, s: Store, req: Request, tenant: Tenant<Enc>,
                                   f: Faults)
    requires Inv(d, masters, s) && tenant.enc == masters(tenant.id) && !f.addressReadFails
    requires d.lookup(req.chain).Some? && d.lookup(req.chain).value.name == req.chain
    requires Created(d, s, req, tenant, f).result.Some?
    ensures Inv(d, masters, Created(d, s, req, tenant, f).store)
            <==> req.tenantId == tenant.id
                 || (FirstChain(s.chains, req.tenantId, req.chain).None?
                    && FirstChain(s.chains, tenant.id, req.chain).None?)
  {
    if req.tenantId == tenant.id {
      CreateKeepsInv(d, masters, s, req, tenant, f);
    } else if FirstChain(s.chains, req.tenantId, req.chain).Some? {
      ForeignChainRow(d, masters, s, req, tenant, f);
    } else if FirstChain(s.chains, tenant.id, req.chain).Some? {
      SecondChainRow(d, masters, s, req, tenant, f);
    } else {
      var own := req.(tenantId := tenant.id);
      assert Created(d, s, own, tenant, f) == Created(d, s, req, tenant, f);
      CreateKeepsInv(d, masters, s, own, tenant, f);
    }
  }

  /** In the registry, looking a canonical name up gives it back, and only "arbitrum" is an alias. */
  lemma RegistryIsCanonical(code: string)
    ensures CheckValidChainCode(code).Some? ==>
              CheckValidChainCode(CheckValidChainCode(code).value.name) == CheckValidChainCode(code)
              && (CheckValidChainCode(code).value.name == code <==> code != "arbitrum")
  {
    assert "ARB" != "arbitrum" by {
      assert |"ARB"| == 3;
    }
  }

  /** Derivations that always succeed. */
  function PlainDeriver(lookup: string -> Option<ChainDef>): Deriver<bool> {
    Deriver(lookup, (enc: bool, tenant: nat, chain: string) => Some(("xpub", "m")),
            (enc: bool, xpub: string, tenant: nat, index: nat, chain: string) => Some(("0x00", "m/0")))
  }

  lemma PlainCall(lookup: string -> Option<ChainDef>, s: Store, req: Request, def: ChainDef)
    requires lookup(req.chain) == Some(def) && req.tenantId == 1
    requires FirstChain(s.chains, 1, req.chain) == None
    requires FirstAddress(s.addresses, 1, s.nextChain, req.uniqueId) == None
    ensures var row := ChainRow(s.nextChain, 1, def.name, def.coinType, "xpub", "m");
            var a := AddressRow(s.nextAddress, 1, s.nextChain, req.uniqueId, "0x00", "m/0");
            Created(PlainDeriver(lookup), s, req, Tenant(1, true), NO_FAULTS)
            == Outcome(Store(s.chains + [row], s.addresses + [a], s.nextChain + 1, s.nextAddress + 1),
                       Some((s.nextAddress, "0x00")), false)
  {
  }

  lemma ArbitrumIsArb()
    ensures CheckValidChainCode("arbitrum").Some? && CheckValidChainCode("arbitrum").value.name == "ARB" != "arbitrum"
  {
    assert |"ARB"| == 3;
    assert SUPPORTED[3].name == "ARB";
  }

  /** For instance, asking twice for a first wallet on "arbitrum" gives two ids and two chain rows. */
  lemma ArbitrumTwice()
    ensures var d := PlainDeriver(code => CheckValidChainCode(code));
            var req, tenant := Request(1, 0, "arbitrum"), Tenant(1, true);
            var once := Created(d, Store([], [], 1, 1), req, tenant, NO_FAULTS);
            var twice := Created(d, once.store, req, tenant, NO_FAULTS);
            once.result == Some((1, "0x00")) && twice.result == Some((2, "0x00")) && |twice.store.chains| == 2
  {
    var lookup: string -> Option<ChainDef> := code => CheckValidChainCode(code);
    var d, req, tenant := PlainDeriver(lookup), Request(1, 0, "arbitrum"), Tenant(1, true);
    ArbitrumIsArb();
    var def := lookup(req.chain).value;
    PlainCall(lookup, Store([], [], 1, 1), req, def);
    var once := Created(d, Store([], [], 1, 1), req, tenant, NO_FAULTS).store;
    FirstChainAppend([], ChainRow(1, 1, def.name, def.coinType, "xpub", "m"), 1, req.chain);
    FirstAddressAppend([], AddressRow(1, 1, 1, 0, "0x00", "m/0"), 1, 2, 0);
    PlainCall(lookup, once, req, def);
  }
}
