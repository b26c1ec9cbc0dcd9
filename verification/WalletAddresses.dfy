/** The wallet service on top of the key derivation: what its tables hold can be signed for. */
module WalletAddresses {
  import opened Positional
  import opened KeyPaths
  import opened KeyDerivation
  import opened Base58
  import opened TronAddress
  import W = WalletService
  import T = WalletTransactions

  /** What decrypting a tenant's master gives; either decryption may fail. */
  datatype Vault<Point> = Vault(master: Option<Node<Point>>, seed: Option<seq<nat>>)

  /** An ed25519 public key. */
  type PublicKey = bs: seq<nat> | |bs| == 32 && IsBytes(bs) witness Zeros(32)

  /** The chain registry, the curve, the text form of extended keys, and the SLIP-0010 derivation of
      ed25519 keys. */
  datatype Library<!Point(==)> = Library(
    lookup: string -> Option<ChainDef>,
    curve: Curve<Point>,
    write: Node<Point> -> string,
    read: string -> Option<Node<Point>>,
    ed25519: (seq<nat>, string) -> Option<PublicKey>)

  ghost predicate Sound<Point(!new)>(lib: Library<Point>) {
    && Lawful(lib.curve)
    && (forall n :: lib.read(lib.write(n)) == Some(n))
    && (forall code :: lib.lookup(code).Some? ==> lib.lookup(code).value.coinType < HARDENED)
  }

  /** The service's registry qualifies. */
  lemma RegistryCoins(code: string)
    ensures W.CheckValidChainCode(code).Some? ==> W.CheckValidChainCode(code).value.coinType < HARDENED
  {
    if W.CheckValidChainCode(code).Some? {
      SupportedCoins(W.CheckValidChainCode(code).value);
    }
  }

  lemma SupportedCoins(def: ChainDef)
    requires def in W.SUPPORTED
    ensures def.coinType < HARDENED
  {
  }

  /** Account text and path of a tenant; Solana has no account key. */
  function GenerateDerivationChain<Point(==)>(lib: Library<Point>, v: Vault<Point>, tenant: nat,
                                              code: string): Option<(string, string)>
    requires lib.curve.order > 0
  {
    match lib.lookup(code)
    case None => None
    case Some(def) =>
      if def.name == "SOLANA" then Some(("", SolPath(tenant, 0)))
      else match GenerateEvmDerivationChain(lib.curve, v.master, tenant, def)
           case None => None
           case Some(dc) => Some((lib.write(dc.xpub), dc.path))
  }

  /** Address and path of a wallet; for Solana the account text is ignored. */
  function DeriveAddressFromXpub<Point(==,!new)>(lib: Library<Point>, v: Vault<Point>, xpub: string, tenant: nat,
                                                 index: nat, code: string)
    : Option<(string, string)>
    requires lib.curve.order > 0 && Encodable(lib.curve)
  {
    match lib.lookup(code)
    case None => None
    case Some(def) =>
      if def.name == "SOLANA" then
        match v.seed
        case None => None
        case Some(seed) =>
          match lib.ed25519(seed, SolPath(tenant, index))
          case None => None
          case Some(key) => Some((Encode(key), SolPath(tenant, index)))
      else
        match lib.read(xpub)
        case None => None
        case Some(node) => DeriveEvmAddressFromXpub(lib.curve, node, tenant, index, def)
  }

  /** The derivation functions the service is built on. */
  function Derivation<Point(==,!new)>(lib: Library<Point>): W.Deriver<Vault<Point>>
    requires lib.curve.order > 0 && Encodable(lib.curve)
  {
    W.Deriver(
      lib.lookup,
      (v, tenant, code) => GenerateDerivationChain(lib, v, tenant, code),
      (v, xpub, tenant, index, code) => DeriveAddressFromXpub(lib, v, xpub, tenant, index, code))
  }

  /** On the service's own route a derived wallet is the watch-only one. */
  lemma RouteOfWallet<Point(!new)>(lib: Library<Point>, v: Vault<Point>, tenant: nat, index: nat, def: ChainDef,
                                   xpub: string, row: string, addr: string, path: string)
    requires Sound(lib) && lib.lookup(def.name) == Some(def) && def.name != "SOLANA"
    ensures GenerateDerivationChain(lib, v, tenant, def.name) == Some((xpub, row))
            && DeriveAddressFromXpub(lib, v, xpub, tenant, index, def.name) == Some((addr, path))
            ==>
              && WatchRoute(lib.curve, v.master, tenant, index, def) == Some(addr)
              && path == EvmPath(def.coinType, tenant, index)
  {
    var dc := GenerateEvmDerivationChain(lib.curve, v.master, tenant, def);
    if dc.Some? {
      assert lib.read(lib.write(dc.value.xpub)) == Some(dc.value.xpub);
    }
  }

  /** A wallet on the curve whose tenant has a private master, if any. */
  predicate OnCurve<Point(==)>(v: Vault<Point>, chain: string) {
    chain != "SOLANA" && (v.master.Some? ==> v.master.value.Private?)
  }

  /** The signing route along a path ends at this address, and at a key the address stands for. */
  predicate SignsFor<Point(==,!new)>(lib: Library<Point>, v: Vault<Point>, path: string, chain: string, addr: string)
    requires lib.curve.order > 0 && Encodable(lib.curve)
  {
    var signing := AddressAndPrivFromPath(lib.curve, v.master, path, chain);
    signing.Some? && signing.value.0 == addr
    && AddressIn(lib.curve, chain, addr) == Some(lib.curve.address(lib.curve.point(signing.value.1)))
  }

  /** The address stands for the public leaf of the wallet below its account. */
  predicate StandsForLeaf<Point(==,!new)>(lib: Library<Point>, v: Vault<Point>, tenant: nat, index: nat, def: ChainDef,
                                          addr: string)
    requires lib.curve.order > 0 && Encodable(lib.curve)
  {
    match GenerateEvmDerivationChain(lib.curve, v.master, tenant, def)
    case None => false
    case Some(dc) =>
      match LeafBelow(lib.curve, dc.xpub, index)
      case None => false
      case Some(leaf) =>
        leaf.Public? && AddressIn(lib.curve, def.name, addr) == Some(lib.curve.address(leaf.at))
  }

  /** The stored path signs for the stored address, that is, following a row's path from its
      tenant's master gives a private key whose address is the one in the row, if and only if
      hardening does not wrap the tenant number. In any case the address stands for the leaf. */
  lemma StoredRowCanBeSigned<Point(!new)>(lib: Library<Point>, masters: nat -> Vault<Point>, r: W.ChainRow,
                                          a: W.AddressRow)
    requires Sound(lib) && W.ChainCached(Derivation(lib), masters, r) && W.AddressBelow(Derivation(lib), masters, r, a)
    ensures OnCurve(masters(a.tenantId), r.chain) ==>
              && (SignsFor(lib, masters(a.tenantId), a.path, r.chain, a.address) <==> a.tenantId % UINT32 < HARDENED)
              && StandsForLeaf(lib, masters(a.tenantId), a.tenantId % UINT32, a.index, ChainDef(r.chain, r.coinType),
                               a.address)
  {
    var tenant, v := a.tenantId % UINT32, masters(a.tenantId);
    if OnCurve(v, r.chain) {
      var def := ChainDef(r.chain, r.coinType);
      RouteOfWallet(lib, v, tenant, a.index, def, r.xpub, r.path, a.address, a.path);
      RoutesMeet(lib, v, tenant, a.index, def, a.address);
    }
  }

  /** A wallet the watch-only route reaches stands for its leaf, and is one the signing route
      reaches, at the same address, if and only if hardening does not wrap the tenant number. */
  lemma RoutesMeet<Point(!new)>(lib: Library<Point>, v: Vault<Point>, tenant: nat, index: nat, def: ChainDef,
                                addr: string)
    requires Lawful(lib.curve) && (v.master.Some? ==> v.master.value.Private?) && def.coinType < HARDENED
    ensures WatchRoute(lib.curve, v.master, tenant, index, def) == Some(addr) ==>
              && (SignsFor(lib, v, EvmPath(def.coinType, tenant, index), def.name, addr) <==> tenant < HARDENED)
              && StandsForLeaf(lib, v, tenant, index, def, addr)
  {
    SigningAddressIsOfItsKey(lib.curve, v.master, EvmPath(def.coinType, tenant, index), def.name);
    var dc := GenerateEvmDerivationChain(lib.curve, v.master, tenant, def);
    if dc.Some? {
      WatchAddressIsOfItsLeaf(lib.curve, dc.value.xpub, tenant, index, def);
    }
    if tenant < HARDENED && index < HARDENED {
      WatchAgreesWithSigning(lib.curve, v.master, tenant, index, def);
    } else {
      SigningNeedsSmallIndices(lib.curve, v.master, tenant, index, def);
    }
  }

  /** The address text reads as the public key that the tenant's seed gives along the path. */
  predicate ReadsAsKey<Point(==)>(lib: Library<Point>, v: Vault<Point>, path: string, addr: string) {
    && v.seed.Some?
    && var key := lib.ed25519(v.seed.value, path);
       key.Some? && Decode(addr) == Some(key.value)
  }

  lemma EncodedKeyReads(key: PublicKey)
    ensures Decode(Encode(key)) == Some(key)
  {
    Base58RoundTrip(key, "");
  }

  /** A Solana row: the stored address reads as the public key that the tenant's seed gives along the
      stored path, which is the wallet's own. */
  lemma SolanaRow<Point(!new)>(lib: Library<Point>, masters: nat -> Vault<Point>, r: W.ChainRow, a: W.AddressRow)
    requires Sound(lib) && W.ChainCached(Derivation(lib), masters, r) && W.AddressBelow(Derivation(lib), masters, r, a)
    ensures r.chain == "SOLANA" ==>
              && ReadsAsKey(lib, masters(a.tenantId), a.path, a.address)
              && a.path == SolPath(a.tenantId % UINT32, a.index)
              && r.path == SolPath(r.tenantId % UINT32, 0)
  {
    if r.chain == "SOLANA" {
      EncodedKeyReads(lib.ed25519(masters(a.tenantId).seed.value, a.path).value);
    }
  }

  /** Two Solana rows with one path are for the same tenant, up to the width of a uint32, and index. */
  lemma SolanaRowsApart<Point(!new)>(lib: Library<Point>, masters: nat -> Vault<Point>, r: W.ChainRow, a: W.AddressRow,
                                     q: W.ChainRow, b: W.AddressRow)
    requires Sound(lib) && W.ChainCached(Derivation(lib), masters, r) && W.AddressBelow(Derivation(lib), masters, r, a)
    requires W.ChainCached(Derivation(lib), masters, q) && W.AddressBelow(Derivation(lib), masters, q, b)
    ensures r.chain == "SOLANA" && q.chain == "SOLANA" && a.path == b.path ==>
              a.tenantId % UINT32 == b.tenantId % UINT32 && a.index == b.index
  {
    SolanaRow(lib, masters, r, a);
    SolanaRow(lib, masters, q, b);
    if r.chain == "SOLANA" && q.chain == "SOLANA" && a.path == b.path {
      SolPathIsInjective(a.tenantId % UINT32, a.index, b.tenantId % UINT32, b.index);
    }
  }

  lemma FreshParts<Point(!new)>(lib: Library<Point>, tenant: W.Tenant<Vault<Point>>, code: string, index: nat)
    returns (xpub: string, row: string, addr: string, path: string)
    requires Sound(lib) && W.FreshAddress(Derivation(lib), tenant, code, index).Some?
    ensures GenerateDerivationChain(lib, tenant.enc, tenant.id % UINT32, code) == Some((xpub, row))
    ensures DeriveAddressFromXpub(lib, tenant.enc, xpub, tenant.id % UINT32, index, code) == Some((addr, path))
    ensures W.FreshAddress(Derivation(lib), tenant, code, index) == Some(addr)
  {
    var account := GenerateDerivationChain(lib, tenant.enc, tenant.id % UINT32, code).value;
    xpub, row := account.0, account.1;
    var wallet := DeriveAddressFromXpub(lib, tenant.enc, xpub, tenant.id % UINT32, index, code).value;
    addr, path := wallet.0, wallet.1;
  }

  /** The answer of call t in a run of the service over these derivation functions, or None. */
  ghost function Answer<Point(!new)>(lib: Library<Point>, actions: seq<T.Action<Vault<Point>>>, t: nat)
    : Option<(nat, string)>
    requires Sound(lib) && t < |T.After(Derivation(lib), actions).sessions|
  {
    var stage := T.After(Derivation(lib), actions).sessions[t].stage;
    if stage.Closed? then stage.result else None
  }

  /** Every address the service hands out, at any point of any interleaving of canonical calls,
      stands for the leaf of its wallet, and the signing route gives it with a key it stands for if
      and only if hardening does not wrap the tenant number. */
  lemma ServedAddressCanBeSigned<Point(!new)>(lib: Library<Point>, masters: nat -> Vault<Point>,
                                              actions: seq<T.Action<Vault<Point>>>, t: nat)
    requires Sound(lib) && T.CanonicalStarts(Derivation(lib), masters, actions)
    requires t < |T.After(Derivation(lib), actions).sessions|
    ensures var c, answer := T.After(Derivation(lib), actions).sessions[t], Answer(lib, actions, t);
            answer.Some? && OnCurve(c.tenant.enc, c.req.chain) ==>
              && lib.lookup(c.req.chain).Some?
              && var def, tenant := lib.lookup(c.req.chain).value, c.tenant.id % UINT32;
                 && (SignsFor(lib, c.tenant.enc, EvmPath(def.coinType, tenant, c.req.uniqueId), def.name,
                              answer.value.1)
                     <==> tenant < HARDENED)
                 && StandsForLeaf(lib, c.tenant.enc, tenant, c.req.uniqueId, def, answer.value.1)
  {
    var c := T.After(Derivation(lib), actions).sessions[t];
    if Answer(lib, actions, t).Some? && OnCurve(c.tenant.enc, c.req.chain) {
      ServedIsDerived(lib, masters, actions, t);
      var def, tenant, v := lib.lookup(c.req.chain).value, c.tenant.id % UINT32, c.tenant.enc;
      var xpub, row, addr, path := FreshParts(lib, c.tenant, c.req.chain, c.req.uniqueId);
      RouteOfWallet(lib, v, tenant, c.req.uniqueId, def, xpub, row, addr, path);
      RoutesMeet(lib, v, tenant, c.req.uniqueId, def, addr);
    }
  }

  lemma ServedIsDerived<Point(!new)>(lib: Library<Point>, masters: nat -> Vault<Point>,
                                     actions: seq<T.Action<Vault<Point>>>, t: nat)
    requires Sound(lib) && T.CanonicalStarts(Derivation(lib), masters, actions)
    requires t < |T.After(Derivation(lib), actions).sessions|
    ensures var c, answer := T.After(Derivation(lib), actions).sessions[t], Answer(lib, actions, t);
            answer.Some? ==>
              && W.FreshAddress(Derivation(lib), c.tenant, c.req.chain, c.req.uniqueId) == Some(answer.value.1)
              && W.Canonical(Derivation(lib), masters, c.req, c.tenant)
  {
    var s := T.After(Derivation(lib), actions);
    T.AnswerIsDerived(Derivation(lib), masters, actions, t);
    T.RunIsConsistent(Derivation(lib), masters, actions);
    assert T.SessionOk(Derivation(lib), masters, s, s.sessions[t]);
  }

  /** Every Solana address the service hands out reads as the public key that the tenant's seed gives
      along the wallet's own path. */
  lemma ServedSolanaAddress<Point(!new)>(lib: Library<Point>, masters: nat -> Vault<Point>,
                                         actions: seq<T.Action<Vault<Point>>>, t: nat)
    requires Sound(lib) && T.CanonicalStarts(Derivation(lib), masters, actions)
    requires t < |T.After(Derivation(lib), actions).sessions|
    ensures var c, answer := T.After(Derivation(lib), actions).sessions[t], Answer(lib, actions, t);
            answer.Some? && c.req.chain == "SOLANA" ==>
              ReadsAsKey(lib, c.tenant.enc, SolPath(c.tenant.id % UINT32, c.req.uniqueId), answer.value.1)
  {
    var c := T.After(Derivation(lib), actions).sessions[t];
    if Answer(lib, actions, t).Some? && c.req.chain == "SOLANA" {
      ServedIsDerived(lib, masters, actions, t);
      var _, _, _, path := FreshParts(lib, c.tenant, c.req.chain, c.req.uniqueId);
      EncodedKeyReads(lib.ed25519(c.tenant.enc.seed.value, path).value);
    }
  }

  /** The encoding of twenty bytes: exactly what the chain client's decoder accepts. */
  ghost predicate IsTronText(sha: seq<nat> -> seq<nat>, s: string) {
    IsHash(sha) && exists bs :: |bs| == 20 && IsBytes(bs) && s == EncodeAddress(sha, bs)
  }

  lemma TronWallet<Point(!new)>(lib: Library<Point>, v: Vault<Point>, xpub: string, tenant: nat, index: nat,
                                code: string, addr: string, path: string)
    requires Sound(lib) && code == "TRON" && lib.lookup(code).Some? && lib.lookup(code).value.name == code
    requires DeriveAddressFromXpub(lib, v, xpub, tenant, index, code) == Some((addr, path))
    ensures IsTronText(lib.curve.sha, addr)
  {
    var def := lib.lookup(code).value;
    assert def.name != "SOLANA";
    var leaf := LeafBelow(lib.curve, lib.read(xpub).value, index).value;
    TronAddressOn(lib.curve, def.name, leaf.at, addr);
  }

  lemma TronAddressOn<Point(!new)>(c: Curve<Point>, name: string, at: Point, addr: string)
    requires Lawful(c) && name == "TRON" && AddressOn(c, name, at) == Some(addr)
    ensures IsTronText(c.sha, addr)
  {
  }

  /** Every TRON address the service hands out is one the chain client accepts. */
  lemma ServedTronAddressIsReadable<Point(!new)>(lib: Library<Point>, masters: nat -> Vault<Point>,
                                                 actions: seq<T.Action<Vault<Point>>>, t: nat)
    requires Sound(lib) && T.CanonicalStarts(Derivation(lib), masters, actions)
    requires t < |T.After(Derivation(lib), actions).sessions|
    ensures T.After(Derivation(lib), actions).sessions[t].req.chain == "TRON" && Answer(lib, actions, t).Some?
            ==> IsTronText(lib.curve.sha, Answer(lib, actions, t).value.1)
  {
    var c := T.After(Derivation(lib), actions).sessions[t];
    if c.req.chain == "TRON" && Answer(lib, actions, t).Some? {
      ServedIsDerived(lib, masters, actions, t);
      var tenant, v := c.tenant.id % UINT32, c.tenant.enc;
      var xpub, row, addr, path := FreshParts(lib, c.tenant, c.req.chain, c.req.uniqueId);
      TronWallet(lib, v, xpub, tenant, c.req.uniqueId, c.req.chain, addr, path);
    }
  }

  // ---- the hypotheses can be met -------------------------------------------------------------------

  /** A node as a list of path segments; only the first one of a private node is hardened. */
  function NodeSegments(n: Node<nat>): (segs: seq<Segment>)
    ensures |segs| == |n.chain| + 1
  {
    var head := if n.Private? then Segment(n.key, true) else Segment(n.at, false);
    [head] + seq(|n.chain|, i requires 0 <= i < |n.chain| => Segment(n.chain[i], false))
  }

  function WriteNode(n: Node<nat>): string {
    PathText(NodeSegments(n))
  }

  function SegmentsOf(texts: seq<string>): (segs: seq<Segment>)
    ensures |segs| == |texts|
  {
    seq(|texts|, i requires 0 <= i < |texts| =>
      match ReadSegment(texts[i]) case Some(seg) => seg case None => Segment(0, false))
  }

  function Indices(segs: seq<Segment>): (ns: seq<nat>)
    ensures |ns| == |segs|
  {
    seq(|segs|, i requires 0 <= i < |segs| => segs[i].index)
  }

  function NodeOf(segs: seq<Segment>): Option<Node<nat>> {
    if segs == [] then None
    else Some(if segs[0].hardened then Private(segs[0].index, Indices(segs[1..]))
      else Public(segs[0].index, Indices(segs[1..])))
  }

  function ReadNode(s: string): Option<Node<nat>> {
    NodeOf(SegmentsOf(Split(s)[1..]))
  }

  lemma SegmentsRoundTrip(segs: seq<Segment>)
    ensures SegmentsOf(SegmentTexts(segs)) == segs
  {
    forall i | 0 <= i < |segs| ensures ReadSegment(SegmentTexts(segs)[i]) == Some(segs[i]) {
      SegmentRoundTrip(segs[i]);
    }
  }

  lemma NodeOfSegments(n: Node<nat>)
    ensures NodeOf(NodeSegments(n)) == Some(n)
  {
    var segs := NodeSegments(n);
    assert forall i :: 0 <= i < |n.chain| ==> segs[1..][i] == Segment(n.chain[i], false);
    assert Indices(segs[1..]) == n.chain;
  }

  lemma NodeRoundTrip(n: Node<nat>)
    ensures ReadNode(WriteNode(n)) == Some(n)
  {
    SplitOfPath(NodeSegments(n));
    assert Split(WriteNode(n))[1..] == SegmentTexts(NodeSegments(n));
    SegmentsRoundTrip(NodeSegments(n));
    NodeOfSegments(n);
  }

  function SmallLibrary(hash: (seq<nat>, Data<nat>) -> (nat, seq<nat>), upper: seq<nat> -> (nat -> bool))
    : Library<nat>
  {
    Library(code => W.CheckValidChainCode(code), SmallCurve(hash, upper), (n: Node<nat>) => WriteNode(n),
            (s: string) => ReadNode(s), (seed: seq<nat>, path: string) => Some(Zeros(32)))
  }

  /** The service's own registry with a concrete group and a concrete text form of keys qualifies. */
  lemma LibraryIsSatisfiable(hash: (seq<nat>, Data<nat>) -> (nat, seq<nat>), upper: seq<nat> -> (nat -> bool))
    ensures Sound(SmallLibrary(hash, upper))
  {
    var lib := SmallLibrary(hash, upper);
    LawsAreSatisfiable(hash, upper);
    forall n ensures lib.read(lib.write(n)) == Some(n) {
      NodeRoundTrip(n);
    }
    forall code | lib.lookup(code).Some? ensures lib.lookup(code).value.coinType < HARDENED {
      RegistryCoins(code);
    }
  }
}
