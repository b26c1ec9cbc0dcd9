/** Hierarchical keys: an address derived from an account's public key equals the address of
    the private key derived from the master along the printed path. The curve, the keyed hash
    and the address hashes are arbitrary functions constrained by the laws stated here. */
module KeyDerivation {
  import opened AddressText
  import opened Positional
  import opened KeyPaths
  import opened TronAddress
  import opened Base58

  /** What the keyed hash is applied to: a private key (hardened child) or a point (normal child). */
  datatype Data<Point> = OfKey(key: nat, index: nat) | OfPoint(at: Point, index: nat)

  datatype Curve<!Point(==)> = Curve(
    order: nat,
    point: nat -> Point,
    add: (Point, Point) -> Point,
    hash: (seq<nat>, Data<Point>) -> (nat, seq<nat>),
    rejects: (nat, Point) -> bool,
    address: Point -> seq<nat>,
    upper: seq<nat> -> (nat -> bool),
    sha: seq<nat> -> seq<nat>)

  /** point is a homomorphism from the integers mod order. */
  ghost predicate Lawful<Point(!new)>(c: Curve<Point>) {
    && c.order > 1
    && (forall a: nat, b: nat {:trigger c.add(c.point(a), c.point(b))} ::
          c.point((a + b) % c.order) == c.add(c.point(a), c.point(b)))
    && Encodable(c)
  }

  /** The hashes behind address texts have the right lengths. */
  ghost predicate Encodable<Point(!new)>(c: Curve<Point>) {
    (forall p :: IsAddress(c.address(p))) && IsHash(c.sha)
  }

  datatype Node<Point> = Private(key: nat, chain: seq<nat>) | Public(at: Point, chain: seq<nat>)

  function Neuter<Point(==)>(c: Curve<Point>, n: Node<Point>): Node<Point> {
    if n.Private? then Public(c.point(n.key), n.chain) else n
  }

  function Map<A, B>(o: Option<A>, f: A -> B): Option<B> {
    match o case Some(a) => Some(f(a)) case None => None
  }

  /** What is hashed for child i: a hardened child of a private key takes the key, others the point. */
  function DataOf<Point(==)>(c: Curve<Point>, n: Node<Point>, i: nat): Data<Point> {
    match n
    case Private(k, _) => if i >= HARDENED then OfKey(k, i) else OfPoint(c.point(k), i)
    case Public(at, _) => OfPoint(at, i)
  }

  /** One child step (BIP-32, section "Child key derivation (CKD) functions"). Besides a hash that is
      too large, `rejects` may refuse a child by hash and point: BIP-32 refuses the point at
      infinity, other implementations a zero hash. */
  function Child<Point(==)>(c: Curve<Point>, n: Node<Point>, i: nat): Option<Node<Point>>
    requires c.order > 0
  {
    if n.Public? && i >= HARDENED then None
    else
      var (il, ir) := c.hash(n.chain, DataOf(c, n, i));
      match n
      case Private(k, _) =>
        var child := (il + k) % c.order;
        if il >= c.order || c.rejects(il, c.point(child)) then None else Some(Private(child, ir))
      case Public(at, _) =>
        var child := c.add(c.point(il), at);
        if il >= c.order || c.rejects(il, child) then None else Some(Public(child, ir))
  }

  function Derived<Point(==)>(c: Curve<Point>, n: Node<Point>, path: seq<nat>): Option<Node<Point>>
    requires c.order > 0
    decreases |path|
  {
    if path == [] then Some(n)
    else match Child(c, n, path[0])
         case Some(m) => Derived(c, m, path[1..])
         case None => None
  }

  method DerivePathMust<Point(==)>(c: Curve<Point>, key: Node<Point>, path: seq<nat>) returns (r: Option<Node<Point>>)
    requires c.order > 0
    ensures r == Derived(c, key, path)
  {
    var curr := key;
    for i := 0 to |path|
      invariant Derived(c, curr, path[i..]) == Derived(c, key, path)
    {
      var next := Child(c, curr, path[i]);
      assert path[i..][1..] == path[i + 1..];
      if next.None? {
        return None;
      }
      curr := next.value;
    }
    return Some(curr);
  }

  /** Deriving publicly what was neutered equals neutering what was derived privately, errors
      included. */
  lemma ChildCommutesWithNeuter<Point(!new)>(c: Curve<Point>, n: Node<Point>, i: nat)
    requires Lawful(c) && n.Private? && i < HARDENED
    ensures Child(c, Neuter(c, n), i) == Map(Child(c, n, i), m => Neuter(c, m))
  {
    var (il, ir) := c.hash(n.chain, OfPoint(c.point(n.key), i));
    var k := (il + n.key) % c.order;
    assert c.point(k) == c.add(c.point(il), c.point(n.key));
  }

  lemma {:induction false} DerivedConcat<Point(!new)>(c: Curve<Point>, n: Node<Point>, a: seq<nat>, b: seq<nat>)
    requires c.order > 0
    ensures Derived(c, n, a + b) == match Derived(c, n, a) case Some(m) => Derived(c, m, b) case None => None
    decreases |a|
  {
    if a == [] {
      assert a + b == b;
    } else {
      assert (a + b)[1..] == a[1..] + b;
      var m := Child(c, n, a[0]);
      if m.Some? {
        DerivedConcat(c, m.value, a[1..], b);
      }
    }
  }

  lemma {:induction false} PrivateStaysPrivate<Point(!new)>(c: Curve<Point>, n: Node<Point>, path: seq<nat>)
    requires c.order > 0 && n.Private? && Derived(c, n, path).Some?
    ensures Derived(c, n, path).value.Private?
    decreases |path|
  {
    if path == [] {
    } else {
      PrivateStaysPrivate(c, Child(c, n, path[0]).value, path[1..]);
    }
  }

  // ---- the service functions ------------------------------------------------------------

  datatype ChainDef = ChainDef(name: string, coinType: nat)

  /** Address of a public key on a chain; other chain names are not supported. */
  function AddressOn<Point(==,!new)>(c: Curve<Point>, chain: string, at: Point): Option<string>
    requires Encodable(c)
  {
    if chain in {"ETH", "BSC", "OP", "ARB", "POLYGON"} then Some(ChecksumText(c.address(at), c.upper(c.address(at))))
    else if chain == "TRON" then Some(EncodeAddress(c.sha, c.address(at)))
    else None
  }

  /** The twenty bytes an address text on this chain stands for, as its readers see them. */
  function AddressIn<Point(==,!new)>(c: Curve<Point>, chain: string, addr: string): Option<seq<nat>>
    requires IsHash(c.sha)
  {
    if chain == "TRON" then
      match ReadAddress(c.sha, addr) case Ok(bs) => Some(bs) case Err(_) => None
    else Some(HexToAddress(addr))
  }

  /** Six chains have addresses, and an address text stands for the hash of the public key it was made of. */
  lemma AddressDenotes<Point(!new)>(c: Curve<Point>, chain: string, at: Point)
    requires Encodable(c)
    ensures AddressOn(c, chain, at).Some? <==> chain in {"ETH", "BSC", "OP", "ARB", "POLYGON", "TRON"}
    ensures AddressOn(c, chain, at).Some? ==> AddressIn(c, chain, AddressOn(c, chain, at).value) == Some(c.address(at))
  {
    var a := c.address(at);
    assert |"TRON"| == 4 && "TRON"[0] == 'T';
    if chain == "TRON" {
      ReadOfEncoded(c.sha, a);
    } else {
      ChecksumRoundTrip(a, c.upper(a));
    }
  }

  datatype DerivedChain<Point> = DerivedChain(path: string, xpub: Node<Point>)

  /** Additions are uint32, so they wrap. */
  function AccountPath(tenant: nat, coin: nat): seq<nat> {
    [(44 + HARDENED) % UINT32, (coin + HARDENED) % UINT32, (tenant + HARDENED) % UINT32]
  }

  function GenerateEvmDerivationChain<Point(==)>(c: Curve<Point>, master: Option<Node<Point>>, tenant: nat,
                                                 chain: ChainDef): Option<DerivedChain<Point>>
    requires c.order > 0
  {
    match master
    case None => None
    case Some(m) =>
      match Derived(c, m, AccountPath(tenant, chain.coinType))
      case None => None
      case Some(n) => Some(DerivedChain("m/44'" + Hard(chain.coinType) + Hard(tenant) + "/0", Neuter(c, n)))
  }

  function DeriveEvmAddressFromXpub<Point(==,!new)>(c: Curve<Point>, xpub: Node<Point>, tenant: nat, index: nat,
                                               chain: ChainDef): Option<(string, string)>
    requires c.order > 0 && Encodable(c)
  {
    if xpub.Private? then None
    else match LeafBelow(c, xpub, index)
         case None => None
         case Some(leaf) =>
           if leaf.Private? then None
           else match AddressOn(c, chain.name, leaf.at)
                case None => None
                case Some(addr) => Some((addr, EvmPath(chain.coinType, tenant, index)))
  }

  /** The external address node (change 0) number `index` below an account. */
  function LeafBelow<Point(==)>(c: Curve<Point>, n: Node<Point>, index: nat): Option<Node<Point>>
    requires c.order > 0
  {
    match Child(c, n, 0)
    case Some(ext) => Child(c, ext, index)
    case None => None
  }

  lemma TwoSteps<Point(!new)>(c: Curve<Point>, n: Node<Point>, index: nat)
    requires c.order > 0
    ensures Derived(c, n, [0, index]) == LeafBelow(c, n, index)
  {
    assert [0, index][1..] == [index];
    assert [index][1..] == [];
    var ext := Child(c, n, 0);
    if ext.Some? {
      assert Derived(c, ext.value, [index]) == Child(c, ext.value, index);
    }
  }

  /** The private leaf of a path; the first number of a parsed path stands for "m" and is skipped. */
  function LeafOf<Point(==)>(c: Curve<Point>, master: Option<Node<Point>>, path: string): Option<Node<Point>>
    requires c.order > 0
  {
    match (master, ParsedPath(path))
    case (Some(m), Some(idxs)) =>
      (match Derived(c, m, idxs[1..])
       case Some(n) => if n.Private? then Some(n) else None
       case None => None)
    case _ => None
  }

  method DeriveChildXprv<Point(==)>(c: Curve<Point>, master: Option<Node<Point>>, path: string)
    returns (r: Option<Node<Point>>)
    requires c.order > 0
    ensures r == LeafOf(c, master, path)
  {
    if master.None? {
      return None;
    }
    var idxs := ParseBIP44Path(path);
    if idxs.None? {
      return None;
    }
    var node := master.value;
    var steps := idxs.value[1..];
    for i := 0 to |steps|
      invariant Derived(c, node, steps[i..]) == Derived(c, master.value, steps)
    {
      var next := Child(c, node, steps[i]);
      assert steps[i..][1..] == steps[i + 1..];
      if next.None? {
        return None;
      }
      node := next.value;
    }
    if !node.Private? {
      return None;
    }
    return Some(node);
  }

  function AddressAndPrivFromPath<Point(==,!new)>(c: Curve<Point>, master: Option<Node<Point>>, path: string,
                                             chain: string): Option<(string, nat)>
    requires c.order > 0 && Encodable(c)
  {
    match LeafOf(c, master, path)
    case None => None
    case Some(leaf) =>
      match AddressOn(c, chain, c.point(leaf.key))
      case None => None
      case Some(addr) => Some((addr, leaf.key))
  }

  /** The signing route gives the private leaf of the path, and the address of its public key. */
  lemma SigningAddressIsOfItsKey<Point(!new)>(c: Curve<Point>, master: Option<Node<Point>>, path: string, chain: string)
    requires c.order > 0 && Encodable(c)
    ensures match AddressAndPrivFromPath(c, master, path, chain)
            case None => true
            case Some((addr, key)) =>
              && LeafOf(c, master, path).Some? && LeafOf(c, master, path).value.Private?
              && LeafOf(c, master, path).value.key == key
              && AddressIn(c, chain, addr) == Some(c.address(c.point(key)))
  {
    var leaf := LeafOf(c, master, path);
    if leaf.Some? {
      AddressDenotes(c, chain, c.point(leaf.value.key));
    }
  }

  /** The watch-only route gives the address of the public leaf below the account, and its path. */
  lemma WatchAddressIsOfItsLeaf<Point(!new)>(c: Curve<Point>, xpub: Node<Point>, tenant: nat, index: nat,
                                             chain: ChainDef)
    requires c.order > 0 && Encodable(c)
    ensures match DeriveEvmAddressFromXpub(c, xpub, tenant, index, chain)
            case None => true
            case Some((addr, path)) =>
              && LeafBelow(c, xpub, index).Some? && LeafBelow(c, xpub, index).value.Public?
              && AddressIn(c, chain.name, addr) == Some(c.address(LeafBelow(c, xpub, index).value.at))
              && path == EvmPath(chain.coinType, tenant, index)
  {
    var leaf := LeafBelow(c, xpub, index);
    if leaf.Some? && leaf.value.Public? {
      AddressDenotes(c, chain.name, leaf.value.at);
    }
  }

  /** The account's path is the part of the wallet paths before the index. */
  lemma AccountPathIsPrefix<Point(!new)>(c: Curve<Point>, master: Option<Node<Point>>, tenant: nat, index: nat,
                                         chain: ChainDef)
    requires c.order > 0
    ensures match GenerateEvmDerivationChain(c, master, tenant, chain)
            case None => true
            case Some(dc) => dc.path + Soft(index) == EvmPath(chain.coinType, tenant, index)
  {
  }

  // ---- different paths, different keys ---------------------------------------------------------

  lemma DataTellsIndex<Point(!new)>(c: Curve<Point>, n: Node<Point>, i: nat, j: nat)
    ensures DataOf(c, n, i) == DataOf(c, n, j) <==> i == j
  {
  }

  lemma SameShift(a: nat, b: nat, k: nat, n: nat)
    requires a < n && b < n && (a + k) % n == (b + k) % n
    ensures a == b
  {
    DivModParts(a + k, n);
    DivModParts(b + k, n);
    var d := (a + k) / n - (b + k) / n;
    assert n * d == a - b;
    SmallMultiple(n, d);
  }

  /** Two children of one private key are the same key if and only if the hashes of their two
      different inputs have the same left half. */
  lemma SiblingKeys<Point(!new)>(c: Curve<Point>, n: Node<Point>, i: nat, j: nat)
    requires c.order > 0 && n.Private? && Child(c, n, i).Some? && Child(c, n, j).Some?
    ensures Child(c, n, i).value.Private? && Child(c, n, j).value.Private?
    ensures Child(c, n, i).value.key == Child(c, n, j).value.key
            <==> c.hash(n.chain, DataOf(c, n, i)).0 == c.hash(n.chain, DataOf(c, n, j)).0
  {
    var a, b := c.hash(n.chain, DataOf(c, n, i)).0, c.hash(n.chain, DataOf(c, n, j)).0;
    if Child(c, n, i).value.key == Child(c, n, j).value.key {
      SameShift(a, b, n.key, c.order);
    }
  }

  /** Two different inputs of the keyed hash with the same right half. */
  ghost predicate Collides<Point(!new)>(c: Curve<Point>) {
    exists ch, d, ch', d' :: (ch != ch' || d != d') && c.hash(ch, d).1 == c.hash(ch', d').1
  }

  ghost predicate PointsApart<Point(!new)>(c: Curve<Point>) {
    forall a: nat, b: nat :: a < c.order && b < c.order && c.point(a) == c.point(b) ==> a == b
  }

  predicate Reduced<Point>(c: Curve<Point>, n: Node<Point>) {
    n.Private? && n.key < c.order
  }

  lemma ChildrenApart<Point(!new)>(c: Curve<Point>, n: Node<Point>, i: nat, m: Node<Point>, j: nat)
    requires PointsApart(c) && Reduced(c, n) && Reduced(c, m) && c.order > 0
    requires Child(c, n, i).Some? && Child(c, n, i) == Child(c, m, j) && (n != m || i != j)
    ensures Collides(c)
  {
    assert n.chain != m.chain || DataOf(c, n, i) != DataOf(c, m, j);
    assert c.hash(n.chain, DataOf(c, n, i)).1 == c.hash(m.chain, DataOf(c, m, j)).1;
  }

  lemma LastStep<Point(!new)>(c: Curve<Point>, n: Node<Point>, path: seq<nat>)
    requires Reduced(c, n) && c.order > 0 && path != [] && Derived(c, n, path).Some?
    ensures var init := Derived(c, n, path[..|path| - 1]);
            init.Some? && Reduced(c, init.value) && Child(c, init.value, path[|path| - 1]) == Derived(c, n, path)
  {
    var init, last := path[..|path| - 1], path[|path| - 1];
    assert path == init + [last];
    DerivedConcat(c, n, init, [last]);
    StaysReduced(c, n, init);
    var m := Derived(c, n, init).value;
    assert [last][1..] == [];
    assert Derived(c, m, [last]) == Child(c, m, last);
  }

  lemma {:induction false} StaysReduced<Point(!new)>(c: Curve<Point>, n: Node<Point>, path: seq<nat>)
    requires Reduced(c, n) && c.order > 0 && Derived(c, n, path).Some?
    ensures Reduced(c, Derived(c, n, path).value)
    decreases |path|
  {
    if path == [] {
    } else {
      StaysReduced(c, Child(c, n, path[0]).value, path[1..]);
    }
  }

  /** Two different paths of one length lead from a master to different nodes, or the hash collides. */
  lemma {:induction false} PathsLeadApart<Point(!new)>(c: Curve<Point>, m: Node<Point>, p: seq<nat>, q: seq<nat>)
    requires PointsApart(c) && Reduced(c, m) && c.order > 0 && |p| == |q| && p != q
    requires Derived(c, m, p).Some? && Derived(c, m, p) == Derived(c, m, q)
    ensures Collides(c)
    decreases |p|
  {
    var k := |p| - 1;
    LastStep(c, m, p);
    LastStep(c, m, q);
    var n, n' := Derived(c, m, p[..k]).value, Derived(c, m, q[..k]).value;
    if n == n' && p[k] == q[k] {
      assert p == p[..k] + [p[k]] && q == q[..k] + [q[k]];
      PathsLeadApart(c, m, p[..k], q[..k]);
    } else {
      ChildrenApart(c, n, p[k], n', q[k]);
    }
  }

  /** The child numbers of a wallet's leaf. */
  function LeafNumbers(coin: nat, tenant: nat, index: nat): seq<nat> {
    AccountPath(tenant, coin) + [0, index]
  }

  lemma LeafNumbersTell(coin: nat, tenant: nat, index: nat, coin': nat, tenant': nat, index': nat)
    requires coin < HARDENED && tenant < HARDENED && index < HARDENED
    requires coin' < HARDENED && tenant' < HARDENED && index' < HARDENED
    requires LeafNumbers(coin, tenant, index) == LeafNumbers(coin', tenant', index')
    ensures coin == coin' && tenant == tenant' && index == index'
  {
    var p, q := LeafNumbers(coin, tenant, index), LeafNumbers(coin', tenant', index');
    assert p[1] == coin + HARDENED && p[2] == tenant + HARDENED && p[4] == index;
    assert q[1] == coin' + HARDENED && q[2] == tenant' + HARDENED && q[4] == index';
  }

  lemma LeafOfWallet<Point(!new)>(c: Curve<Point>, m: Node<Point>, coin: nat, tenant: nat, index: nat)
    requires c.order > 0 && m.Private? && coin < HARDENED && tenant < HARDENED && index < HARDENED
    ensures LeafOf(c, Some(m), EvmPath(coin, tenant, index)) == Derived(c, m, LeafNumbers(coin, tenant, index))
  {
    PathSplits(coin, tenant, index);
    LeafOfPath(c, m, EvmPath(coin, tenant, index), LeafNumbers(coin, tenant, index));
  }

  /** Two different wallets of one master, whatever their coins, tenants and indices below 2^31, have
      different leaves, or the hash collides. */
  lemma WalletsHaveOwnLeaves<Point(!new)>(c: Curve<Point>, m: Node<Point>, coin: nat, tenant: nat, index: nat,
                                          coin': nat, tenant': nat, index': nat)
    requires PointsApart(c) && Reduced(c, m) && c.order > 0
    requires coin < HARDENED && tenant < HARDENED && index < HARDENED
    requires coin' < HARDENED && tenant' < HARDENED && index' < HARDENED
    requires coin != coin' || tenant != tenant' || index != index'
    ensures var a, b := EvmPath(coin, tenant, index), EvmPath(coin', tenant', index');
            LeafOf(c, Some(m), a).Some? && LeafOf(c, Some(m), a) == LeafOf(c, Some(m), b) ==> Collides(c)
  {
    LeafOfWallet(c, m, coin, tenant, index);
    LeafOfWallet(c, m, coin', tenant', index');
    var p, q := LeafNumbers(coin, tenant, index), LeafNumbers(coin', tenant', index');
    if p == q {
      LeafNumbersTell(coin, tenant, index, coin', tenant', index');
    } else if Derived(c, m, p).Some? && Derived(c, m, p) == Derived(c, m, q) {
      PathsLeadApart(c, m, p, q);
    }
  }

  // ---- agreement -----------------------------------------------------------------------------

  /** The watch-only route: account key from the master, address from the account key. */
  function WatchRoute<Point(==,!new)>(c: Curve<Point>, master: Option<Node<Point>>, tenant: nat, index: nat,
                                 chain: ChainDef): Option<string>
    requires c.order > 0 && Encodable(c)
  {
    match GenerateEvmDerivationChain(c, master, tenant, chain)
    case None => None
    case Some(dc) =>
      match DeriveEvmAddressFromXpub(c, dc.xpub, tenant, index, chain)
      case None => None
      case Some((addr, _)) => Some(addr)
  }

  /** The signing route: the printed path, parsed and followed from the master. */
  function SigningRoute<Point(==,!new)>(c: Curve<Point>, master: Option<Node<Point>>, tenant: nat, index: nat,
                                   chain: ChainDef): Option<string>
    requires c.order > 0 && Encodable(c)
  {
    match AddressAndPrivFromPath(c, master, EvmPath(chain.coinType, tenant, index), chain.name)
    case None => None
    case Some((addr, _)) => Some(addr)
  }

  lemma EvmSegmentsListed(coin: nat, tenant: nat, index: nat)
    ensures EvmSegments(coin, tenant, index)
            == [Segment(44, true), Segment(coin, true), Segment(tenant, true), Segment(0, false), Segment(index, false)]
  {
  }

  lemma EvmNumbers(coin: nat, tenant: nat, index: nat)
    requires coin < HARDENED && tenant < HARDENED && index < HARDENED
    ensures Small(EvmSegments(coin, tenant, index))
    ensures Encoded(EvmSegments(coin, tenant, index)) == AccountPath(tenant, coin) + [0, index]
  {
    EvmSegmentsListed(coin, tenant, index);
  }

  lemma PathSplits(coin: nat, tenant: nat, index: nat)
    requires coin < HARDENED && tenant < HARDENED && index < HARDENED
    ensures ParsedPath(EvmPath(coin, tenant, index)) == Some([0] + (AccountPath(tenant, coin) + [0, index]))
  {
    EvmPathSegments(coin, tenant, index);
    PathRoundTrip(EvmSegments(coin, tenant, index));
    EvmNumbers(coin, tenant, index);
  }

  lemma LeafOfPath<Point(!new)>(c: Curve<Point>, m: Node<Point>, path: string, idxs: seq<nat>)
    requires c.order > 0 && m.Private? && ParsedPath(path) == Some([0] + idxs)
    ensures LeafOf(c, Some(m), path) == Derived(c, m, idxs)
    ensures Derived(c, m, idxs).Some? ==> Derived(c, m, idxs).value.Private?
  {
    assert ([0] + idxs)[1..] == idxs;
    if Derived(c, m, idxs).Some? {
      PrivateStaysPrivate(c, m, idxs);
    }
  }

  /** Below one account, the neutered node leads to the address of the private leaf. */
  lemma AccountAgrees<Point(!new)>(c: Curve<Point>, n: Node<Point>, tenant: nat, index: nat, chain: ChainDef)
    requires Lawful(c) && n.Private? && index < HARDENED
    ensures Map(DeriveEvmAddressFromXpub(c, Neuter(c, n), tenant, index, chain), (w: (string, string)) => w.0)
            == match LeafBelow(c, n, index)
               case None => None
               case Some(leaf) => if leaf.Private? then AddressOn(c, chain.name, c.point(leaf.key)) else None
  {
    ChildCommutesWithNeuter(c, n, 0);
    var ext := Child(c, n, 0);
    if ext.Some? {
      ChildCommutesWithNeuter(c, ext.value, index);
    }
  }

  /** Watch-only and signing derivation agree on every master, coin, tenant and index below 2^31
      and on every chain: both fail, or both give the same address. */
  lemma WatchAgreesWithSigning<Point(!new)>(c: Curve<Point>, master: Option<Node<Point>>, tenant: nat, index: nat,
                                            chain: ChainDef)
    requires Lawful(c) && (master.Some? ==> master.value.Private?)
    requires chain.coinType < HARDENED && tenant < HARDENED && index < HARDENED
    ensures WatchRoute(c, master, tenant, index, chain) == SigningRoute(c, master, tenant, index, chain)
  {
    if master.Some? {
      var m, account, path := master.value, AccountPath(tenant, chain.coinType), EvmPath(chain.coinType, tenant, index);
      PathSplits(chain.coinType, tenant, index);
      LeafOfPath(c, m, path, account + [0, index]);
      DerivedConcat(c, m, account, [0, index]);
      var n := Derived(c, m, account);
      if n.Some? {
        PrivateStaysPrivate(c, m, account);
        TwoSteps(c, n.value, index);
        AccountAgrees(c, n.value, tenant, index, chain);
      }
    }
  }

  lemma PathRefused(coin: nat, tenant: nat, index: nat)
    requires coin >= HARDENED || tenant >= HARDENED || index >= HARDENED
    ensures ParsedPath(EvmPath(coin, tenant, index)) == None
  {
    EvmPathSegments(coin, tenant, index);
    var segs := EvmSegments(coin, tenant, index);
    PathRoundTrip(segs);
    EvmSegmentsListed(coin, tenant, index);
    assert segs[1].index >= HARDENED || segs[2].index >= HARDENED || segs[4].index >= HARDENED;
  }

  /** The bound is exact for the signing side: a printed path with an index of 2^31 or more is
      refused, whatever the keys; the watch-only side refuses such an address index too. */
  lemma SigningNeedsSmallIndices<Point(!new)>(c: Curve<Point>, master: Option<Node<Point>>, tenant: nat, index: nat,
                                              chain: ChainDef)
    requires Lawful(c)
    requires chain.coinType >= HARDENED || tenant >= HARDENED || index >= HARDENED
    ensures SigningRoute(c, master, tenant, index, chain) == None
    ensures index >= HARDENED ==> WatchRoute(c, master, tenant, index, chain) == None
  {
    PathRefused(chain.coinType, tenant, index);
    var dc := GenerateEvmDerivationChain(c, master, tenant, chain);
    if index >= HARDENED && dc.Some? && dc.value.xpub.Public? {
      var ext := Child(c, dc.value.xpub, 0);
      assert ext.Some? ==> ext.value.Public?;
    }
  }

  /** The integers mod 7 with generator 1. */
  function SmallCurve(hash: (seq<nat>, Data<nat>) -> (nat, seq<nat>), upper: seq<nat> -> (nat -> bool)): Curve<nat> {
    Curve<nat>.Curve(7, (a: nat) => a % 7, (p: nat, q: nat) => (p + q) % 7, hash, (il: nat, p: nat) => p == 0,
                     (p: nat) => Zeros(20), upper, (m: seq<nat>) => Zeros(32))
  }

  lemma ModSum(a: nat, b: nat)
    ensures (a + b) % 7 % 7 == (a % 7 + b % 7) % 7
  {
    assert a + b == (a % 7 + b % 7) + 7 * (a / 7 + b / 7);
  }

  lemma SmallPoints(hash: (seq<nat>, Data<nat>) -> (nat, seq<nat>), upper: seq<nat> -> (nat -> bool), a: nat, b: nat)
    ensures var c := SmallCurve(hash, upper); c.point((a + b) % c.order) == c.add(c.point(a), c.point(b))
  {
    ModSum(a, b);
  }

  lemma SmallHashes(hash: (seq<nat>, Data<nat>) -> (nat, seq<nat>), upper: seq<nat> -> (nat -> bool), m: seq<nat>,
                    p: nat)
    ensures var c := SmallCurve(hash, upper);
            |c.sha(m)| == 32 && IsBytes(c.sha(m)) && IsAddress(c.address(p))
  {
    var c := SmallCurve(hash, upper);
    assert c.sha(m) == Zeros(32) && c.address(p) == Zeros(20);
  }

  lemma SmallPointsApart(hash: (seq<nat>, Data<nat>) -> (nat, seq<nat>), upper: seq<nat> -> (nat -> bool))
    ensures PointsApart(SmallCurve(hash, upper))
  {
    var c := SmallCurve(hash, upper);
    forall a: nat, b: nat | a < c.order && b < c.order && c.point(a) == c.point(b) ensures a == b {
      assert a % 7 == a && b % 7 == b;
    }
  }

  lemma SmallCurveEncodes(hash: (seq<nat>, Data<nat>) -> (nat, seq<nat>), upper: seq<nat> -> (nat -> bool))
    ensures Encodable(SmallCurve(hash, upper))
  {
    var c := SmallCurve(hash, upper);
    forall m ensures |c.sha(m)| == 32 && IsBytes(c.sha(m)) {
      SmallHashes(hash, upper, m, 0);
    }
    forall p: nat ensures IsAddress(c.address(p)) {
      SmallHashes(hash, upper, [], p);
    }
  }

  /** The laws can be met, with any keyed hash. */
  lemma LawsAreSatisfiable(hash: (seq<nat>, Data<nat>) -> (nat, seq<nat>), upper: seq<nat> -> (nat -> bool))
    ensures Lawful(SmallCurve(hash, upper)) && PointsApart(SmallCurve(hash, upper))
  {
    var c := SmallCurve(hash, upper);
    SmallCurveEncodes(hash, upper);
    SmallPointsApart(hash, upper);
    forall a: nat, b: nat ensures c.point((a + b) % c.order) == c.add(c.point(a), c.point(b)) {
      SmallPoints(hash, upper, a, b);
    }
  }
}
