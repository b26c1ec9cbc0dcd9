/** Batched balance queries: every strategy answers what one query per item would answer. */
module BalanceQueries {
  import opened Positional
  import opened HexText
  import opened AddressText
  import opened Batching

  /** Twenty address bytes. */
  type Address = seq<nat>

  /** Token contract and owner. */
  type Pair = (Address, Address)

  /** The chain at one block: native balances, and what a call of a contract returns (None: it
      reverts). `selector` is that of balanceOf(address). */
  datatype Chain = Chain(native: Address -> Option<nat>, call: (Address, seq<nat>) -> Option<seq<nat>>,
                         selector: seq<nat>) {
    /** balanceOf asked of the token contract: the owner is the argument, in 32 bytes. */
    function BalanceOf(p: Pair): Option<seq<nat>> {
      call(p.0, selector + Zeros(12) + p.1)
    }
  }

  /** Reading an address from text, and its checksummed (EIP-55) text. */
  datatype Codec = Codec(parse: string -> Address, hex: Address -> string)

  /** The pair the client uses; `upper` stands for the hash that picks the upper-case letters. */
  function AddressCodec(upper: Address -> (nat -> bool)): Codec {
    Codec(s => HexToAddress(s), a => if IsAddress(a) then ChecksumText(a, upper(a)) else "")
  }

  lemma AddressCodecIsFaithful(upper: Address -> (nat -> bool))
    ensures Faithful(AddressCodec(upper))
  {
    var c := AddressCodec(upper);
    forall a: Address | IsAddress(a) ensures c.parse(c.hex(a)) == a {
      ChecksumRoundTrip(a, upper(a));
    }
  }

  ghost predicate Answers(chain: Chain) {
    forall p: Pair {:trigger chain.BalanceOf(p)} :: chain.BalanceOf(p).Some? ==> IsDigits(chain.BalanceOf(p).value, 256)
  }

  ghost predicate Faithful(c: Codec) {
    && (forall a: Address {:trigger c.hex(a)} :: IsAddress(a) ==> c.parse(c.hex(a)) == a)
    && (forall s: string {:trigger c.parse(s)} :: IsAddress(c.parse(s)))
  }

  // ---- native balances ------------------------------------------------------------------

  /** hexToBig: the empty string, left by an element that failed, counts as zero. */
  function HexToBig(s: string): nat {
    if s == "" then 0
    else match ParseNat(WithoutHexPrefix(s), 16)
         case Some(n) => n
         case None => 0
  }

  /** What the node writes into one element of a batch. */
  function NativeReply(o: Option<nat>): string {
    match o case Some(n) => "0x" + Text(n, 16) case None => ""
  }

  function Amount(o: Option<nat>): nat {
    match o case Some(n) => n case None => 0
  }

  lemma NativeReplyReads(o: Option<nat>)
    ensures HexToBig(NativeReply(o)) == Amount(o)
  {
    if o.Some? {
      var s := "0x" + Text(o.value, 16);
      assert s[..2] == "0x" && s[2..] == Text(o.value, 16);
      ParseOfText(o.value, 16);
    }
  }

  function NativeMap(chain: Chain, c: Codec, addrs: seq<string>): map<string, nat> {
    map ad | ad in addrs :: Amount(chain.native(c.parse(ad)))
  }

  /** Exactly these addresses, each with the balance the node reports, or with zero where it fails. */
  ghost predicate MapsBalances(chain: Chain, c: Codec, addrs: seq<string>, balances: map<string, nat>) {
    && (forall ad :: ad in balances <==> ad in addrs)
    && (forall ad <- balances ::
          match chain.native(c.parse(ad))
          case Some(n) => balances[ad] == n
          case None => balances[ad] == 0)
  }

  /** Batch number b fails as a whole when fails(b). The answer is the pointwise map. */
  method NativeBalanceBatch(chain: Chain, c: Codec, addrs: seq<string>, maxBatch: int, noRpc: bool, fails: nat -> bool)
    returns (r: Option<map<string, nat>>)
    ensures r.Some? ==> r.value == NativeMap(chain, c, addrs) && MapsBalances(chain, c, addrs, r.value)
    ensures !noRpc && (forall b :: !fails(b)) ==> r.Some?
    ensures addrs == [] ==> r == Some(map[])
    ensures addrs != [] && (noRpc || fails(0)) ==> r == None
  {
    if addrs == [] {
      return Some(map[]);
    }
    if noRpc {
      return None;
    }
    var out: map<string, nat> := map[];
    var batches := Chunk(addrs, maxBatch);
    ghost var done: seq<string> := [];
    assert done + Flatten(batches[0..]) == addrs;
    for b := 0 to |batches|
      invariant out == NativeMap(chain, c, done)
      invariant done + Flatten(batches[b..]) == addrs
      invariant b > 0 ==> !fails(0)
    {
      var batch := batches[b];
      if fails(b) {
        return None;
      }
      NextBatch(addrs, done, batches, b);
      assert done + batch[..0] == done;
      for i := 0 to |batch|
        invariant out == NativeMap(chain, c, done + batch[..i])
      {
        var result := NativeReply(chain.native(c.parse(batch[i])));
        NativeReplyReads(chain.native(c.parse(batch[i])));
        NativeMapAppend(chain, c, done, batch, i);
        out := out[batch[i] := HexToBig(result)];
      }
      done := done + batch;
    }
    assert done + [] == done;
    r := Some(out);
  }

  lemma NativeMapAppend(chain: Chain, c: Codec, done: seq<string>, batch: seq<string>, i: nat)
    requires i < |batch|
    ensures NativeMap(chain, c, done + batch[..i + 1])
            == NativeMap(chain, c, done + batch[..i])[batch[i] := Amount(chain.native(c.parse(batch[i])))]
  {
    assert done + batch[..i + 1] == (done + batch[..i]) + [batch[i]];
  }

  /** A single query is a batch of one. */
  method NativeBalance(chain: Chain, c: Codec, address: string, maxBatch: int, noRpc: bool, fails: nat -> bool)
    returns (r: Option<nat>)
    ensures r.Some? ==>
              match chain.native(c.parse(address))
              case Some(n) => r.value == n
              case None => r.value == 0
    ensures !noRpc && (forall b :: !fails(b)) ==> r.Some?
  {
    var mp := NativeBalanceBatch(chain, c, [address], maxBatch, noRpc, fails);
    if mp.None? {
      return None;
    }
    assert address in [address];
    r := Some(mp.value[address]);
  }

  // ---- token balances ---------------------------------------------------------------------

  /** The last 32 bytes of an answer as a number; a failed or short answer counts as zero. */
  function TokenAmount(ret: Option<seq<nat>>): nat {
    match ret
    case Some(bs) => if |bs| < 32 then 0 else Value(bs[|bs| - 32..], 256)
    case None => 0
  }

  /** The 32-byte big-endian form of a number. */
  function Word(n: nat): (bs: seq<nat>)
    requires |Digits(n, 256)| <= 32
    ensures |bs| == 32
  {
    Zeros(32 - |Digits(n, 256)|) + Digits(n, 256)
  }

  lemma WordFits(n: nat, width: nat)
    requires n < Pow(256, width) && width == 32
    ensures |Digits(n, 256)| <= 32
  {
    DigitCount(n, 256, width);
  }

  /** An answer that ends in the 32-byte form of n counts as n; a shorter or failed one as zero. */
  lemma TokenAmountOfWord(before: seq<nat>, n: nat, short: seq<nat>)
    requires |Digits(n, 256)| <= 32 && |short| < 32
    ensures TokenAmount(Some(Word(n))) == n && TokenAmount(Some(before + Word(n))) == n
    ensures TokenAmount(Some(short)) == 0 && TokenAmount(None) == 0
  {
    var bs := before + Word(n);
    assert bs[|bs| - 32..] == Word(n) && Word(n)[0..] == Word(n);
    ValueIgnoresLeadingZeros(32 - |Digits(n, 256)|, Digits(n, 256), 256);
    ValueOfDigits(n, 256);
  }

  /** The token contract, asked for this owner, answers with the 32-byte form of n. */
  predicate Holds(chain: Chain, token: Address, owner: Address, n: nat) {
    |Digits(n, 256)| <= 32 && chain.call(token, chain.selector + Zeros(12) + owner) == Some(Word(n))
  }

  ghost predicate MapsHoldings(chain: Chain, pairs: seq<Pair>, balances: map<Pair, nat>) {
    forall p, n {:trigger Holds(chain, p.0, p.1, n)} ::
      p in pairs && Holds(chain, p.0, p.1, n) ==> p in balances && balances[p] == n
  }

  lemma HoldingsAreMapped(chain: Chain, pairs: seq<Pair>)
    ensures MapsHoldings(chain, pairs, PairMap(chain, pairs))
  {
    forall p, n | p in pairs && Holds(chain, p.0, p.1, n) ensures PairMap(chain, pairs)[p] == n {
      HeldAmount(chain, p, n);
    }
  }

  lemma HeldAmount(chain: Chain, p: Pair, n: nat)
    requires Holds(chain, p.0, p.1, n)
    ensures TokenAmount(chain.BalanceOf(p)) == n
  {
    TokenAmountOfWord([], n, []);
  }

  function PairMap(chain: Chain, pairs: seq<Pair>): map<Pair, nat> {
    map p | p in pairs :: TokenAmount(chain.BalanceOf(p))
  }

  lemma PairMapAppend(chain: Chain, done: seq<Pair>, batch: seq<Pair>, i: nat)
    requires i < |batch|
    ensures PairMap(chain, done + batch[..i + 1])
            == PairMap(chain, done + batch[..i])[batch[i] := TokenAmount(chain.BalanceOf(batch[i]))]
  {
    assert done + batch[..i + 1] == (done + batch[..i]) + [batch[i]];
  }

  lemma NextBatch<T>(all: seq<T>, done: seq<T>, batches: seq<seq<T>>, b: nat)
    requires b < |batches| && done + Flatten(batches[b..]) == all
    ensures (done + batches[b]) + Flatten(batches[b + 1..]) == all && batches[b][..|batches[b]|] == batches[b]
  {
    assert batches[b..][1..] == batches[b + 1..];
  }

  /** What the contract call of batch number b gives for these pairs once unpacked: per entry the
      bytes of a successful call, or None; nothing at all when the call or the unpacking fails. */
  type Multicall = (nat, seq<Pair>) -> Option<seq<Option<seq<nat>>>>

  /** An answer of the right length is right; one of another length may hold anything. */
  ghost predicate Honest(chain: Chain, multicall: Multicall) {
    forall b: nat, batch: seq<Pair> {:trigger multicall(b, batch)} ::
      multicall(b, batch).Some? && |multicall(b, batch).value| == |batch| ==>
        forall i :: 0 <= i < |batch| ==> multicall(b, batch).value[i] == chain.BalanceOf(batch[i])
  }

  /** Every batch is answered, entry by entry. */
  ghost predicate Complete(multicall: Multicall) {
    forall b: nat, batch: seq<Pair> {:trigger multicall(b, batch)} ::
      multicall(b, batch).Some? && |multicall(b, batch).value| == |batch|
  }

  /** One contract call per batch; an answer whose length does not match is an error. */
  method MulticallBalanceOf(chain: Chain, pairs: seq<Pair>, maxBatch: int, noRpc: bool, multicall: Multicall)
    returns (r: Option<map<Pair, nat>>)
    requires Honest(chain, multicall)
    ensures r.Some? ==> r.value == PairMap(chain, pairs) && MapsHoldings(chain, pairs, r.value)
    ensures !noRpc && Complete(multicall) ==> r.Some?
  {
    if noRpc {
      return None;
    }
    var out: map<Pair, nat> := map[];
    var batches := Chunk(pairs, maxBatch);
    ghost var done: seq<Pair> := [];
    assert done + Flatten(batches[0..]) == pairs;
    for b := 0 to |batches|
      invariant out == PairMap(chain, done)
      invariant done + Flatten(batches[b..]) == pairs
    {
      var batch := batches[b];
      var decoded := multicall(b, batch);
      if decoded.None? || |decoded.value| != |batch| {
        return None;
      }
      NextBatch(pairs, done, batches, b);
      assert done + batch[..0] == done;
      for i := 0 to |batch|
        invariant out == PairMap(chain, done + batch[..i])
      {
        var entry := decoded.value[i];
        PairMapAppend(chain, done, batch, i);
        if entry.None? || |entry.value| < 32 {
          out := out[batch[i] := 0];
        } else {
          out := out[batch[i] := Value(entry.value[|entry.value| - 32..], 256)];
        }
      }
      done := done + batch;
    }
    assert done + [] == done;
    HoldingsAreMapped(chain, pairs);
    r := Some(out);
  }

  /** One eth_call per pair returns a hex string, or nothing when the call fails. */
  function CallReply(ret: Option<seq<nat>>): string
    requires ret.Some? ==> IsDigits(ret.value, 256)
  {
    match ret case Some(bs) => "0x" + HexEncode(bs) case None => ""
  }

  lemma CallReplyReads(ret: Option<seq<nat>>)
    requires ret.Some? ==> IsDigits(ret.value, 256)
    ensures TokenAmount(Some(FromHex(CallReply(ret)))) == TokenAmount(ret)
  {
    if ret.Some? {
      HexRoundTrip(ret.value);
    } else {
      assert HexPairs("") == [];
    }
  }

  method BatchedBalanceOf(chain: Chain, pairs: seq<Pair>, maxBatch: int, noRpc: bool, fails: nat -> bool)
    returns (r: Option<map<Pair, nat>>)
    requires Answers(chain)
    ensures r.Some? ==> r.value == PairMap(chain, pairs) && MapsHoldings(chain, pairs, r.value)
    ensures !noRpc && (forall b :: !fails(b)) ==> r.Some?
  {
    if noRpc {
      return None;
    }
    var out: map<Pair, nat> := map[];
    var batches := Chunk(pairs, maxBatch);
    ghost var done: seq<Pair> := [];
    assert done + Flatten(batches[0..]) == pairs;
    for b := 0 to |batches|
      invariant out == PairMap(chain, done)
      invariant done + Flatten(batches[b..]) == pairs
    {
      var batch := batches[b];
      if fails(b) {
        return None;
      }
      NextBatch(pairs, done, batches, b);
      assert done + batch[..0] == done;
      for i := 0 to |batch|
        invariant out == PairMap(chain, done + batch[..i])
      {
        var raw := FromHex(CallReply(chain.BalanceOf(batch[i])));
        CallReplyReads(chain.BalanceOf(batch[i]));
        PairMapAppend(chain, done, batch, i);
        if |raw| < 32 {
          out := out[batch[i] := 0];
        } else {
          out := out[batch[i] := Value(raw[|raw| - 32..], 256)];
        }
      }
      done := done + batch;
    }
    assert done + [] == done;
    HoldingsAreMapped(chain, pairs);
    r := Some(out);
  }

  // ---- flattening and exploding ---------------------------------------------------------------

  /** Some request asks for this pair. */
  predicate Requested(c: Codec, m: map<string, seq<string>>, p: Pair) {
    exists ad :: ad in m && c.parse(ad) == p.1 && exists k :: 0 <= k < |m[ad]| && c.parse(m[ad][k]) == p.0
  }

  function PairsOf(c: Codec, m: map<string, seq<string>>, ad: string): (out: seq<Pair>)
    requires ad in m
    ensures |out| == |m[ad]|
  {
    seq(|m[ad]|, k requires 0 <= k < |m[ad]| => (c.parse(m[ad][k]), c.parse(ad)))
  }

  /** The pairs when the addresses are visited in this order. */
  function PairsInOrder(c: Codec, m: map<string, seq<string>>, order: seq<string>): seq<Pair>
    requires forall ad <- order :: ad in m
  {
    if order == [] then []
    else PairsInOrder(c, m, order[..|order| - 1]) + PairsOf(c, m, order[|order| - 1])
  }

  /** The order visits every key of the map once. */
  ghost predicate Visits(m: map<string, seq<string>>, order: seq<string>) {
    && (forall i, j :: 0 <= i < j < |order| ==> order[i] != order[j])
    && (forall ad :: ad in order <==> ad in m)
  }

  lemma {:induction false} OrderedPairs(c: Codec, m: map<string, seq<string>>, order: seq<string>, p: Pair)
    requires forall ad <- order :: ad in m
    ensures p in PairsInOrder(c, m, order)
            <==> exists ad :: ad in order && c.parse(ad) == p.1
                              && exists k :: 0 <= k < |m[ad]| && c.parse(m[ad][k]) == p.0
  {
    if order == [] {
    } else {
      var init, last := order[..|order| - 1], order[|order| - 1];
      assert order == init + [last];
      OrderedPairs(c, m, init, p);
      var own := PairsOf(c, m, last);
      assert p in own <==> c.parse(last) == p.1 && exists k :: 0 <= k < |m[last]| && c.parse(m[last][k]) == p.0 by {
        if p in own {
          var k :| 0 <= k < |own| && own[k] == p;
        }
        if c.parse(last) == p.1 && exists k :: 0 <= k < |m[last]| && c.parse(m[last][k]) == p.0 {
          var k :| 0 <= k < |m[last]| && c.parse(m[last][k]) == p.0;
          assert own[k] == p;
        }
      }
    }
  }

  /** The map is visited in an arbitrary order, each address once with its tokens in turn. */
  method FlattenPairs(c: Codec, m: map<string, seq<string>>) returns (out: seq<Pair>, ghost order: seq<string>)
    ensures Visits(m, order) && out == PairsInOrder(c, m, order)
    ensures forall p :: p in out <==> Requested(c, m, p)
  {
    out, order := [], [];
    var keys := m.Keys;
    while keys != {}
      invariant keys <= m.Keys && (forall ad :: ad in order <==> ad in m && ad !in keys)
      invariant forall i, j :: 0 <= i < j < |order| ==> order[i] != order[j]
      invariant out == PairsInOrder(c, m, order)
      decreases keys
    {
      var ad :| ad in keys;
      var a, toks := c.parse(ad), m[ad];
      ghost var before := out;
      for i := 0 to |toks|
        invariant out == before + PairsOf(c, m, ad)[..i]
      {
        out := out + [(c.parse(toks[i]), a)];
      }
      assert (order + [ad])[..|order|] == order;
      order, keys := order + [ad], keys - {ad};
    }
    forall p ensures p in out <==> Requested(c, m, p) {
      OrderedPairs(c, m, order, p);
    }
  }

  datatype TokenBalance = TokenBalance(contract: string, amount: nat)

  /** The list holds exactly the balances of one owner's pairs, each contract once. */
  ghost predicate ListsPairs(c: Codec, list: seq<TokenBalance>, p2bal: map<Pair, nat>, visited: set<Pair>,
                             owner: string) {
    && (forall i, j :: 0 <= i < j < |list| ==> list[i].contract != list[j].contract)
    && (forall b <- list :: exists p :: p in visited && p in p2bal && c.hex(p.1) == owner
                                        && b == TokenBalance(c.hex(p.0), p2bal[p]))
    && (forall p :: p in visited && p in p2bal && c.hex(p.1) == owner ==> TokenBalance(c.hex(p.0), p2bal[p]) in list)
  }

  ghost predicate HasOwner(c: Codec, visited: set<Pair>, owner: string) {
    exists p :: p in visited && c.hex(p.1) == owner
  }

  ghost predicate Grouped(c: Codec, out: map<string, seq<TokenBalance>>, p2bal: map<Pair, nat>, visited: set<Pair>) {
    && (forall owner <- out :: ListsPairs(c, out[owner], p2bal, visited, owner) && HasOwner(c, visited, owner))
    && (forall p <- visited :: c.hex(p.1) in out)
  }

  ghost predicate ProperPairs(p2bal: map<Pair, nat>) {
    forall p <- p2bal :: IsAddress(p.0) && IsAddress(p.1)
  }

  lemma HexIsInjective(c: Codec, a: Address, b: Address)
    requires Faithful(c) && IsAddress(a) && IsAddress(b) && c.hex(a) == c.hex(b)
    ensures a == b
  {
    assert c.parse(c.hex(a)) == a && c.parse(c.hex(b)) == b;
  }

  lemma ListGrows(c: Codec, list: seq<TokenBalance>, p2bal: map<Pair, nat>, visited: set<Pair>, p: Pair)
    requires Faithful(c) && ProperPairs(p2bal) && visited <= p2bal.Keys && p in p2bal && p !in visited
    requires ListsPairs(c, list, p2bal, visited, c.hex(p.1))
    ensures ListsPairs(c, list + [TokenBalance(c.hex(p.0), p2bal[p])], p2bal, visited + {p}, c.hex(p.1))
  {
    forall b <- list ensures b.contract != c.hex(p.0) {
      var r :| r in visited && r in p2bal && c.hex(r.1) == c.hex(p.1) && b == TokenBalance(c.hex(r.0), p2bal[r]);
      HexIsInjective(c, r.1, p.1);
      if c.hex(r.0) == c.hex(p.0) {
        HexIsInjective(c, r.0, p.0);
      }
    }
  }

  lemma OtherListsStay(c: Codec, list: seq<TokenBalance>, p2bal: map<Pair, nat>, visited: set<Pair>, p: Pair,
                       owner: string)
    requires ListsPairs(c, list, p2bal, visited, owner) && owner != c.hex(p.1)
    ensures ListsPairs(c, list, p2bal, visited + {p}, owner)
  {
  }

  lemma EmptyList(c: Codec, p2bal: map<Pair, nat>, visited: set<Pair>, owner: string)
    requires forall p <- visited :: c.hex(p.1) != owner
    ensures ListsPairs(c, [], p2bal, visited, owner)
  {
  }

  lemma OwnerStep(c: Codec, out: map<string, seq<TokenBalance>>, p2bal: map<Pair, nat>, visited: set<Pair>, p: Pair,
                  list: seq<TokenBalance>, owner: string)
    requires Faithful(c) && ProperPairs(p2bal) && visited <= p2bal.Keys && p in p2bal && p !in visited
    requires Grouped(c, out, p2bal, visited) && (owner in out || owner == c.hex(p.1))
    requires list == if c.hex(p.1) in out then out[c.hex(p.1)] else []
    ensures owner == c.hex(p.1) ==>
              ListsPairs(c, list + [TokenBalance(c.hex(p.0), p2bal[p])], p2bal, visited + {p}, owner)
    ensures owner != c.hex(p.1) ==> ListsPairs(c, out[owner], p2bal, visited + {p}, owner)
    ensures HasOwner(c, visited + {p}, owner)
  {
    if owner == c.hex(p.1) {
      if owner !in out {
        EmptyList(c, p2bal, visited, owner);
      }
      ListGrows(c, list, p2bal, visited, p);
      assert p in visited + {p};
    } else {
      OtherListsStay(c, out[owner], p2bal, visited, p, owner);
      var q :| q in visited && c.hex(q.1) == owner;
      assert q in visited + {p};
    }
  }

  lemma GroupedStep(c: Codec, out: map<string, seq<TokenBalance>>, p2bal: map<Pair, nat>, visited: set<Pair>, p: Pair,
                    list: seq<TokenBalance>, out': map<string, seq<TokenBalance>>, visited': set<Pair>)
    requires Faithful(c) && ProperPairs(p2bal) && visited <= p2bal.Keys && p in p2bal && p !in visited
    requires Grouped(c, out, p2bal, visited)
    requires list == if c.hex(p.1) in out then out[c.hex(p.1)] else []
    requires out' == out[c.hex(p.1) := list + [TokenBalance(c.hex(p.0), p2bal[p])]] && visited' == visited + {p}
    ensures Grouped(c, out', p2bal, visited')
  {
    forall owner <- out' ensures ListsPairs(c, out'[owner], p2bal, visited', owner) && HasOwner(c, visited', owner) {
      OwnerStep(c, out, p2bal, visited, p, list, owner);
    }
  }

  lemma OneMoreVisited<T>(all: set<T>, rest: set<T>, p: T)
    requires rest <= all && p in rest
    ensures p !in all - rest && all - rest <= all && rest - {p} < rest && rest - {p} <= all
    ensures all - rest + {p} == all - (rest - {p})
  {
  }

  lemma AllVisited<T>(all: set<T>, rest: set<T>, visited: set<T>)
    requires visited == all - rest && rest == {}
    ensures visited == all
  {
  }

  /** Grouping by owner, whatever the order in which the map is visited. */
  method ExplodePairs(c: Codec, p2bal: map<Pair, nat>) returns (out: map<string, seq<TokenBalance>>)
    requires Faithful(c) && ProperPairs(p2bal)
    ensures Grouped(c, out, p2bal, p2bal.Keys)
  {
    out := map[];
    var rest := p2bal.Keys;
    ghost var visited: set<Pair> := {};
    while rest != {}
      invariant rest <= p2bal.Keys && visited == p2bal.Keys - rest
      invariant Grouped(c, out, p2bal, visited)
      decreases rest
    {
      var p :| p in rest;
      OneMoreVisited(p2bal.Keys, rest, p);
      var token, addr := c.hex(p.0), c.hex(p.1);
      var list := if addr in out then out[addr] else [];
      var out' := out[addr := list + [TokenBalance(token, p2bal[p])]];
      GroupedStep(c, out, p2bal, visited, p, list, out', visited + {p});
      out, rest, visited := out', rest - {p}, visited + {p};
    }
    AllVisited(p2bal.Keys, rest, visited);
  }

  // ---- the query --------------------------------------------------------------------------------

  /** The answer for one owner: every distinct requested token once, with its balance. */
  ghost predicate ListsRequested(chain: Chain, c: Codec, list: seq<TokenBalance>, m: map<string, seq<string>>,
                                 owner: string) {
    && (forall i, j :: 0 <= i < j < |list| ==> list[i].contract != list[j].contract)
    && (forall b <- list :: exists p :: Requested(c, m, p) && c.hex(p.1) == owner
                                        && b == TokenBalance(c.hex(p.0), TokenAmount(chain.BalanceOf(p))))
    && (forall p :: Requested(c, m, p) && c.hex(p.1) == owner ==>
          TokenBalance(c.hex(p.0), TokenAmount(chain.BalanceOf(p))) in list)
  }

  ghost predicate AnswersRequest(chain: Chain, c: Codec, out: map<string, seq<TokenBalance>>,
                                 m: map<string, seq<string>>) {
    && (forall owner <- out :: ListsRequested(chain, c, out[owner], m, owner))
    && (forall owner :: owner in out <==> exists p :: Requested(c, m, p) && c.hex(p.1) == owner)
  }

  /** Every requested token whose contract answers with the 32-byte form of n for the requested owner
      is listed with n, under the checksummed texts of both. */
  ghost predicate AnswersHoldings(chain: Chain, c: Codec, out: map<string, seq<TokenBalance>>,
                                  m: map<string, seq<string>>) {
    forall ad, k, n :: ad in m && 0 <= k < |m[ad]| && Holds(chain, c.parse(m[ad][k]), c.parse(ad), n) ==>
      var owner := c.hex(c.parse(ad));
      owner in out && TokenBalance(c.hex(c.parse(m[ad][k])), n) in out[owner]
  }

  lemma RequestedHoldings(chain: Chain, c: Codec, out: map<string, seq<TokenBalance>>, m: map<string, seq<string>>)
    requires AnswersRequest(chain, c, out, m)
    ensures AnswersHoldings(chain, c, out, m)
  {
    forall ad, k, n | ad in m && 0 <= k < |m[ad]| && Holds(chain, c.parse(m[ad][k]), c.parse(ad), n)
      ensures var owner := c.hex(c.parse(ad));
              owner in out && TokenBalance(c.hex(c.parse(m[ad][k])), n) in out[owner] {
      var p := (c.parse(m[ad][k]), c.parse(ad));
      assert Requested(c, m, p);
      RequestIsListed(chain, c, out, m, p, n);
    }
  }

  lemma RequestIsListed(chain: Chain, c: Codec, out: map<string, seq<TokenBalance>>, m: map<string, seq<string>>,
                        p: Pair, n: nat)
    requires AnswersRequest(chain, c, out, m) && Requested(c, m, p) && Holds(chain, p.0, p.1, n)
    ensures c.hex(p.1) in out && TokenBalance(c.hex(p.0), n) in out[c.hex(p.1)]
  {
    HeldAmount(chain, p, n);
    assert ListsRequested(chain, c, out[c.hex(p.1)], m, c.hex(p.1));
  }

  lemma GroupedAnswers(chain: Chain, c: Codec, out: map<string, seq<TokenBalance>>, m: map<string, seq<string>>,
                       pairs: seq<Pair>)
    requires forall p :: p in pairs <==> Requested(c, m, p)
    requires Grouped(c, out, PairMap(chain, pairs), PairMap(chain, pairs).Keys)
    ensures AnswersRequest(chain, c, out, m) && AnswersHoldings(chain, c, out, m)
  {
    var p2bal := PairMap(chain, pairs);
    assert forall p :: p in p2bal <==> Requested(c, m, p);
    forall owner <- out ensures ListsRequested(chain, c, out[owner], m, owner) {
      ListOfPairs(chain, c, out[owner], m, p2bal, owner);
    }
    RequestedHoldings(chain, c, out, m);
  }

  lemma ListOfPairs(chain: Chain, c: Codec, list: seq<TokenBalance>, m: map<string, seq<string>>, p2bal: map<Pair, nat>,
                    owner: string)
    requires forall p :: p in p2bal <==> Requested(c, m, p)
    requires forall p <- p2bal :: p2bal[p] == TokenAmount(chain.BalanceOf(p))
    requires ListsPairs(c, list, p2bal, p2bal.Keys, owner)
    ensures ListsRequested(chain, c, list, m, owner)
  {
  }

  lemma PairsAreProper(chain: Chain, c: Codec, m: map<string, seq<string>>, pairs: seq<Pair>)
    requires Faithful(c) && forall p <- pairs :: Requested(c, m, p)
    ensures ProperPairs(PairMap(chain, pairs))
  {
    forall p <- pairs ensures IsAddress(p.0) && IsAddress(p.1) {
      var ad :| ad in m && c.parse(ad) == p.1 && exists k :: 0 <= k < |m[ad]| && c.parse(m[ad][k]) == p.0;
      var k :| 0 <= k < |m[ad]| && c.parse(m[ad][k]) == p.0;
      assert IsAddress(c.parse(ad)) && IsAddress(c.parse(m[ad][k]));
    }
  }

  /** Multicall first when the network has one, single calls in batches otherwise or when it
      fails: whichever strategy answers, the answer is the pointwise one. */
  method TokenBalancesBatch(chain: Chain, c: Codec, m: map<string, seq<string>>, maxBatch: int, hasMulticall: bool,
                            noRpc: bool, multicall: Multicall, callFails: nat -> bool)
    returns (r: Option<map<string, seq<TokenBalance>>>)
    requires Faithful(c) && Answers(chain) && Honest(chain, multicall)
    ensures r.Some? ==> AnswersRequest(chain, c, r.value, m) && AnswersHoldings(chain, c, r.value, m)
    ensures !noRpc && ((hasMulticall && Complete(multicall)) || (forall b :: !callFails(b))) ==> r.Some?
  {
    var pairs, _ := FlattenPairs(c, m);
    PairsAreProper(chain, c, m, pairs);
    if pairs == [] {
      GroupedAnswers(chain, c, map[], m, []);
      return Some(map[]);
    }
    if hasMulticall {
      var res := MulticallBalanceOf(chain, pairs, maxBatch, noRpc, multicall);
      if res.Some? {
        var out := ExplodePairs(c, res.value);
        GroupedAnswers(chain, c, out, m, pairs);
        return Some(out);
      }
    }
    var res := BatchedBalanceOf(chain, pairs, maxBatch, noRpc, callFails);
    if res.None? {
      return None;
    }
    var out := ExplodePairs(c, res.value);
    GroupedAnswers(chain, c, out, m, pairs);
    return Some(out);
  }

  /** The answer is filed under the checksummed address, so a caller who asked about some tokens
      of an address finds them under the text it used exactly when that text is the checksummed form. */
  lemma AnswerNeedsChecksummedAddress(chain: Chain, c: Codec, out: map<string, seq<TokenBalance>>,
                                      m: map<string, seq<string>>, address: string)
    requires Faithful(c) && AnswersRequest(chain, c, out, m) && address in m && m[address] != []
    ensures address in out <==> c.hex(c.parse(address)) == address
    ensures c.hex(c.parse(address)) in out
  {
    var p := (c.parse(m[address][0]), c.parse(address));
    assert Requested(c, m, p);
    if address in out {
      var q :| Requested(c, m, q) && c.hex(q.1) == address;
      var ad :| ad in m && c.parse(ad) == q.1 && exists k :: 0 <= k < |m[ad]| && c.parse(m[ad][k]) == q.0;
      assert IsAddress(c.parse(ad));
      assert c.parse(c.hex(q.1)) == q.1;
    }
  }

  /** For instance: when its checksummed text is in upper case, an address that starts with a letter
      is not found in the answer to a request that spells it in lower case. */
  lemma LowerCaseIsNotFound(chain: Chain, out: map<string, seq<TokenBalance>>, m: map<string, seq<string>>, a: Address)
    requires IsAddress(a) && a[0] >= 0xa0
    requires AnswersRequest(chain, AddressCodec(_ => _ => true), out, m)
    requires ChecksumText(a, _ => false) in m && m[ChecksumText(a, _ => false)] != []
    ensures ChecksumText(a, _ => false) !in out && ChecksumText(a, _ => true) in out
  {
    var upper: Address -> (nat -> bool) := _ => _ => true;
    var c, lower := AddressCodec(upper), ChecksumText(a, _ => false);
    AddressCodecIsFaithful(upper);
    ChecksumRoundTrip(a, _ => false);
    AnswerNeedsChecksummedAddress(chain, c, out, m, lower);
    CaseIsVisible(a);
    assert c.parse(lower) == a && c.hex(a) == ChecksumText(a, upper(a));
  }

  /** A single query returns the list of its address, or nothing when the answer has no such entry. */
  method TokenBalances(chain: Chain, c: Codec, address: string, tokens: seq<string>, maxBatch: int, hasMulticall: bool,
                       noRpc: bool, multicall: Multicall, callFails: nat -> bool)
    returns (r: Option<seq<TokenBalance>>)
    requires Faithful(c) && Answers(chain) && Honest(chain, multicall)
    ensures r.Some? && c.hex(c.parse(address)) == address ==>
              && ListsRequested(chain, c, r.value, map[address := tokens], address)
              && forall k, n :: 0 <= k < |tokens| && Holds(chain, c.parse(tokens[k]), c.parse(address), n) ==>
                   TokenBalance(c.hex(c.parse(tokens[k])), n) in r.value
    ensures r.Some? && c.hex(c.parse(address)) != address ==> r.value == []
  {
    var m := map[address := tokens];
    var mp := TokenBalancesBatch(chain, c, m, maxBatch, hasMulticall, noRpc, multicall, callFails);
    if mp.None? {
      return None;
    }
    if tokens != [] {
      AnswerNeedsChecksummedAddress(chain, c, mp.value, m, address);
    } else {
      assert forall p :: !Requested(c, m, p);
    }
    assert m[address] == tokens;
    return Some(if address in mp.value then mp.value[address] else []);
  }
}
