/** How a requested block becomes the block parameter of an RPC call. */
module BlockReference {
  import opened HexText
  import opened Positional

  /** The resolved anchor; `tag` keeps the requested mode as it was. */
  datatype AnchorRef = AnchorRef(height: nat, tag: string, network: string, provider: string)

  function SignedText(n: int, base: nat): string
    requires 2 <= base <= 16
  {
    Sign(n < 0) + Text(Magnitude(n), base)
  }

  function Sign(negative: bool): string {
    if negative then "-" else ""
  }

  function Magnitude(n: int): nat {
    if n < 0 then -n else n
  }

  /** big.Int's SetString with an explicit base: an optional sign, then digits only. */
  function ParseSigned(s: string, base: nat): Option<int> {
    var magnitude: Option<int> := ParseNat(if s != "" && (s[0] == '-' || s[0] == '+') then s[1..] else s, base);
    if magnitude.Some? && s[0] == '-' then Some(-magnitude.value) else magnitude
  }

  predicate Named(tag: string) {
    tag == "latest" || tag == "safe" || tag == "finalized"
  }

  /** The low 64 bits of the magnitude. `leftover` is what the number holds after a failed parse. */
  function HexToUint64(s: string, leftover: int): (h: nat)
    ensures h < UINT64
  {
    if s == "" then 0 else
      var t := WithoutHexPrefix(s);
      var n := match ParseSigned(t, 16) case Some(v) => v case None => leftover;
      Magnitude(n) % UINT64
  }

  /** The block number in hex: the head's for a named tag, otherwise the number the tag spells. */
  function HexBlock(mode: string, head: Option<string>): Option<string> {
    var tag := if mode == "" then "latest" else mode;
    if Named(tag) then
      if head.None? || head.value == "" then None else head
    else if HasHexPrefix(tag) then Some(tag)
    else match ParseSigned(tag, 10)
      case Some(n) => Some("0x" + SignedText(n, 16))
      case None => None
  }

  /** No provider, a failed or empty head, and a tag that is no number are errors. */
  function Anchor(network: string, mode: string, provider: Option<string>, head: Option<string>,
                  leftover: int): Option<AnchorRef> {
    match provider
    case None => None
    case Some(name) =>
      match HexBlock(mode, head)
      case None => None
      case Some(hex) => Some(AnchorRef(HexToUint64(hex, leftover), mode, network, name))
  }

  function BlockParam(a: AnchorRef): string {
    if Named(a.tag) then a.tag
    else if a.height == 0 then "latest"
    else "0x" + Text(a.height, 16)
  }

  /** A block parameter that a node reads as block n. */
  predicate DenotesBlock(param: string, n: int) {
    HasHexPrefix(param) && ParseSigned(param[2..], 16) == Some(n)
  }

  /** The number a requested tag spells, decimal or with 0x. */
  function TagNumber(tag: string): Option<int> {
    if HasHexPrefix(tag) then ParseSigned(tag[2..], 16) else ParseSigned(tag, 10)
  }

  lemma UnsignedText(n: nat, base: nat)
    requires 2 <= base <= 16
    ensures Text(n, base)[0] != '-' && Text(n, base)[0] != '+'
    ensures ParseSigned(Text(n, base), base) == ParseNat(Text(n, base), base) == Some(n)
  {
    ParseOfText(n, base);
    assert CharDigit(Text(n, base)[0], base).Some?;
  }

  lemma ParseOfSignedText(n: int, base: nat)
    requires 2 <= base <= 16
    ensures ParseSigned(SignedText(n, base), base) == Some(n)
  {
    UnsignedText(Magnitude(n), base);
    WithSign(n < 0, Text(Magnitude(n), base), Magnitude(n), base);
  }

  lemma WithSign(negative: bool, t: string, n: nat, base: nat)
    requires ParseSigned(t, base) == ParseNat(t, base) == Some(n)
    ensures ParseSigned(Sign(negative) + t, base) == Some(if negative then 0 - n else n)
  {
    assert ("-" + t)[1..] == t && "" + t == t;
  }

  lemma NumbersAreNotNames(tag: string)
    requires TagNumber(tag).Some?
    ensures tag != "" && !Named(tag)
  {
    assert CharDigit("latest"[0], 10).None? && CharDigit("safe"[0], 10).None? && CharDigit("finalized"[0], 10).None?;
  }

  lemma HeightOfPrefixed(text: string, n: int, leftover: int)
    requires ParseSigned(text, 16) == Some(n)
    ensures HexToUint64("0x" + text, leftover) == Magnitude(n) % UINT64
  {
    assert ("0x" + text)[2..] == text;
  }

  /** The height of a numeric tag is its magnitude modulo 2^64. */
  lemma HeightOfTag(network: string, tag: string, n: int, provider: string, head: Option<string>, leftover: int)
    requires TagNumber(tag) == Some(n)
    ensures Anchor(network, tag, Some(provider), head, leftover)
            == Some(AnchorRef(Magnitude(n) % UINT64, tag, network, provider))
  {
    NumbersAreNotNames(tag);
    if HasHexPrefix(tag) {
      assert "0x" + tag[2..] == tag;
      HeightOfPrefixed(tag[2..], n, leftover);
    } else {
      ParseOfSignedText(n, 16);
      HeightOfPrefixed(SignedText(n, 16), n, leftover);
    }
  }

  lemma ParamOfHeight(a: AnchorRef)
    requires !Named(a.tag)
    ensures a.height > 0 ==> DenotesBlock(BlockParam(a), a.height)
    ensures a.height == 0 ==> BlockParam(a) == "latest"
  {
    if a.height > 0 {
      UnsignedText(a.height, 16);
      assert ("0x" + Text(a.height, 16))[2..] == Text(a.height, 16);
    }
  }

  lemma ParamDenotes(a: AnchorRef, n: int)
    requires !Named(a.tag)
    ensures DenotesBlock(BlockParam(a), n) <==> a.height > 0 && n == a.height
  {
    ParamOfHeight(a);
  }

  lemma RemainderIsExact(n: int)
    ensures Magnitude(n) % UINT64 > 0 && n == Magnitude(n) % UINT64 <==> 0 < n < UINT64
  {
    assert 0 <= n < UINT64 ==> n % UINT64 == n;
  }

  lemma ParamIsExact(a: AnchorRef, n: int)
    requires !Named(a.tag) && a.height == Magnitude(n) % UINT64
    ensures DenotesBlock(BlockParam(a), n) <==> 0 < n < UINT64
  {
    ParamDenotes(a, n);
    RemainderIsExact(n);
  }

  /** A request for block n asks the node for exactly block n if and only if 0 < n < 2^64: zero
      becomes "latest", a negative number loses its sign and a larger one its high bits. */
  lemma NumericTagIsExact(network: string, tag: string, n: int, provider: string, head: Option<string>, leftover: int)
    requires TagNumber(tag) == Some(n)
    ensures Anchor(network, tag, Some(provider), head, leftover).Some?
    ensures DenotesBlock(BlockParam(Anchor(network, tag, Some(provider), head, leftover).value), n)
            <==> 0 < n < 0x1_0000_0000_0000_0000
  {
    HeightOfTag(network, tag, n, provider, head, leftover);
    NumbersAreNotNames(tag);
    ParamIsExact(AnchorRef(Magnitude(n) % UINT64, tag, network, provider), n);
  }

  /** Every decimal spelling of a number in that range, padded or not, is one of those tags. */
  lemma DecimalTags(n: nat, width: nat)
    requires n < Pow(10, width) && width > 1
    ensures TagNumber(Text(n, 10)) == Some(n) && TagNumber(Padded(n, width)) == Some(n)
  {
    ParseOfText(n, 10);
    PlainDigits(Text(n, 10), n);
    ParseOfPadded(n, width);
    PlainDigits(Padded(n, width), n);
  }

  lemma PlainDigits(t: string, n: nat)
    requires ParseNat(t, 10) == Some(n)
    ensures TagNumber(t) == Some(n)
  {
    assert CharDigit(t[0], 10).Some? && CharDigit('-', 10).None? && CharDigit('+', 10).None?;
    NoPrefix(t, n);
  }

  /** A sign before the digits counts. */
  lemma SignedTags(t: string, n: nat)
    requires ParseNat(t, 10) == Some(n)
    ensures TagNumber("+" + t) == Some(n) && TagNumber("-" + t) == Some(0 - n)
  {
    assert ("+" + t)[1..] == t && ("-" + t)[1..] == t;
  }

  lemma NoPrefix(s: string, n: nat)
    requires ParseNat(s, 10) == Some(n)
    ensures !HasHexPrefix(s)
  {
    assert |s| >= 2 ==> CharDigit(s[1], 10).Some?;
    assert CharDigit('x', 10).None?;
  }

  /** A named mode reaches the node as itself, whatever the head; without a head there is no anchor. */
  lemma NamedModePasses(network: string, mode: string, provider: string, head: Option<string>, leftover: int)
    requires mode in {"latest", "safe", "finalized"}
    ensures Anchor(network, mode, Some(provider), head, leftover).Some? <==> head.Some? && head.value != ""
    ensures Anchor(network, mode, Some(provider), head, leftover).Some? ==>
              BlockParam(Anchor(network, mode, Some(provider), head, leftover).value) == mode
  {
  }

  lemma AnchorOfHead(network: string, provider: string, text: string, n: nat, leftover: int)
    requires ParseSigned(text, 16) == Some(n) && n < UINT64
    ensures Anchor(network, "", Some(provider), Some("0x" + text), leftover)
            == Some(AnchorRef(n, "", network, provider))
  {
    HeightOfPrefixed(text, n, leftover);
    assert n % UINT64 == n;
  }

  /** An empty mode pins the head the provider reported. */
  lemma DefaultModePinsTheHead(network: string, provider: string, text: string, n: nat, leftover: int)
    requires ParseSigned(text, 16) == Some(n) && 0 < n < UINT64
    ensures Anchor(network, "", Some(provider), Some("0x" + text), leftover).Some?
    ensures DenotesBlock(BlockParam(Anchor(network, "", Some(provider), Some("0x" + text), leftover).value), n)
  {
    AnchorOfHead(network, provider, text, n, leftover);
    ParamIsExact(AnchorRef(n, "", network, provider), n);
  }

  /** What the node is asked for when a tag spells n. */
  lemma ParamOfTag(network: string, tag: string, n: int, provider: string, head: Option<string>, leftover: int)
    requires TagNumber(tag) == Some(n)
    ensures Anchor(network, tag, Some(provider), head, leftover).Some?
    ensures var param := BlockParam(Anchor(network, tag, Some(provider), head, leftover).value);
            if Magnitude(n) % UINT64 == 0 then param == "latest" else DenotesBlock(param, Magnitude(n) % UINT64)
  {
    HeightOfTag(network, tag, n, provider, head, leftover);
    NumbersAreNotNames(tag);
    ParamOfHeight(AnchorRef(Magnitude(n) % UINT64, tag, network, provider));
  }

  /** For instance, block 0 and block 2^64 are both taken for the latest one, and block -1 for block 1. */
  lemma UnreachableBlocks(network: string, provider: string, head: Option<string>, leftover: int, n: int)
    requires n == 0 || n == UINT64 || n == -1
    ensures Anchor(network, SignedText(n, 10), Some(provider), head, leftover).Some?
    ensures var param := BlockParam(Anchor(network, SignedText(n, 10), Some(provider), head, leftover).value);
            if n == -1 then DenotesBlock(param, 1) else param == "latest"
  {
    PlainTag(n);
    ParamOfTag(network, SignedText(n, 10), n, provider, head, leftover);
  }

  lemma PlainTag(n: int)
    ensures TagNumber(SignedText(n, 10)) == Some(n)
  {
    var t := Text(Magnitude(n), 10);
    ParseOfSignedText(n, 10);
    UnsignedText(Magnitude(n), 10);
    NoPrefix(t, Magnitude(n));
    if n < 0 {
      assert SignedText(n, 10)[0] == '-';
    } else {
      assert SignedText(n, 10) == t;
    }
  }
}
