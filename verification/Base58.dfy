/** Base58 as big-number base conversion that keeps leading zeros, and the TRON addresses
    that one package encodes and another decodes. */
module Base58 {
  import opened Positional

  predicate IsBytes(bs: seq<nat>) {
    IsDigits(bs, 256)
  }

  // ---- base conversion -------------------------------------------------------------

  function LeadingZeros(ds: seq<nat>): (k: nat)
    ensures k <= |ds|
    ensures forall i :: 0 <= i < k ==> ds[i] == 0
    ensures k < |ds| ==> ds[k] != 0
  {
    if ds == [] || ds[0] != 0 then 0 else 1 + LeadingZeros(ds[1..])
  }

  /** The same number in another base, with as many leading zeros as before. */
  function Rebase(ds: seq<nat>, from: nat, to: nat): (r: seq<nat>)
    requires to >= 2
    ensures IsDigits(r, to)
  {
    Zeros(LeadingZeros(ds)) + Digits(Value(ds, from), to)
  }

  lemma SplitZeros(ds: seq<nat>) returns (rest: seq<nat>)
    ensures ds == Zeros(LeadingZeros(ds)) + rest
    ensures rest == [] || rest[0] != 0
  {
    rest := ds[LeadingZeros(ds)..];
  }

  lemma {:induction false} LeadingZerosOf(k: nat, rest: seq<nat>)
    requires rest == [] || rest[0] != 0
    ensures LeadingZeros(Zeros(k) + rest) == k
  {
    if k == 0 {
      assert Zeros(0) + rest == rest;
    } else {
      assert (Zeros(k) + rest)[1..] == Zeros(k - 1) + rest;
      LeadingZerosOf(k - 1, rest);
    }
  }

  /** Converting there and back is the identity on every digit sequence. */
  lemma RebaseRoundTrip(ds: seq<nat>, from: nat, to: nat)
    requires from >= 2 && to >= 2 && IsDigits(ds, from)
    ensures Rebase(Rebase(ds, from, to), to, from) == ds
  {
    var rest := SplitZeros(ds);
    var k := LeadingZeros(ds);
    assert IsDigits(rest, from) by {
      assert forall i :: 0 <= i < |rest| ==> rest[i] == ds[k + i];
    }
    ValueIgnoresLeadingZeros(k, rest, from);
    var there := Digits(Value(rest, from), to);
    LeadingZerosOf(k, there);
    ValueIgnoresLeadingZeros(k, there, to);
    ValueOfDigits(Value(rest, from), to);
    DigitsOfValue(rest, from);
  }

  // ---- the alphabet ------------------------------------------------------------------

  function Symbol(d: nat): char
    requires d < 58
  {
    if d < 9 then '1' + d as char
    else if d < 17 then 'A' + (d - 9) as char
    else if d < 22 then 'J' + (d - 17) as char
    else if d < 33 then 'P' + (d - 22) as char
    else if d < 44 then 'a' + (d - 33) as char
    else 'm' + (d - 44) as char
  }

  /** 0, O, I and l are not in the alphabet. */
  function SymbolDigit(c: char): (r: Option<nat>)
    ensures r.Some? ==> r.value < 58
  {
    var n := c as int;
    if '1' <= c <= '9' then Some(n - '1' as int)
    else if 'A' <= c <= 'H' then Some(n - 'A' as int + 9)
    else if 'J' <= c <= 'N' then Some(n - 'J' as int + 17)
    else if 'P' <= c <= 'Z' then Some(n - 'P' as int + 22)
    else if 'a' <= c <= 'k' then Some(n - 'a' as int + 33)
    else if 'm' <= c <= 'z' then Some(n - 'm' as int + 44)
    else None
  }

  lemma AlphabetIsBijective(d: nat, c: char)
    ensures d < 58 ==> SymbolDigit(Symbol(d)) == Some(d)
    ensures SymbolDigit(c).Some? ==> Symbol(SymbolDigit(c).value) == c
  {
  }

  /** The alphabet is the digits and letters without 0, O, I and l, in character order. */
  lemma AlphabetInOrder(d: nat, e: nat, c: char)
    ensures d < e < 58 ==> Symbol(d) < Symbol(e)
    ensures SymbolDigit(c).Some?
            <==> ('0' <= c <= '9' || 'A' <= c <= 'Z' || 'a' <= c <= 'z') && c !in {'0', 'O', 'I', 'l'}
  {
  }

  function Symbols(ds: seq<nat>): (s: string)
    requires IsDigits(ds, 58)
    ensures |s| == |ds|
  {
    seq(|ds|, i requires 0 <= i < |ds| => Symbol(ds[i]))
  }

  predicate IsBase58(s: string) {
    forall i :: 0 <= i < |s| ==> SymbolDigit(s[i]).Some?
  }

  function SymbolDigits(s: string): (ds: seq<nat>)
    requires IsBase58(s)
    ensures |ds| == |s| && IsDigits(ds, 58)
  {
    seq(|s|, i requires 0 <= i < |s| => SymbolDigit(s[i]).value)
  }

  lemma SymbolsRoundTrip(ds: seq<nat>, s: string)
    ensures IsDigits(ds, 58) ==> IsBase58(Symbols(ds)) && SymbolDigits(Symbols(ds)) == ds
    ensures IsBase58(s) ==> Symbols(SymbolDigits(s)) == s
  {
    if IsDigits(ds, 58) {
      forall i | 0 <= i < |ds| ensures SymbolDigit(Symbols(ds)[i]) == Some(ds[i]) {
        AlphabetIsBijective(ds[i], ' ');
      }
    }
    if IsBase58(s) {
      forall i | 0 <= i < |s| ensures Symbols(SymbolDigits(s))[i] == s[i] {
        AlphabetIsBijective(0, s[i]);
      }
    }
  }

  function Encode(bs: seq<nat>): string {
    Symbols(Rebase(bs, 256, 58))
  }

  /** The empty string is rejected, as is any character outside the alphabet. */
  function Decode(s: string): (r: Option<seq<nat>>)
    ensures r.Some? ==> IsBytes(r.value)
  {
    if s == "" || !IsBase58(s) then None else Some(Rebase(SymbolDigits(s), 58, 256))
  }

  /** Decoding and encoding cancel both ways: on all non-empty byte strings, and on every
      string the decoder accepts. */
  lemma Base58RoundTrip(bs: seq<nat>, s: string)
    ensures IsBytes(bs) && bs != [] ==> Decode(Encode(bs)) == Some(bs)
    ensures Decode(s).Some? ==> Encode(Decode(s).value) == s
  {
    if IsBytes(bs) && bs != [] {
      SymbolsRoundTrip(Rebase(bs, 256, 58), s);
      RebaseRoundTrip(bs, 256, 58);
      assert Rebase([], 58, 256) == [];
    }
    if Decode(s).Some? {
      SymbolsRoundTrip([], s);
      RebaseRoundTrip(SymbolDigits(s), 58, 256);
    }
  }
}

module TronAddress {
  import opened Positional
  import opened HexText
  import opened Base58

  const PREFIX: nat := 0x41

  /** SHA-256 as an arbitrary function with 32-byte results. */
  ghost predicate IsHash(sha: seq<nat> -> seq<nat>) {
    forall m :: |sha(m)| == 32 && IsBytes(sha(m))
  }

  function Checksum(sha: seq<nat> -> seq<nat>, raw: seq<nat>): (c: seq<nat>)
    requires |sha(sha(raw))| >= 4
    ensures |c| == 4
  {
    sha(sha(raw))[..4]
  }

  /** How the key-derivation package writes an address. */
  function EncodeAddress(sha: seq<nat> -> seq<nat>, evm20: seq<nat>): string
    requires |sha(sha([PREFIX] + evm20))| >= 4
  {
    var raw := [PREFIX] + evm20;
    Encode(raw + Checksum(sha, raw))
  }

  datatype Error = BadBase58 | BadLength | BadPrefix | BadChecksum
  datatype Result<+T> = Ok(value: T) | Err(error: Error)

  /** What the chain client reads in a text. */
  function ReadAddress(sha: seq<nat> -> seq<nat>, address: string): Result<seq<nat>>
    requires IsHash(sha)
  {
    match Decode(address)
    case None => Err(BadBase58)
    case Some(d) =>
      if |d| != 25 then Err(BadLength)
      else if d[0] != PREFIX then Err(BadPrefix)
      else if d[21..] != Checksum(sha, d[..21]) then Err(BadChecksum)
      else Ok(d[1..21])
  }

  /** Twenty bytes, written and read back. */
  lemma ReadOfEncoded(sha: seq<nat> -> seq<nat>, bs: seq<nat>)
    requires IsHash(sha) && |bs| == 20 && IsBytes(bs)
    ensures ReadAddress(sha, EncodeAddress(sha, bs)) == Ok(bs)
  {
    EncodedParts(sha, bs);
    var full := [PREFIX] + bs + Checksum(sha, [PREFIX] + bs);
    assert full[..21] == [PREFIX] + bs && full[21..] == Checksum(sha, [PREFIX] + bs) && full[1..21] == bs;
  }

  /** How the chain client reads it: the checksum is compared byte by byte. */
  method Base58AddressToHex(sha: seq<nat> -> seq<nat>, address: string) returns (r: Result<seq<nat>>)
    requires IsHash(sha)
    ensures r == ReadAddress(sha, address)
    ensures forall bs :: r == Ok(bs) <==> |bs| == 20 && IsBytes(bs) && address == EncodeAddress(sha, bs)
  {
    var decoded := Decode(address);
    Base58RoundTrip([], address);
    if decoded.None? {
      NotAnAddress(sha, address);
      return Err(BadBase58);
    }
    var d := decoded.value;
    if |d| != 25 {
      NotAnAddress(sha, address);
      return Err(BadLength);
    }
    if d[0] != PREFIX {
      NotAnAddress(sha, address);
      return Err(BadPrefix);
    }
    var addressBytes, checksum, raw := d[1..21], d[21..], d[..21];
    var expected := Checksum(sha, raw);
    for i := 0 to 4
      invariant forall j :: 0 <= j < i ==> checksum[j] == expected[j]
    {
      if checksum[i] != expected[i] {
        NotAnAddress(sha, address);
        return Err(BadChecksum);
      }
    }
    r := Ok(addressBytes);
    assert checksum == expected;
    assert raw == [PREFIX] + addressBytes && d == raw + checksum;
    OnlyAddress(sha, address, addressBytes);
  }

  lemma EncodedParts(sha: seq<nat> -> seq<nat>, bs: seq<nat>)
    requires IsHash(sha) && |bs| == 20 && IsBytes(bs)
    ensures Decode(EncodeAddress(sha, bs)) == Some([0x41] + bs + sha(sha([0x41] + bs))[..4])
  {
    var raw := [PREFIX] + bs;
    assert IsBytes(raw + Checksum(sha, raw));
    Base58RoundTrip(raw + Checksum(sha, raw), "");
  }

  lemma NotAnAddress(sha: seq<nat> -> seq<nat>, address: string)
    requires IsHash(sha)
    requires Decode(address).None? || |Decode(address).value| != 25 || Decode(address).value[0] != PREFIX
             || Decode(address).value[21..] != Checksum(sha, Decode(address).value[..21])
    ensures forall bs :: |bs| == 20 && IsBytes(bs) ==> address != EncodeAddress(sha, bs)
  {
    forall bs | |bs| == 20 && IsBytes(bs) ensures address != EncodeAddress(sha, bs) {
      EncodedParts(sha, bs);
      var full := [PREFIX] + bs + Checksum(sha, [PREFIX] + bs);
      assert full[..21] == [PREFIX] + bs && full[21..] == Checksum(sha, [PREFIX] + bs);
    }
  }

  lemma OnlyAddress(sha: seq<nat> -> seq<nat>, address: string, bs: seq<nat>)
    requires IsHash(sha) && |bs| == 20
    requires Decode(address) == Some([PREFIX] + bs + Checksum(sha, [PREFIX] + bs))
    ensures IsBytes(bs) && address == EncodeAddress(sha, bs)
    ensures forall other :: |other| == 20 && IsBytes(other) && address == EncodeAddress(sha, other) ==> other == bs
  {
    var full := [PREFIX] + bs + Checksum(sha, [PREFIX] + bs);
    assert bs == full[1..21];
    Base58RoundTrip([], address);
    forall other | |other| == 20 && IsBytes(other) && address == EncodeAddress(sha, other) ensures other == bs {
      EncodedParts(sha, other);
      assert other == full[1..21];
    }
  }

  /** The 32-byte argument of balanceOf: the address bytes, zero-padded on the left, in hex. */
  method EncodeTRC20BalanceOfParameter(sha: seq<nat> -> seq<nat>, address: string) returns (r: Result<string>)
    requires IsHash(sha)
    ensures forall bs :: |bs| == 20 && IsBytes(bs) && address == EncodeAddress(sha, bs)
                         ==> r.Ok? && |r.value| == 64 && FromHex(r.value) == Zeros(12) + bs
    ensures r.Ok? ==> exists bs :: |bs| == 20 && IsBytes(bs) && address == EncodeAddress(sha, bs)
  {
    var decoded := Base58AddressToHex(sha, address);
    if decoded.Err? {
      return Err(decoded.error);
    }
    var addrBytes := decoded.value;
    assert decoded == Ok(addrBytes);
    var param := Zeros(32);
    param := param[..32 - |addrBytes|] + addrBytes;
    assert param == Zeros(12) + addrBytes;
    HexRoundTrip(param);
    r := Ok(HexEncode(param));
  }
}
