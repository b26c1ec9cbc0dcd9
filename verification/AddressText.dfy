/** Twenty-byte addresses and their mixed-case checksummed text (EIP-55), where the choice of
    upper-case letters is an arbitrary function of the address. */
module AddressText {
  import opened Positional
  import opened HexText

  predicate IsAddress(a: seq<nat>) {
    |a| == 20 && IsDigits(a, 256)
  }

  /** The last twenty bytes, completed with zeros on the left. */
  function ToAddress(bs: seq<nat>): (a: seq<nat>)
    requires IsDigits(bs, 256)
    ensures IsAddress(a)
  {
    if |bs| >= 20 then bs[|bs| - 20..] else Zeros(20 - |bs|) + bs
  }

  function HexToAddress(s: string): (a: seq<nat>)
    ensures IsAddress(a)
  {
    ToAddress(FromHex(s))
  }

  function Cased(c: char, upper: bool): char {
    if upper && 'a' <= c <= 'f' then 'A' + (c - 'a') else c
  }

  function ChecksumText(a: seq<nat>, upper: nat -> bool): (s: string)
    requires IsAddress(a)
    ensures |s| == 42
  {
    "0x" + CasedText(HexEncode(a), upper)
  }

  function CasedText(t: string, upper: nat -> bool): (s: string)
    ensures |s| == |t|
  {
    seq(|t|, i requires 0 <= i < |t| => Cased(t[i], upper(i)))
  }

  /** Two texts that differ in the case of hex letters only. */
  predicate SameDigits(s: string, t: string) {
    |s| == |t| && forall i :: 0 <= i < |s| ==> CharDigit(s[i], 16) == CharDigit(t[i], 16)
  }

  lemma {:induction false} CaseDoesNotMatter(s: string, t: string)
    requires SameDigits(s, t)
    ensures HexPairs(s) == HexPairs(t)
    decreases |s|
  {
    if |s| < 2 {
    } else {
      assert CharDigit(s[0], 16) == CharDigit(t[0], 16) && CharDigit(s[1], 16) == CharDigit(t[1], 16);
      forall i | 0 <= i < |s[2..]| ensures CharDigit(s[2..][i], 16) == CharDigit(t[2..][i], 16) {
        assert CharDigit(s[i + 2], 16) == CharDigit(t[i + 2], 16);
      }
      CaseDoesNotMatter(s[2..], t[2..]);
    }
  }

  lemma CasedDigits(t: string, upper: nat -> bool)
    ensures SameDigits(CasedText(t, upper), t)
  {
    forall i | 0 <= i < |t| ensures CharDigit(CasedText(t, upper)[i], 16) == CharDigit(t[i], 16) {
      assert CasedText(t, upper)[i] == Cased(t[i], upper(i));
    }
  }

  lemma PrefixedPairs(s: string)
    requires |s| % 2 == 0
    ensures FromHex("0x" + s) == HexPairs(s)
  {
    TrimPrefixed(s);
  }

  lemma CasedPairs(bs: seq<nat>, upper: nat -> bool)
    requires IsDigits(bs, 256)
    ensures HexPairs(CasedText(HexEncode(bs), upper)) == bs
  {
    CasedDigits(HexEncode(bs), upper);
    CaseDoesNotMatter(CasedText(HexEncode(bs), upper), HexEncode(bs));
    PairsRoundTrip(bs);
  }

  /** Whatever letters are upper-case, the checksummed text of an address is read as that address. */
  lemma ChecksumRoundTrip(a: seq<nat>, upper: nat -> bool)
    requires IsAddress(a)
    ensures HexToAddress(ChecksumText(a, upper)) == a
  {
    CasedPairs(a, upper);
    PrefixedPairs(CasedText(HexEncode(a), upper));
    assert a[|a| - 20..] == a;
  }

  /** Digit i is in upper case if and only if it is a letter that the hash picks. */
  lemma UpperLetters(a: seq<nat>, upper: nat -> bool, i: nat)
    requires IsAddress(a) && i < 40
    ensures var c := ChecksumText(a, upper)[2 + i];
            'A' <= c <= 'F' <==> upper(i) && CharDigit(c, 16).Some? && CharDigit(c, 16).value >= 10
  {
    HexDigitsOnly(a);
    LowerCaseOnly(a, i);
    assert ChecksumText(a, upper)[2 + i] == Cased(HexEncode(a)[i], upper(i));
  }

  /** For an address whose first digit is a letter the two cases are different texts. */
  lemma CaseIsVisible(a: seq<nat>)
    requires IsAddress(a) && a[0] >= 0xa0
    ensures ChecksumText(a, _ => false) != ChecksumText(a, _ => true)
  {
    var t := HexEncode(a);
    assert t[0] == DigitChar(a[0] / 16) && 'a' <= t[0] <= 'f';
    assert ChecksumText(a, _ => false)[2] == Cased(t[0], false) && ChecksumText(a, _ => true)[2] == Cased(t[0], true);
  }

  /** Of more than twenty bytes the last twenty count; fewer are completed with zeros in front. */
  lemma OtherLengths(before: seq<nat>, a: seq<nat>, short: seq<nat>)
    requires IsDigits(before, 256) && IsAddress(a) && IsDigits(short, 256) && |short| <= 20
    ensures ToAddress(before + a) == a
    ensures ToAddress(short)[20 - |short|..] == short && forall i :: 0 <= i < 20 - |short| ==> ToAddress(short)[i] == 0
  {
    var bs := before + a;
    assert bs[|bs| - 20..] == a;
  }
}
