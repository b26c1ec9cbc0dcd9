/** Hex strings of byte sequences, as Go's encoding/hex writes them and go-ethereum reads them. */
module HexText {
  import opened Positional

  function HexEncode(bs: seq<nat>): (s: string)
    requires IsDigits(bs, 256)
    ensures |s| == 2 * |bs|
  {
    if bs == [] then "" else [DigitChar(bs[0] / 16), DigitChar(bs[0] % 16)] + HexEncode(bs[1..])
  }

  /** Reads pairs of hex digits up to the first malformed one. */
  function HexPairs(s: string): (bs: seq<nat>)
    ensures IsDigits(bs, 256)
  {
    if |s| < 2 || CharDigit(s[0], 16).None? || CharDigit(s[1], 16).None? then []
    else [16 * CharDigit(s[0], 16).value + CharDigit(s[1], 16).value] + HexPairs(s[2..])
  }

  predicate HasHexPrefix(s: string) {
    |s| >= 2 && s[0] == '0' && s[1] == 'x'
  }

  /** strings.TrimPrefix(s, "0x"). */
  function WithoutHexPrefix(s: string): string {
    if HasHexPrefix(s) then s[2..] else s
  }

  /** go-ethereum drops 0X as well. */
  function TrimHexPrefix(s: string): string {
    if |s| >= 2 && s[0] == '0' && (s[1] == 'x' || s[1] == 'X') then s[2..] else s
  }

  function EvenDigits(t: string): string {
    if |t| % 2 == 1 then "0" + t else t
  }

  /** Drops an optional 0x, completes an odd digit count with a leading zero, reads the rest. */
  function FromHex(s: string): (bs: seq<nat>)
    ensures IsDigits(bs, 256)
  {
    HexPairs(EvenDigits(TrimHexPrefix(s)))
  }

  lemma {:induction false} PairsRoundTrip(bs: seq<nat>)
    requires IsDigits(bs, 256)
    ensures HexPairs(HexEncode(bs)) == bs
  {
    if bs == [] {
    } else {
      PairsRoundTrip(bs[1..]);
      PairOf(bs[0]);
      var s := HexEncode(bs);
      assert s[2..] == HexEncode(bs[1..]);
      assert bs == [bs[0]] + bs[1..];
    }
  }

  lemma PairOf(b: nat)
    requires b < 256
    ensures CharDigit(DigitChar(b / 16), 16) == Some(b / 16) && CharDigit(DigitChar(b % 16), 16) == Some(b % 16)
    ensures 16 * (b / 16) + b % 16 == b
    ensures DigitChar(b % 16) != 'x' && DigitChar(b % 16) != 'X'
  {
  }

  lemma NoHexPrefix(bs: seq<nat>)
    requires IsDigits(bs, 256)
    ensures TrimHexPrefix(HexEncode(bs)) == HexEncode(bs)
  {
    if bs != [] {
      PairOf(bs[0]);
    }
  }

  lemma TrimPrefixed(s: string)
    ensures TrimHexPrefix("0x" + s) == s
  {
    assert ("0x" + s)[2..] == s;
  }

  lemma EvenLength(s: string, n: nat)
    requires |s| == 2 * n && TrimHexPrefix(s) == s
    ensures FromHex(s) == HexPairs(s) && FromHex("0x" + s) == HexPairs(s)
  {
    TrimPrefixed(s);
  }

  /** Bytes written in hex, with or without the 0x prefix, read back as themselves. */
  lemma HexRoundTrip(bs: seq<nat>)
    requires IsDigits(bs, 256)
    ensures FromHex(HexEncode(bs)) == bs && FromHex("0x" + HexEncode(bs)) == bs && FromHex("0X" + HexEncode(bs)) == bs
  {
    PairsRoundTrip(bs);
    NoHexPrefix(bs);
    EvenLength(HexEncode(bs), |bs|);
    assert ("0X" + HexEncode(bs))[2..] == HexEncode(bs);
  }

  /** The high half of a byte comes first, and letters are lower-case. */
  lemma HexOfByte(b: nat)
    requires b < 256
    ensures HexEncode([b]) == ["0123456789abcdef"[b / 16], "0123456789abcdef"[b % 16]]
  {
    assert HexEncode([b][1..]) == "";
  }

  lemma {:induction false} LowerCaseOnly(bs: seq<nat>, i: nat)
    requires IsDigits(bs, 256) && i < 2 * |bs|
    ensures !('A' <= HexEncode(bs)[i] <= 'F')
  {
    if i < 2 {
    } else {
      LowerCaseOnly(bs[1..], i - 2);
    }
  }

  /** Two hex digits make a byte. */
  lemma {:induction false} PairsCount(s: string, n: nat)
    requires |s| == 2 * n && forall i :: 0 <= i < |s| ==> CharDigit(s[i], 16).Some?
    ensures |HexPairs(s)| == n
    decreases n
  {
    if n == 0 {
    } else {
      PairsCount(s[2..], n - 1);
    }
  }

  lemma {:induction false} HexDigitsOnly(bs: seq<nat>)
    requires IsDigits(bs, 256)
    ensures forall i :: 0 <= i < |HexEncode(bs)| ==> CharDigit(HexEncode(bs)[i], 16).Some?
  {
    if bs == [] {
    } else {
      HexDigitsOnly(bs[1..]);
      PairOf(bs[0]);
    }
  }

  /** A missing first digit counts as zero. */
  lemma OddDigits(bs: seq<nat>, d: nat)
    requires IsDigits(bs, 256) && d < 16
    ensures FromHex("0x" + ([DigitChar(d)] + HexEncode(bs))) == [d] + bs
  {
    var s := [DigitChar(d)] + HexEncode(bs);
    TrimPrefixed(s);
    assert |s| % 2 == 1;
    LeadingZero(bs, d);
    PairsRoundTrip([d] + bs);
  }

  lemma LeadingZero(bs: seq<nat>, d: nat)
    requires IsDigits(bs, 256) && d < 16
    ensures "0" + ([DigitChar(d)] + HexEncode(bs)) == HexEncode([d] + bs)
  {
    assert ([d] + bs)[1..] == bs;
    assert d / 16 == 0 && d % 16 == d && DigitChar(0) == '0';
  }
}
