/** The check digit of the issued numbers (ISO/IEC 7812-1, Annex B).

    Strings are bytes in the program, and a digit is the byte minus '0' in 8-bit
    arithmetic, so the checksum is defined on every string; the error-detection
    theorems speak about digit strings of any length. */
module Luhn {
  import opened Positional

  function ByteDigit(c: char): nat {
    (c as int + 208) % 256
  }

  predicate IsDigit(c: char) {
    '0' <= c <= '9'
  }

  predicate IsDigitString(s: string) {
    forall i :: 0 <= i < |s| ==> IsDigit(s[i])
  }

  function Weight(d: nat, dbl: bool): nat {
    if dbl then (if d * 2 > 9 then d * 2 - 9 else d * 2) else d
  }

  /** Weighted digit sum, from the right; `dbl` says whether the last digit is doubled. */
  function Sum(s: string, dbl: bool): nat {
    if s == "" then 0 else Sum(s[..|s| - 1], !dbl) + Weight(ByteDigit(s[|s| - 1]), dbl)
  }

  /** A complete number, check digit included, is accepted when its sum is a multiple of ten. */
  predicate Accepted(s: string) {
    Sum(s, false) % 10 == 0
  }

  function CheckDigit(num: string): (d: nat)
    ensures d < 10
  {
    (10 - Sum(num, true) % 10) % 10
  }

  method LuhnDigit(num: string) returns (digit: nat)
    ensures digit == CheckDigit(num)
  {
    var sum, dbl, i := 0, true, |num|;
    while i > 0
      invariant 0 <= i <= |num|
      invariant sum + Sum(num[..i], dbl) == Sum(num[..|num|], true)
    {
      i := i - 1;
      var d := ByteDigit(num[i]);
      if dbl {
        d := d * 2;
        if d > 9 {
          d := d - 9;
        }
      }
      assert num[..i + 1][..i] == num[..i];
      sum := sum + d;
      dbl := !dbl;
    }
    assert num[..|num|] == num;
    digit := (10 - sum % 10) % 10;
  }

  lemma DigitOfChar(c: char)
    requires IsDigit(c)
    ensures ByteDigit(c) < 10 && c == DigitChar(ByteDigit(c))
  {
  }

  lemma Completes(sum: nat, d: nat)
    requires d < 10
    ensures (sum + d) % 10 == 0 <==> d == (10 - sum % 10) % 10
  {
  }

  /** Exactly one digit completes a number to an accepted one. */
  lemma CheckDigitIsUnique(num: string, c: char)
    requires IsDigit(c)
    ensures Accepted(num + [c]) <==> c == DigitChar(CheckDigit(num))
  {
    assert (num + [c])[..|num|] == num;
    DigitOfChar(c);
    Completes(Sum(num, true), ByteDigit(c));
  }

  function Parity(dbl: bool, n: nat): bool {
    if n % 2 == 0 then dbl else !dbl
  }

  lemma ParityAdds(dbl: bool, m: nat, n: nat)
    ensures Parity(Parity(dbl, m), n) == Parity(dbl, m + n)
  {
  }

  lemma {:induction false} SumOfConcat(a: string, b: string, dbl: bool)
    ensures Sum(a + b, dbl) == Sum(a, Parity(dbl, |b|)) + Sum(b, dbl)
  {
    if b == "" {
      assert a + b == a;
    } else {
      var init := b[..|b| - 1];
      assert (a + b)[..|a + b| - 1] == a + init;
      SumOfConcat(a, init, !dbl);
      ParityAdds(dbl, 1, |init|);
    }
  }

  lemma SumAround(pre: string, mid: string, post: string)
    ensures Sum(pre + mid + post, false)
            == Sum(pre, Parity(false, |mid| + |post|)) + Sum(mid, Parity(false, |post|)) + Sum(post, false)
  {
    SumOfConcat(pre + mid, post, false);
    SumOfConcat(pre, mid, Parity(false, |post|));
    ParityAdds(false, |post|, |mid|);
  }

  lemma SumOfOne(c: char, dbl: bool)
    ensures Sum([c], dbl) == Weight(ByteDigit(c), dbl)
  {
    assert [c][..0] == "";
  }

  lemma SumOfTwo(a: char, b: char, dbl: bool)
    ensures Sum([a, b], dbl) == Weight(ByteDigit(a), !dbl) + Weight(ByteDigit(b), dbl)
  {
    assert [a, b][..1] == [a];
    SumOfOne(a, !dbl);
  }

  lemma WeightsDiffer(k: nat, x: nat, y: nat, dbl: bool)
    requires x < 10 && y < 10 && x != y
    ensures (k + Weight(x, dbl)) % 10 != (k + Weight(y, dbl)) % 10
  {
  }

  lemma NearRemainders(a: int, b: int)
    requires -10 < a - b < 10
    ensures a % 10 == b % 10 <==> a == b
  {
  }

  lemma SwappedWeights(k: nat, x: nat, y: nat, dbl: bool)
    requires x < 10 && y < 10 && x != y
    ensures (k + Weight(x, !dbl) + Weight(y, dbl)) % 10 == (k + Weight(y, !dbl) + Weight(x, dbl)) % 10
            <==> (x == 0 && y == 9) || (x == 9 && y == 0)
  {
    NearRemainders(k + Weight(x, !dbl) + Weight(y, dbl), k + Weight(y, !dbl) + Weight(x, dbl));
  }

  /** The share of the sum that does not come from the digit between `pre` and `post`. */
  function Others(pre: string, post: string): nat {
    Sum(pre, Parity(false, 1 + |post|)) + Sum(post, false)
  }

  lemma SumWithDigit(pre: string, c: char, post: string)
    ensures Sum(pre + [c] + post, false) == Others(pre, post) + Weight(ByteDigit(c), Parity(false, |post|))
  {
    SumAround(pre, [c], post);
    SumOfOne(c, Parity(false, |post|));
  }

  lemma ReplacedDigit(pre: string, c: char, d: char, post: string)
    requires IsDigit(c) && IsDigit(d) && c != d
    requires Accepted(pre + [c] + post)
    ensures !Accepted(pre + [d] + post)
  {
    SumWithDigit(pre, c, post);
    SumWithDigit(pre, d, post);
    WeightsDiffer(Others(pre, post), ByteDigit(c), ByteDigit(d), Parity(false, |post|));
  }

  /** Changing any single digit of an accepted number makes it unacceptable. */
  lemma SingleErrorIsDetected(s: string, i: nat, c: char)
    requires IsDigitString(s) && i < |s| && IsDigit(c) && c != s[i]
    requires Accepted(s)
    ensures !Accepted(s[i := c])
  {
    var pre, post := s[..i], s[i + 1..];
    assert s == pre + [s[i]] + post;
    assert s[i := c] == pre + [c] + post;
    ReplacedDigit(pre, s[i], c, post);
  }

  /** The share of the sum that does not come from the two digits between `pre` and `post`. */
  function OthersOfPair(pre: string, post: string): nat {
    Sum(pre, Parity(false, |post|)) + Sum(post, false)
  }

  lemma SumWithPair(pre: string, a: char, b: char, post: string)
    ensures var dbl := Parity(false, |post|);
            Sum(pre + [a, b] + post, false)
            == OthersOfPair(pre, post) + Weight(ByteDigit(a), !dbl) + Weight(ByteDigit(b), dbl)
  {
    SumAround(pre, [a, b], post);
    ParityAdds(false, 2, |post|);
    SumOfTwo(a, b, Parity(false, |post|));
  }

  lemma SwappedDigits(pre: string, a: char, b: char, post: string)
    requires IsDigit(a) && IsDigit(b) && a != b
    requires Accepted(pre + [a, b] + post)
    ensures Accepted(pre + [b, a] + post) <==> (a == '0' && b == '9') || (a == '9' && b == '0')
  {
    SumWithPair(pre, a, b, post);
    SumWithPair(pre, b, a, post);
    DigitOfChar(a);
    DigitOfChar(b);
    SwappedWeights(OthersOfPair(pre, post), ByteDigit(a), ByteDigit(b), Parity(false, |post|));
  }

  /** Swapping two different neighbours goes unnoticed exactly for the pair 0 and 9. */
  lemma TranspositionIsDetected(s: string, i: nat)
    requires IsDigitString(s) && i + 1 < |s| && s[i] != s[i + 1]
    requires Accepted(s)
    ensures Accepted(s[i := s[i + 1]][i + 1 := s[i]])
            <==> (s[i] == '0' && s[i + 1] == '9') || (s[i] == '9' && s[i + 1] == '0')
  {
    var a, b := s[i], s[i + 1];
    var pre, post := s[..i], s[i + 2..];
    assert s == pre + [a, b] + post;
    assert s[i := b][i + 1 := a] == pre + [b, a] + post;
    SwappedDigits(pre, a, b, post);
  }

  lemma SumFrom(digits: string, last: char, dbl: bool, soFar: nat, w: nat)
    requires Sum(digits, !dbl) == soFar && w == Weight(ByteDigit(last), dbl)
    ensures Sum(digits + [last], dbl) == soFar + w
  {
    assert (digits + [last])[..|digits|] == digits;
  }

  lemma FirstHalf()
    ensures Sum("79927", false) == 36
  {
    SumFrom("", '7', false, 0, 7);
    SumFrom("" + ['7'], '9', true, 7, 9);
    SumFrom("" + ['7'] + ['9'], '9', false, 16, 9);
    SumFrom("" + ['7'] + ['9'] + ['9'], '2', true, 25, 4);
    SumFrom("" + ['7'] + ['9'] + ['9'] + ['2'], '7', false, 29, 7);
    assert "" + ['7'] + ['9'] + ['9'] + ['2'] + ['7'] == "79927";
  }

  lemma SecondHalf(s: string)
    requires Sum(s, false) == 36
    ensures Sum(s + ['3'] + ['9'] + ['8'] + ['7'] + ['1'], true) == 67
  {
    SumFrom(s, '3', true, 36, 6);
    SumFrom(s + ['3'], '9', false, 42, 9);
    SumFrom(s + ['3'] + ['9'], '8', true, 51, 7);
    SumFrom(s + ['3'] + ['9'] + ['8'], '7', false, 58, 7);
    SumFrom(s + ['3'] + ['9'] + ['8'] + ['7'], '1', true, 65, 2);
  }

  /** The usual example of the algorithm: 7992739871 is completed by 3. */
  lemma KnownNumber()
    ensures CheckDigit("7992739871") == 3
  {
    FirstHalf();
    SecondHalf("79927");
    assert "79927" + ['3'] + ['9'] + ['8'] + ['7'] + ['1'] == "7992739871";
  }
}
