/** Positional notation, most significant digit first, and the text forms built on it.

    Path indices, padded counters, hex strings, base58 strings and printed balances all
    use these definitions, so each of them inherits the same round trips. */
module Positional {

  datatype Option<+T> = None | Some(value: T)

  /** The number of values of the unsigned machine integers. */
  const UINT32: nat := 0x1_0000_0000
  const UINT64: nat := 0x1_0000_0000_0000_0000

  function Pow(base: nat, e: nat): nat {
    if e == 0 then 1 else base * Pow(base, e - 1)
  }

  predicate IsDigits(ds: seq<nat>, base: nat) {
    forall i :: 0 <= i < |ds| ==> ds[i] < base
  }

  /** The number a digit sequence denotes. */
  function Value(ds: seq<nat>, base: nat): nat {
    if ds == [] then 0 else Value(ds[..|ds| - 1], base) * base + ds[|ds| - 1]
  }

  /** The shortest digit sequence of a number; zero has none. */
  function Digits(n: nat, base: nat): (ds: seq<nat>)
    requires base >= 2
    ensures IsDigits(ds, base)
    ensures n > 0 ==> ds != [] && ds[0] != 0
    ensures n == 0 ==> ds == []
    decreases n
  {
    if n == 0 then [] else DivShrinks(n, base); Digits(n / base, base) + [n % base]
  }

  function Zeros(k: nat): (ds: seq<nat>)
    ensures |ds| == k && forall i :: 0 <= i < k ==> ds[i] == 0
  {
    seq(k, _ => 0)
  }

  lemma {:induction false} PowPositive(base: nat, e: nat)
    requires base > 0
    ensures Pow(base, e) > 0
  {
    if e == 0 {
    } else {
      PowPositive(base, e - 1);
    }
  }

  lemma {:induction false} PowSum(base: nat, a: nat, b: nat)
    ensures Pow(base, a + b) == Pow(base, a) * Pow(base, b)
  {
    if a == 0 {
    } else {
      PowSum(base, a - 1, b);
      assert Pow(base, a + b) == base * (Pow(base, a - 1) * Pow(base, b));
    }
  }

  /** The unsigned machine integers have 32 and 64 bits. */
  lemma MachineIntegers()
    ensures UINT32 == Pow(2, 32) && UINT64 == Pow(2, 64)
  {
    PowSum(2, 4, 4);
    PowSum(2, 8, 8);
    PowSum(2, 16, 16);
    PowSum(2, 32, 32);
  }

  lemma MulMono(a: nat, x: int, y: int)
    requires x <= y
    ensures a * x <= a * y
  {
  }

  lemma DivModParts(n: nat, base: nat)
    requires base > 0
    ensures n == (n / base) * base + n % base
  {
  }

  lemma DivShrinks(n: nat, base: nat)
    requires n > 0 && base >= 2
    ensures n / base < n
  {
    var q := n / base;
    DivModParts(n, base);
    MulMono(q, 2, base);
  }

  lemma SmallMultiple(base: nat, d: int)
    requires 0 - base < base * d < base
    ensures d == 0
  {
  }

  lemma DivModUnique(q: nat, r: nat, base: nat)
    requires r < base
    ensures (q * base + r) / base == q && (q * base + r) % base == r
  {
    var n := q * base + r;
    DivModParts(n, base);
    var d := n / base - q;
    assert base * d == r - n % base;
    SmallMultiple(base, d);
  }

  lemma ValueOfAppend(init: seq<nat>, last: nat, base: nat)
    ensures Value(init + [last], base) == Value(init, base) * base + last
  {
    assert (init + [last])[..|init|] == init;
  }

  lemma {:induction false} ValueOfDigits(n: nat, base: nat)
    requires base >= 2
    ensures Value(Digits(n, base), base) == n
    decreases n
  {
    if n == 0 {
    } else {
      var q, r := n / base, n % base;
      DivShrinks(n, base);
      DivModParts(n, base);
      ValueOfDigits(q, base);
      ValueOfAppend(Digits(q, base), r, base);
    }
  }

  lemma {:induction false} DigitsOfValue(ds: seq<nat>, base: nat)
    requires base >= 2 && IsDigits(ds, base)
    requires ds == [] || ds[0] != 0
    ensures Digits(Value(ds, base), base) == ds
  {
    if ds == [] {
    } else {
      var init, last := ds[..|ds| - 1], ds[|ds| - 1];
      assert ds == init + [last];
      DigitsOfValue(init, base);
      PositiveValue(ds, base);
      DigitsOfAppend(init, last, base);
    }
  }

  lemma DigitsOfAppend(init: seq<nat>, last: nat, base: nat)
    requires base >= 2 && last < base && Value(init + [last], base) > 0
    requires IsDigits(init, base) && Digits(Value(init, base), base) == init
    ensures Digits(Value(init + [last], base), base) == init + [last]
  {
    ValueOfAppend(init, last, base);
    DigitsStep(Value(init, base), last, base);
  }

  lemma DigitsStep(q: nat, r: nat, base: nat)
    requires base >= 2 && r < base && q * base + r > 0
    ensures Digits(q * base + r, base) == Digits(q, base) + [r]
  {
    DivModUnique(q, r, base);
  }

  lemma {:induction false} PositiveValue(ds: seq<nat>, base: nat)
    requires base >= 1 && ds != [] && ds[0] != 0
    ensures Value(ds, base) > 0
  {
    if |ds| == 1 {
    } else {
      PositiveValue(ds[..|ds| - 1], base);
      assert Value(ds[..|ds| - 1], base) * base >= 1 * base;
    }
  }

  lemma Distribute(a: nat, p: nat, v: nat, base: nat)
    ensures (a * p + v) * base == a * (base * p) + v * base
  {
  }

  lemma {:induction false} ValueOfConcat(a: seq<nat>, b: seq<nat>, base: nat)
    ensures Value(a + b, base) == Value(a, base) * Pow(base, |b|) + Value(b, base)
  {
    if b == [] {
      assert a + b == a;
    } else {
      var init, last := b[..|b| - 1], b[|b| - 1];
      ValueOfConcat(a, init, base);
      assert (a + b)[..|a + b| - 1] == a + init;
      Distribute(Value(a, base), Pow(base, |init|), Value(init, base), base);
    }
  }

  lemma {:induction false} ValueOfZeros(k: nat, base: nat)
    ensures Value(Zeros(k), base) == 0
  {
    if k == 0 {
    } else {
      assert Zeros(k)[..k - 1] == Zeros(k - 1);
      ValueOfZeros(k - 1, base);
    }
  }

  /** Leading zeros do not change the number. */
  lemma ValueIgnoresLeadingZeros(k: nat, ds: seq<nat>, base: nat)
    ensures Value(Zeros(k) + ds, base) == Value(ds, base)
  {
    ValueOfConcat(Zeros(k), ds, base);
    ValueOfZeros(k, base);
  }

  lemma {:induction false} ValueBound(ds: seq<nat>, base: nat)
    requires base >= 1 && IsDigits(ds, base)
    ensures Value(ds, base) < Pow(base, |ds|)
  {
    if ds == [] {
    } else {
      var init := ds[..|ds| - 1];
      ValueBound(init, base);
      assert Value(init, base) * base <= (Pow(base, |init|) - 1) * base;
      assert Pow(base, |ds|) == base * Pow(base, |init|);
    }
  }

  lemma MulLess(a: nat, x: int, y: int)
    requires a * x < a * y
    ensures x < y
  {
  }

  lemma {:induction false} DigitCount(n: nat, base: nat, k: nat)
    requires base >= 2 && n < Pow(base, k)
    ensures |Digits(n, base)| <= k
    decreases k
  {
    if n == 0 {
    } else {
      assert k > 0;
      var q, p := n / base, Pow(base, k - 1);
      DivModParts(n, base);
      MulLess(base, q, p);
      DigitCount(q, base, k - 1);
    }
  }

  // ---- text ---------------------------------------------------------------

  function DigitChar(d: nat): char
    requires d < 16
  {
    if d < 10 then '0' + d as char else 'a' + (d - 10) as char
  }

  /** The digit a character stands for; like Go's number parsers, upper case is accepted. */
  function CharDigit(c: char, base: nat): Option<nat> {
    var d := if '0' <= c <= '9' then c as int - '0' as int
             else if 'a' <= c <= 'f' then c as int - 'a' as int + 10
             else if 'A' <= c <= 'F' then c as int - 'A' as int + 10
             else 16;
    if d < base && d < 16 then Some(d) else None
  }

  function Chars(ds: seq<nat>): (s: string)
    requires IsDigits(ds, 16)
    ensures |s| == |ds|
  {
    seq(|ds|, i requires 0 <= i < |ds| => DigitChar(ds[i]))
  }

  predicate IsNumeral(s: string, base: nat) {
    s != [] && forall i :: 0 <= i < |s| ==> CharDigit(s[i], base).Some?
  }

  function CharDigits(s: string, base: nat): (ds: seq<nat>)
    requires forall i :: 0 <= i < |s| ==> CharDigit(s[i], base).Some?
    ensures |ds| == |s| && IsDigits(ds, base)
  {
    seq(|s|, i requires 0 <= i < |s| => CharDigit(s[i], base).value)
  }

  /** At least one digit. */
  function TextDigits(n: nat, base: nat): (ds: seq<nat>)
    requires base >= 2
    ensures IsDigits(ds, base) && ds != []
  {
    if n == 0 then [0] else Digits(n, base)
  }

  /** `%d` or `%x` of a non-negative number. */
  function Text(n: nat, base: nat): (s: string)
    requires 2 <= base <= 16
    ensures s != []
  {
    Chars(TextDigits(n, base))
  }

  function ParseNat(s: string, base: nat): Option<nat> {
    if IsNumeral(s, base) then Some(Value(CharDigits(s, base), base)) else None
  }

  /** At least `width` digits. */
  function PaddedDigits(n: nat, width: nat): (ds: seq<nat>)
    ensures IsDigits(ds, 10) && ds != [] && |ds| >= width
  {
    var ds := TextDigits(n, 10);
    if |ds| >= width then ds else Zeros(width - |ds|) + ds
  }

  /** `%0<width>d`. */
  function Padded(n: nat, width: nat): (s: string)
    ensures |s| >= width
  {
    Chars(PaddedDigits(n, width))
  }

  lemma CharsRoundTrip(ds: seq<nat>, base: nat)
    requires base <= 16 && IsDigits(ds, base)
    ensures forall i :: 0 <= i < |ds| ==> CharDigit(Chars(ds)[i], base) == Some(ds[i])
    ensures CharDigits(Chars(ds), base) == ds
  {
    assert forall i :: 0 <= i < |ds| ==> Chars(ds)[i] == DigitChar(ds[i]);
    forall i | 0 <= i < |ds| ensures CharDigit(Chars(ds)[i], base) == Some(ds[i]) {
      var d := ds[i];
      assert Chars(ds)[i] == DigitChar(d);
      assert d < 16;
    }
  }

  lemma ParseOfChars(ds: seq<nat>, base: nat)
    requires 2 <= base <= 16 && IsDigits(ds, base) && ds != []
    ensures ParseNat(Chars(ds), base) == Some(Value(ds, base))
  {
    CharsRoundTrip(ds, base);
  }

  lemma OneDigitText(d: nat)
    requires d < 10
    ensures Text(d, 10) == [DigitChar(d)]
  {
    if d > 0 {
      assert Digits(d / 10, 10) == [];
    }
  }

  lemma ValueOfTextDigits(n: nat, base: nat)
    requires base >= 2
    ensures Value(TextDigits(n, base), base) == n
  {
    if n == 0 {
      assert [0][..0] == [];
    } else {
      ValueOfDigits(n, base);
    }
  }

  /** Printing a number and reading it back gives the number, in every base. */
  lemma ParseOfText(n: nat, base: nat)
    requires 2 <= base <= 16
    ensures ParseNat(Text(n, base), base) == Some(n)
  {
    ParseOfChars(TextDigits(n, base), base);
    ValueOfTextDigits(n, base);
  }

  lemma CharsOfConcat(a: seq<nat>, b: seq<nat>)
    requires IsDigits(a, 16) && IsDigits(b, 16)
    ensures IsDigits(a + b, 16) && Chars(a + b) == Chars(a) + Chars(b)
  {
  }

  /** Padding writes zeros in front. */
  lemma PaddedText(n: nat, width: nat)
    ensures |Text(n, 10)| >= width ==> Padded(n, width) == Text(n, 10)
    ensures |Text(n, 10)| < width ==> Padded(n, width) == Chars(Zeros(width - |Text(n, 10)|)) + Text(n, 10)
  {
    var ds := TextDigits(n, 10);
    if |ds| < width {
      CharsOfConcat(Zeros(width - |ds|), ds);
    }
  }

  lemma PaddingIsZeros(n: nat, width: nat) returns (k: nat)
    ensures PaddedDigits(n, width) == Zeros(k) + TextDigits(n, 10)
  {
    var ds := TextDigits(n, 10);
    k := if |ds| >= width then 0 else width - |ds|;
    assert Zeros(0) + ds == ds;
  }

  lemma ValueOfPaddedDigits(n: nat, width: nat)
    ensures Value(PaddedDigits(n, width), 10) == n
  {
    var k := PaddingIsZeros(n, width);
    ValueIgnoresLeadingZeros(k, TextDigits(n, 10), 10);
    ValueOfTextDigits(n, 10);
  }

  /** A padded number still reads back as itself. */
  lemma ParseOfPadded(n: nat, width: nat)
    ensures ParseNat(Padded(n, width), 10) == Some(n)
  {
    ParseOfChars(PaddedDigits(n, width), 10);
    ValueOfPaddedDigits(n, width);
  }

  /** A number that fits keeps exactly the requested width. */
  lemma PaddedWidth(n: nat, width: nat)
    requires n < Pow(10, width) && width > 0
    ensures |Padded(n, width)| == width
  {
    DigitCount(n, 10, width);
  }
}
