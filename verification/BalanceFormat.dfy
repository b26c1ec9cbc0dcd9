/** Printing an amount of smallest units as a decimal number. */
module BalanceFormat {
  import opened Positional
  import opened BlockReference

  function Trimmed(s: string): string {
    if s != "" && s[|s| - 1] == '0' then Trimmed(s[..|s| - 1]) else s
  }

  method TrimTrailingZeros(s: string) returns (t: string)
    ensures t == Trimmed(s)
  {
    t := s;
    while |t| > 0 && t[|t| - 1] == '0'
      invariant Trimmed(t) == Trimmed(s)
    {
      t := t[..|t| - 1];
    }
  }

  /** Quotient, and after a point the padded and trimmed remainder unless that is zero. */
  function Printed(amount: int, places: nat): string {
    PowPositive(10, places);
    var q, r := amount / Pow(10, places), amount % Pow(10, places);
    if r == 0 then SignedText(q, 10) else SignedText(q, 10) + "." + Trimmed(Padded(r, places))
  }

  function Places(decimals: int): nat {
    if decimals <= 0 then 0 else decimals
  }

  /** Zeros in front up to the width. */
  function LeftPadded(s: string, width: nat): string {
    if |s| >= width then s else Chars(Zeros(width - |s|)) + s
  }

  lemma OneMoreZero(k: nat, s: string)
    ensures Chars(Zeros(k + 1)) + s == Chars(Zeros(k)) + ("0" + s)
  {
    assert Zeros(k + 1) == Zeros(k) + [0];
    CharsOfConcat(Zeros(k), [0]);
    assert Chars([0]) == "0";
  }

  lemma PadOne(s: string, width: nat)
    requires |s| < width
    ensures LeftPadded("0" + s, width) == LeftPadded(s, width)
  {
    OneMoreZero(width - |s| - 1, s);
  }

  method FormatBalance(amount: Option<int>, decimals: int) returns (s: string)
    ensures s == if amount.None? then "0" else Printed(amount.value, if decimals > 0 then decimals else 0)
  {
    if amount.None? {
      return "0";
    }
    PowPositive(10, Places(decimals));
    var divisor := Pow(10, Places(decimals));
    var quotient, remainder := amount.value / divisor, amount.value % divisor;
    if remainder == 0 {
      return SignedText(quotient, 10);
    }
    PaddedText(remainder, Places(decimals));
    var digits := Text(remainder, 10);
    ghost var padded := LeftPadded(digits, Places(decimals));
    assert padded == Padded(remainder, Places(decimals));
    while |digits| < decimals
      invariant LeftPadded(digits, Places(decimals)) == padded
    {
      PadOne(digits, decimals);
      digits := "0" + digits;
    }
    digits := TrimTrailingZeros(digits);
    return SignedText(quotient, 10) + "." + digits;
  }

  // ---- reading it back --------------------------------------------------------------------

  /** The number `whole + part / 10^places`, negated on demand. */
  datatype Decimal = Decimal(negative: bool, whole: nat, part: nat, places: nat) {
    function Units(): int {
      Signed(negative, whole * Pow(10, places) + part)
    }
  }

  function DotIndex(s: string): (i: nat)
    ensures i <= |s| && (i < |s| ==> s[i] == '.')
  {
    if s == "" || s[0] == '.' then 0 else 1 + DotIndex(s[1..])
  }

  /** Reads digits, and optionally a point and more digits. */
  function ReadUnsigned(s: string): Option<Decimal> {
    var dot := DotIndex(s);
    if dot == |s| then
      match ParseNat(s, 10) case Some(n) => Some(Decimal(false, n, 0, 0)) case None => None
    else ReadFraction(s[..dot], s[dot + 1..])
  }

  function ReadFraction(whole: string, part: string): Option<Decimal> {
    match (ParseNat(whole, 10), ParseNat(part, 10))
    case (Some(n), Some(f)) => Some(Decimal(false, n, f, |part|))
    case _ => None
  }

  /** The same with an optional minus sign. */
  function ReadDecimal(s: string): Option<Decimal> {
    if s != "" && s[0] == '-' then
      match ReadUnsigned(s[1..]) case Some(x) => Some(x.(negative := true)) case None => None
    else ReadUnsigned(s)
  }

  /** The decimal equals `amount / 10^places`. */
  predicate Denotes(x: Decimal, amount: int, places: nat) {
    x.Units() * Pow(10, places) == amount * Pow(10, x.places)
  }

  function Signed(negative: bool, n: int): int {
    if negative then -n else n
  }

  lemma {:induction false} DotAfterDigits(whole: string, part: string)
    requires forall i :: 0 <= i < |whole| ==> CharDigit(whole[i], 10).Some?
    ensures DotIndex(whole) == |whole|
    ensures DotIndex(whole + "." + part) == |whole|
  {
    var s := whole + "." + part;
    if whole == "" {
      assert s[0] == '.';
    } else {
      DotAfterDigits(whole[1..], part);
      assert s[0] == whole[0] && CharDigit('.', 10).None?;
      assert s[1..] == whole[1..] + "." + part;
    }
  }

  lemma ReadSigned(negative: bool, body: string)
    requires body != "" && body[0] != '-' && ReadUnsigned(body).Some? && !ReadUnsigned(body).value.negative
    ensures ReadDecimal(Sign(negative) + body) == Some(ReadUnsigned(body).value.(negative := negative))
  {
    assert ("-" + body)[1..] == body && "" + body == body;
  }

  lemma ReadWhole(q: int)
    ensures ReadDecimal(SignedText(q, 10)) == Some(Decimal(q < 0, Magnitude(q), 0, 0))
  {
    var t := Text(Magnitude(q), 10);
    ParseOfText(Magnitude(q), 10);
    UnsignedText(Magnitude(q), 10);
    DotAfterDigits(t, "");
    ReadSigned(q < 0, t);
  }

  lemma ReadPointed(whole: string, part: string)
    requires ParseNat(whole, 10).Some?
    ensures ReadUnsigned(whole + "." + part) == ReadFraction(whole, part)
  {
    var s := whole + "." + part;
    DotAfterDigits(whole, part);
    assert s[..|whole|] == whole && s[|whole| + 1..] == part;
  }

  lemma SignInFront(negative: bool, whole: string, part: string)
    ensures (Sign(negative) + whole) + "." + part == Sign(negative) + (whole + "." + part)
  {
  }

  lemma FractionParts(whole: string, n: nat, part: string, f: nat)
    requires ParseNat(whole, 10) == Some(n) && ParseNat(part, 10) == Some(f)
    ensures ReadFraction(whole, part) == Some(Decimal(false, n, f, |part|))
  {
  }

  lemma ReadParts(negative: bool, whole: string, part: string)
    requires ParseNat(whole, 10).Some? && whole[0] != '-' && ReadFraction(whole, part).Some?
    requires !ReadFraction(whole, part).value.negative
    ensures ReadDecimal((Sign(negative) + whole) + "." + part)
            == Some(ReadFraction(whole, part).value.(negative := negative))
  {
    ReadPointed(whole, part);
    var body := whole + "." + part;
    assert body[0] == whole[0];
    ReadSigned(negative, body);
    SignInFront(negative, whole, part);
  }

  lemma ReadWithFraction(q: int, part: string, f: nat)
    requires ParseNat(part, 10) == Some(f)
    ensures ReadDecimal(SignedText(q, 10) + "." + part)
            == Some(Decimal(q < 0, Magnitude(q), f, |part|))
  {
    UnsignedText(Magnitude(q), 10);
    FractionParts(Text(Magnitude(q), 10), Magnitude(q), part, f);
    ReadParts(q < 0, Text(Magnitude(q), 10), part);
  }

  /** Trimming keeps a numeral with the same value up to the dropped factor, without a zero at the end. */
  lemma {:induction false} TrimmedNumeral(s: string, r: nat)
    requires ParseNat(s, 10) == Some(r) && r > 0
    ensures var t := Trimmed(s);
            && t != "" && |t| <= |s| && t[|t| - 1] != '0'
            && ParseNat(t, 10).Some?
            && ParseNat(t, 10).value * Pow(10, |s| - |t|) == r
  {
    var init := s[..|s| - 1];
    if s[|s| - 1] == '0' {
      assert CharDigits(s, 10)[..|s| - 1] == CharDigits(init, 10);
      assert CharDigits(s, 10)[|s| - 1] == 0;
      assert Value(CharDigits(init, 10), 10) * 10 == r;
      assert Value(CharDigits(init, 10), 10) > 0;
      TrimmedNumeral(init, r / 10);
      var t := Trimmed(init);
      assert Pow(10, |s| - |t|) == 10 * Pow(10, |init| - |t|);
      TimesTen(ParseNat(t, 10).value, Pow(10, |init| - |t|), r / 10);
    }
  }

  lemma TimesTen(v: nat, p: nat, r: nat)
    requires v * p == r
    ensures v * (10 * p) == 10 * r
  {
  }

  lemma ScaleUnits(q: nat, f: nat, pk: nat, pd: nat, rest: nat, r: nat)
    requires pd == pk * rest && f * rest == r
    ensures (q * pk + f) * pd == (q * pd + r) * pk
  {
    assert f * pd == f * (pk * rest) == (f * rest) * pk;
    assert (q * pk) * pd == (q * pd) * pk;
  }

  /** What the printed text says: the amount itself, except that the fraction of a negative amount
      is counted away from zero although it was computed towards positive infinity. */
  function Said(amount: int, places: nat): int {
    PowPositive(10, places);
    var p := Pow(10, places);
    if amount >= 0 then amount else (amount / p) * p - amount % p
  }

  lemma ScaledUnits(x: Decimal, r: nat, places: nat, whole: nat, said: int)
    requires x.places <= places && x.part * Pow(10, places - x.places) == r
    requires whole == x.whole * Pow(10, places) && said == Signed(x.negative, whole + r)
    ensures Denotes(x, said, places)
  {
    var k := x.places;
    PowSum(10, k, places - k);
    ScaleUnits(x.whole, x.part, Pow(10, k), Pow(10, places), Pow(10, places - k), r);
    ScaleSigned(x.negative, x.whole * Pow(10, k) + x.part, Pow(10, places), whole + r, Pow(10, k));
  }

  /** The text reads as amount / 10^places. */
  predicate Says(s: string, amount: int, places: nat) {
    match ReadDecimal(s)
    case Some(x) => Denotes(x, amount, places)
    case None => false
  }

  lemma FractionSays(q: int, r: nat, places: nat, whole: nat, s: string, said: int)
    requires 0 < r < Pow(10, places) && whole == Magnitude(q) * Pow(10, places)
    requires s == SignedText(q, 10) + "." + Trimmed(Padded(r, places)) && said == Signed(q < 0, whole + r)
    ensures Says(s, said, places)
  {
    var f, k := Fraction(r, places);
    var x := Decimal(q < 0, Magnitude(q), f, k);
    ScaledUnits(x, r, places, whole, said);
    ReadWithFraction(q, Trimmed(Padded(r, places)), f);
    assert ReadDecimal(s) == Some(x);
  }

  lemma WholeSays(q: int, places: nat, whole: nat, s: string, said: int)
    requires whole == Magnitude(q) * Pow(10, places)
    requires s == SignedText(q, 10) && said == Signed(q < 0, whole)
    ensures Says(s, said, places)
  {
    ReadWhole(q);
    assert Pow(10, 0) == 1;
    ScaleSigned(q < 0, Magnitude(q), Pow(10, places), whole, 1);
  }

  lemma PrintedSays(amount: int, places: nat)
    ensures Says(Printed(amount, places), Said(amount, places), places)
  {
    var whole := SaidParts(amount, places);
    var q, r := PrintedParts(amount, places);
    if r == 0 {
      WholeSays(q, places, whole, Printed(amount, places), Said(amount, places));
    } else {
      FractionSays(q, r, places, whole, Printed(amount, places), Said(amount, places));
    }
  }

  lemma PrintedParts(amount: int, places: nat) returns (q: int, r: nat)
    ensures Pow(10, places) > 0 && q == amount / Pow(10, places) && r == amount % Pow(10, places) < Pow(10, places)
    ensures q < 0 <==> amount < 0
    ensures Printed(amount, places)
            == if r == 0 then SignedText(q, 10) else SignedText(q, 10) + "." + Trimmed(Padded(r, places))
  {
    PowPositive(10, places);
    q, r := amount / Pow(10, places), amount % Pow(10, places);
    QuotientSign(amount, Pow(10, places));
  }

  lemma SaidParts(amount: int, places: nat) returns (whole: nat)
    ensures Pow(10, places) > 0 && whole == Magnitude(amount / Pow(10, places)) * Pow(10, places)
    ensures Said(amount, places) == Signed(amount < 0, whole + amount % Pow(10, places))
  {
    PowPositive(10, places);
    var p := Pow(10, places);
    whole := Magnitude(amount / p) * p;
    QuotientSign(amount, p);
    assert amount == (amount / p) * p + amount % p;
    if amount < 0 {
      assert -((-(amount / p)) * p) == (amount / p) * p;
    }
  }

  lemma ScaleSigned(negative: bool, a: int, x: int, b: int, y: int)
    requires a * x == b * y
    ensures Signed(negative, a) * x == Signed(negative, b) * y
  {
    assert (-a) * x == -(a * x) && (-b) * y == -(b * y);
  }

  lemma QuotientSign(amount: int, p: nat)
    requires p > 0
    ensures amount < 0 <==> amount / p < 0
  {
  }

  /** The printed fraction is r / 10^places in shortest form. */
  lemma Fraction(r: nat, places: nat) returns (f: nat, k: nat)
    requires 0 < r < Pow(10, places)
    ensures var t := Trimmed(Padded(r, places));
            t != "" && t[|t| - 1] != '0' && k == |t| <= places && ParseNat(t, 10) == Some(f)
    ensures f * Pow(10, places - k) == r
  {
    assert places > 0;
    PaddedWidth(r, places);
    ParseOfPadded(r, places);
    TrimmedNumeral(Padded(r, places), r);
    var t := Trimmed(Padded(r, places));
    f, k := ParseNat(t, 10).value, |t|;
  }

  lemma DenotesOnce(x: Decimal, a: int, b: int, places: nat)
    requires Denotes(x, a, places) && Denotes(x, b, places)
    ensures a == b
  {
    PowPositive(10, x.places);
    var p := Pow(10, x.places);
    assert p * (a - b) == 0;
  }

  /** The printed text denotes exactly amount / 10^places if and only if the amount is not a
      negative number with a fraction: -1 at one place is printed as -1.9. */
  lemma PrintsExactly(amount: int, places: nat)
    ensures Pow(10, places) > 0 && ReadDecimal(Printed(amount, places)).Some?
    ensures Denotes(ReadDecimal(Printed(amount, places)).value, amount, places)
            <==> (amount >= 0 || amount % Pow(10, places) == 0)
  {
    PowPositive(10, places);
    PrintedSays(amount, places);
    SaidIsExact(amount, places);
    var x := ReadDecimal(Printed(amount, places)).value;
    if Denotes(x, amount, places) {
      DenotesOnce(x, amount, Said(amount, places), places);
    }
  }

  lemma SaidIsExact(amount: int, places: nat)
    ensures Pow(10, places) > 0
    ensures Said(amount, places) == amount <==> amount >= 0 || amount % Pow(10, places) == 0
  {
    PowPositive(10, places);
    assert amount == (amount / Pow(10, places)) * Pow(10, places) + amount % Pow(10, places);
  }

  /** A fraction is printed exactly when there is one; it has at most the given places and does
      not end in zero. */
  lemma FractionIsShortest(amount: int, places: nat)
    ensures Pow(10, places) > 0 && ReadDecimal(Printed(amount, places)).Some?
    ensures ReadDecimal(Printed(amount, places)).value.places <= places
    ensures ReadDecimal(Printed(amount, places)).value.places == 0 <==> amount % Pow(10, places) == 0
    ensures amount % Pow(10, places) != 0 ==> Printed(amount, places)[|Printed(amount, places)| - 1] != '0'
  {
    var q, r := PrintedParts(amount, places);
    if r == 0 {
      ReadWhole(q);
    } else {
      var f, k := Fraction(r, places);
      ReadWithFraction(q, Trimmed(Padded(r, places)), f);
      LastOfConcat(SignedText(q, 10) + ".", Trimmed(Padded(r, places)));
    }
  }

  lemma LastOfConcat(s: string, t: string)
    requires t != ""
    ensures (s + t)[|s + t| - 1] == t[|t| - 1]
  {
  }

  /** Even where the text misstates the amount, different amounts print differently. */
  lemma PrintingIsInjective(a: int, b: int, places: nat)
    requires Printed(a, places) == Printed(b, places)
    ensures a == b
  {
    PrintedSays(a, places);
    PrintedSays(b, places);
    DenotesOnce(ReadDecimal(Printed(a, places)).value, Said(a, places), Said(b, places), places);
    PowPositive(10, places);
    SaidIsInjective(a, b, places);
  }

  lemma SaidIsInjective(a: int, b: int, places: nat)
    requires Said(a, places) == Said(b, places)
    ensures a == b
  {
    SaidSign(a, places);
    SaidSign(b, places);
    if a < 0 {
      PowPositive(10, places);
      SameParts(a, b, Pow(10, places));
    }
  }

  lemma SameParts(a: int, b: int, p: nat)
    requires p > 0 && a < 0 && b < 0
    requires (a / p) * p - a % p == (b / p) * p - b % p
    ensures a == b
  {
    NegatedParts(a, p);
    NegatedParts(b, p);
  }

  lemma NegatedParts(a: int, p: nat)
    requires p > 0 && a < 0
    ensures a == (a / p) * p + a % p
    ensures (a % p - (a / p) * p) / p == -(a / p) && (a % p - (a / p) * p) % p == a % p
  {
    var q, r := a / p, a % p;
    assert a == q * p + r;
    QuotientSign(a, p);
    assert (-q) * p == -(q * p);
    DivModUnique(-q, r, p);
  }

  lemma SaidSign(amount: int, places: nat)
    ensures Said(amount, places) < 0 <==> amount < 0
  {
    PowPositive(10, places);
    var p := Pow(10, places);
    if amount < 0 {
      QuotientSign(amount, p);
      MulMono(p, amount / p, -1);
    }
  }

  /** For instance, -1 with one decimal is printed as -1.9. */
  lemma MinusOneTenth()
    ensures Printed(-1, 1) == "-1.9"
    ensures ReadDecimal(Printed(-1, 1)) == Some(Decimal(true, 1, 9, 1)) && !Denotes(Decimal(true, 1, 9, 1), -1, 1)
  {
    OneDigitText(1);
    OneDigitText(9);
    assert Pow(10, 1) == 10 && -1 / 10 == -1 && -1 % 10 == 9;
    assert SignedText(-1, 10) == "-1" && Trimmed(Padded(9, 1)) == "9";
    ParseOfText(9, 10);
    ReadWithFraction(-1, "9", 9);
  }
}
