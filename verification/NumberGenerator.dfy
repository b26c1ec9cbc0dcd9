/** The 15-digit numbers: fixed-width layout, check digit, and global uniqueness. */
module NumberGenerator {
  import opened Positional
  import opened Luhn
  import opened DigitPermutation
  import opened SequenceCounter

  datatype Date = Date(year: nat, month: nat, day: nat)

  predicate IsDate(d: Date) {
    1 <= d.month <= 12 && 1 <= d.day <= 31
  }

  function YYMMDD(d: Date): string {
    Padded(d.year % 100, 2) + Padded(d.month, 2) + Padded(d.day, 2)
  }

  lemma CharsAreDigits(ds: seq<nat>)
    requires IsDigits(ds, 10)
    ensures IsDigitString(Chars(ds))
  {
    forall i | 0 <= i < |ds| ensures IsDigit(Chars(ds)[i]) {
      assert Chars(ds)[i] == DigitChar(ds[i]);
    }
  }

  lemma PaddedIsDigits(n: nat, width: nat)
    ensures IsDigitString(Padded(n, width))
  {
    CharsAreDigits(PaddedDigits(n, width));
  }

  lemma FixedWidth(n: nat, width: nat, bound: nat)
    requires width > 0 && bound == Pow(10, width) && n < bound
    ensures |Padded(n, width)| == width && IsDigitString(Padded(n, width))
  {
    PaddedWidth(n, width);
    PaddedIsDigits(n, width);
  }

  lemma SmallPowers()
    ensures Pow(10, 2) == 100 && Pow(10, 3) == 1000 && Pow(10, 4) == 10000
  {
  }

  lemma YYMMDDIsSixDigits(d: Date)
    requires IsDate(d)
    ensures |YYMMDD(d)| == 6 && IsDigitString(YYMMDD(d))
  {
    SmallPowers();
    FixedWidth(d.year % 100, 2, 100);
    FixedWidth(d.month, 2, 100);
    FixedWidth(d.day, 2, 100);
  }

  function NumeralValue(s: string): nat {
    match ParseNat(s, 10) case Some(n) => n case None => 0
  }

  /** Two digits each for the year within its century, the month and the day. */
  function ReadDate(s: string): (nat, nat, nat)
    requires |s| == 6
  {
    (NumeralValue(s[..2]), NumeralValue(s[2..4]), NumeralValue(s[4..]))
  }

  /** The date text says year within the century, month and day, in this order. */
  lemma DateTextReads(d: Date)
    requires IsDate(d)
    ensures |YYMMDD(d)| == 6 && ReadDate(YYMMDD(d)) == (d.year % 100, d.month, d.day)
  {
    SmallPowers();
    FixedWidth(d.year % 100, 2, 100);
    FixedWidth(d.month, 2, 100);
    FixedWidth(d.day, 2, 100);
    var s := YYMMDD(d);
    assert s[..2] == Padded(d.year % 100, 2) && s[2..4] == Padded(d.month, 2) && s[4..] == Padded(d.day, 2);
    ParseOfPadded(d.year % 100, 2);
    ParseOfPadded(d.month, 2);
    ParseOfPadded(d.day, 2);
  }

  /** Two dates have one text if and only if they are the same day of the same year of a century. */
  lemma SameDateText(d: Date, e: Date)
    requires IsDate(d) && IsDate(e)
    ensures YYMMDD(d) == YYMMDD(e) <==> d.year % 100 == e.year % 100 && d.month == e.month && d.day == e.day
  {
    DateTextReads(d);
    DateTextReads(e);
  }

  // ---- layout -----------------------------------------------------------------

  predicate IsKey(k: Key) {
    k.flag < 10 && |k.yymmdd| == 6 && IsDigitString(k.yymmdd)
  }

  predicate WellFormed(n: Slot) {
    IsKey(n.key) && n.seq4 < CAPACITY && n.r3 < 1000
  }

  function Body(flag: nat, obf: string, seq4: nat, r3: nat): string {
    Text(flag, 10) + obf + Padded(seq4, 4) + Padded(r3, 3)
  }

  function NumberBody(n: Slot, perm: string, rot: nat): string
    requires WellFormed(n) && IsDigitPerm(perm)
  {
    Body(n.key.flag, Obfuscated(n.key.yymmdd, perm, rot), n.seq4, n.r3)
  }

  function NumberText(n: Slot, perm: string, rot: nat): string
    requires WellFormed(n) && IsDigitPerm(perm)
  {
    var body := NumberBody(n, perm, rot);
    body + Text(CheckDigit(body), 10)
  }

  lemma BodyParts(flag: nat, obf: string, seq4: nat, r3: nat)
    requires flag < 10 && |obf| == 6 && IsDigitString(obf) && seq4 < CAPACITY && r3 < 1000
    ensures var b := Body(flag, obf, seq4, r3);
            |b| == 14 && b[..1] == [DigitChar(flag)] && b[1..7] == obf && b[7..11] == Padded(seq4, 4)
            && IsDigitString(b)
  {
    OneDigitText(flag);
    SmallPowers();
    FixedWidth(seq4, 4, 10000);
    FixedWidth(r3, 3, 1000);
    assert IsDigit(DigitChar(flag));
  }

  /** Every issued number has fifteen digits and passes the Luhn check. */
  lemma NumberIsWellFormed(n: Slot, perm: string, rot: nat)
    requires WellFormed(n) && IsDigitPerm(perm)
    ensures |NumberText(n, perm, rot)| == 15 && IsDigitString(NumberText(n, perm, rot))
    ensures Accepted(NumberText(n, perm, rot))
  {
    var obf := Obfuscated(n.key.yymmdd, perm, rot);
    ObfuscationIsBijective(n.key.yymmdd, perm, rot);
    BodyParts(n.key.flag, obf, n.seq4, n.r3);
    var body := NumberBody(n, perm, rot);
    OneDigitText(CheckDigit(body));
    CompletedBody(body, CheckDigit(body));
  }

  lemma CompletedBody(body: string, d: nat)
    requires d == CheckDigit(body)
    ensures IsDigit(DigitChar(d)) && Accepted(body + [DigitChar(d)])
  {
    CheckDigitIsUnique(body, DigitChar(d));
  }

  /** What a complete number tells whoever knows the permutation and the rotation. */
  datatype NumberData = NumberData(flag: nat, year: nat, month: nat, day: nat, seq4: nat, r3: nat)

  function ReadNumber(text: string, perm: string, rot: nat): NumberData
    requires |text| == 15 && IsDigitString(text) && IsDigitPerm(perm)
  {
    var (year, month, day) := ReadDate(Revealed(text[1..7], perm, rot));
    NumberData(NumeralValue(text[..1]), year, month, day, NumeralValue(text[7..11]), NumeralValue(text[11..14]))
  }

  ghost predicate OfDay(n: Slot, d: Date) {
    IsDate(d) && n.key.yymmdd == YYMMDD(d)
  }

  lemma NumberParts(n: Slot, perm: string, rot: nat)
    requires WellFormed(n) && IsDigitPerm(perm)
    ensures var s := NumberText(n, perm, rot);
            && |s| == 15 && s[..1] == Text(n.key.flag, 10) && s[1..7] == Obfuscated(n.key.yymmdd, perm, rot)
            && s[7..11] == Padded(n.seq4, 4) && s[11..14] == Padded(n.r3, 3)
  {
    var obf, s := Obfuscated(n.key.yymmdd, perm, rot), NumberText(n, perm, rot);
    ObfuscationIsBijective(n.key.yymmdd, perm, rot);
    BodyParts(n.key.flag, obf, n.seq4, n.r3);
    OneDigitText(n.key.flag);
    var body := NumberBody(n, perm, rot);
    OneDigitText(CheckDigit(body));
    assert s[..14] == body;
    assert s[..1] == body[..1] && s[1..7] == body[1..7] && s[7..11] == body[7..11] && s[11..14] == body[11..14];
  }

  /** An issued number tells its flag, its calendar day, its counter value and its random digits. */
  lemma NumberReads(n: Slot, d: Date, perm: string, rot: nat)
    requires WellFormed(n) && OfDay(n, d) && IsDigitPerm(perm)
    ensures |NumberText(n, perm, rot)| == 15 && IsDigitString(NumberText(n, perm, rot))
    ensures ReadNumber(NumberText(n, perm, rot), perm, rot)
            == NumberData(n.key.flag, d.year % 100, d.month, d.day, n.seq4, n.r3)
  {
    NumberIsWellFormed(n, perm, rot);
    NumberParts(n, perm, rot);
    ObfuscationIsBijective(n.key.yymmdd, perm, rot);
    DateTextReads(d);
    ParseOfText(n.key.flag, 10);
    ParseOfPadded(n.seq4, 4);
    ParseOfPadded(n.r3, 3);
  }

  /** Equal numbers force equal flag, equal calendar day, equal counter value and equal random digits. */
  lemma LayoutIsUnambiguous(a: Slot, d: Date, b: Slot, e: Date, perm: string, rot: nat)
    requires WellFormed(a) && OfDay(a, d) && WellFormed(b) && OfDay(b, e) && IsDigitPerm(perm)
    ensures NumberText(a, perm, rot) == NumberText(b, perm, rot) ==>
              && a.key.flag == b.key.flag && a.seq4 == b.seq4 && a.r3 == b.r3
              && d.year % 100 == e.year % 100 && d.month == e.month && d.day == e.day
  {
    NumberReads(a, d, perm, rot);
    NumberReads(b, e, perm, rot);
  }

  // ---- global uniqueness ----------------------------------------------------------

  /** A flag 0..9 and a calendar day. */
  ghost predicate IsDayKey(k: Key) {
    k.flag < 10 && exists d :: IsDate(d) && k.yymmdd == YYMMDD(d)
  }

  lemma DayOf(n: Slot) returns (d: Date)
    requires IsDayKey(n.key)
    ensures IsKey(n.key) && OfDay(n, d)
  {
    d :| IsDate(d) && n.key.yymmdd == YYMMDD(d);
    YYMMDDIsSixDigits(d);
  }

  /** The events of a run whose calls come from generators: flags 0..9, local calendar days. */
  ghost predicate FromGenerators(actions: seq<Action>) {
    forall a <- actions :: a.Begin? ==> IsDayKey(a.key)
  }

  lemma {:induction false} KeysComeFromGenerators(actions: seq<Action>)
    requires FromGenerators(actions)
    ensures forall c <- Run(actions).calls :: IsDayKey(c.key)
    ensures forall n <- Run(actions).issued :: IsDayKey(n.key)
  {
    if actions == [] {
    } else {
      var s, a := Run(actions[..|actions| - 1]), actions[|actions| - 1];
      KeysComeFromGenerators(actions[..|actions| - 1]);
      KeysKept(s, a);
    }
  }

  /** Calls keep their keys, and a number is issued under the key of a call. */
  lemma KeySources(s: State, a: Action)
    ensures forall u :: 0 <= u < |Step(s, a).calls| ==>
              (u < |s.calls| && Step(s, a).calls[u].key == s.calls[u].key)
              || (a.Begin? && Step(s, a).calls[u].key == a.key)
    ensures forall i :: 0 <= i < |Step(s, a).issued| ==>
              (i < |s.issued| && Step(s, a).issued[i] == s.issued[i])
              || exists u :: 0 <= u < |s.calls| && Step(s, a).issued[i].key == s.calls[u].key
  {
    var s' := Step(s, a);
    forall i | 0 <= i < |s'.issued|
      ensures (i < |s.issued| && s'.issued[i] == s.issued[i])
              || exists u :: 0 <= u < |s.calls| && s'.issued[i].key == s.calls[u].key {
      if i >= |s.issued| {
        assert a.Commit? && a.t < |s.calls| && s'.issued[i].key == s.calls[a.t].key;
      }
    }
  }

  lemma KeysKept(s: State, a: Action)
    requires (forall c <- s.calls :: IsDayKey(c.key)) && (forall n <- s.issued :: IsDayKey(n.key))
    requires a.Begin? ==> IsDayKey(a.key)
    ensures forall c <- Step(s, a).calls :: IsDayKey(c.key)
    ensures forall n <- Step(s, a).issued :: IsDayKey(n.key)
  {
    KeySources(s, a);
  }

  /** Different days or counter values, different numbers. */
  lemma SlotsApart(a: Slot, b: Slot, perm: string, rot: nat)
    requires WellFormed(a) && WellFormed(b) && IsDayKey(a.key) && IsDayKey(b.key) && IsDigitPerm(perm)
    requires a.key != b.key || a.seq4 != b.seq4
    ensures NumberText(a, perm, rot) != NumberText(b, perm, rot)
  {
    var d := DayOf(a);
    var e := DayOf(b);
    LayoutIsUnambiguous(a, d, b, e, perm, rot);
    SameDateText(d, e);
  }

  /** Global uniqueness: in every interleaving of calls, on all flags, days and time zones,
      with failures anywhere, no two issued numbers are equal. */
  lemma IssuedNumbersAreDistinct(actions: seq<Action>, perm: string, rot: nat)
    requires FromGenerators(actions) && IsDigitPerm(perm)
    ensures var ns := Run(actions).issued;
            (forall n <- ns :: WellFormed(n) && IsDayKey(n.key)) &&
            (forall i, j :: 0 <= i < j < |ns| ==> NumberText(ns[i], perm, rot) != NumberText(ns[j], perm, rot))
  {
    var ns := Run(actions).issued;
    RunKeepsInv(actions);
    KeysComeFromGenerators(actions);
    forall n <- ns ensures WellFormed(n) {
      var _ := DayOf(n);
    }
    forall i, j | 0 <= i < j < |ns| ensures NumberText(ns[i], perm, rot) != NumberText(ns[j], perm, rot) {
      SlotsApart(ns[i], ns[j], perm, rot);
    }
  }

  // ---- the generator ----------------------------------------------------------------

  class Generator {
    const table: CounterTable
    const flag: nat
    const permSeed: seq<Byte>
    const rotSeed: seq<Byte>

    ghost predicate Valid() {
      flag < 10 && |permSeed| > 0 && |rotSeed| > 0
    }

    constructor (table: CounterTable, flag: nat, permSeed: seq<Byte>, rotSeed: seq<Byte>)
      requires flag < 10 && |permSeed| > 0 && |rotSeed| > 0
      ensures Valid() && this.table == table && this.flag == flag
      ensures this.permSeed == permSeed && this.rotSeed == rotSeed
    {
      this.table, this.flag, this.permSeed, this.rotSeed := table, flag, permSeed, rotSeed;
    }

    /** New: a flag outside 0..9 or an unknown time zone is an error. */
    static method New(table: CounterTable, flag: int, zoneKnown: bool, permSeed: seq<Byte>, rotSeed: seq<Byte>)
      returns (g: Option<Generator>)
      requires |permSeed| > 0 && |rotSeed| > 0
      ensures g.Some? <==> 0 <= flag <= 9 && zoneKnown
      ensures g.Some? ==> fresh(g.value) && g.value.Valid() && g.value.table == table && g.value.flag == flag
                          && g.value.permSeed == permSeed && g.value.rotSeed == rotSeed
    {
      if flag < 0 || flag > 9 || !zoneKnown {
        return None;
      }
      var made := new Generator(table, flag, permSeed, rotSeed);
      g := Some(made);
    }

    /** Lays out a counter value as a complete number. */
    method Render(n: Slot) returns (r: string)
      requires Valid() && WellFormed(n) && n.key.flag == flag && IsDigitPerm(DigitPerm(permSeed))
      ensures r == NumberText(n, DigitPerm(permSeed), BuildRot(rotSeed))
    {
      var obf := Obfuscate(n.key.yymmdd, permSeed, rotSeed);
      var body := Body(flag, obf, n.seq4, n.r3);
      var cd := LuhnDigit(body);
      r := body + Text(cd, 10);
      assert body == NumberBody(n, DigitPerm(permSeed), BuildRot(rotSeed));
    }

    /** A returned number is the text of the slot the counter just handed out. */
    method Generate(now: Date, random: Option<nat>, faults: Faults) returns (r: Option<string>)
      requires Valid() && IsDate(now)
      modifies table
      ensures IsDigitPerm(DigitPerm(permSeed)) && IsKey(Key(YYMMDD(now), flag))
      ensures var (rows, v) := NextSeqWith(old(table.rows), Key(YYMMDD(now), flag), faults);
              table.rows == rows && (r.Some? <==> v.Some? && random.Some?)
              && (r.Some? ==>
                    var n := Slot(Key(YYMMDD(now), flag), v.value, random.value % 1000);
                    WellFormed(n) && r.value == NumberText(n, DigitPerm(permSeed), BuildRot(rotSeed)))
      ensures r.Some? ==>
                && |r.value| == 15 && IsDigitString(r.value) && Accepted(r.value)
                && ReadNumber(r.value, DigitPerm(permSeed), BuildRot(rotSeed))
                   == NumberData(flag, now.year % 100, now.month, now.day,
                                 NextSeqWith(old(table.rows), Key(YYMMDD(now), flag), faults).1.value,
                                 random.value % 1000)
    {
      YYMMDDIsSixDigits(now);
      DigitPermIsPermutation(permSeed);
      var k := Key(YYMMDD(now), flag);
      var seq4 := table.NextSeq(k, faults);
      if seq4.None? || random.None? {
        return None;
      }
      var n := Slot(k, seq4.value, random.value % 1000);
      var text := Render(n);
      NumberIsWellFormed(n, DigitPerm(permSeed), BuildRot(rotSeed));
      NumberReads(n, now, DigitPerm(permSeed), BuildRot(rotSeed));
      r := Some(text);
    }
  }
}
