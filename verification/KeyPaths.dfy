/** Derivation paths: printed by the derivation functions, read back by the signing side. */
module KeyPaths {
  import opened Positional

  const HARDENED: nat := 0x8000_0000

  datatype Segment = Segment(index: nat, hardened: bool)

  // ---- printing ---------------------------------------------------------------------

  function SegmentText(seg: Segment): (s: string)
    ensures s != ""
  {
    Text(seg.index, 10) + if seg.hardened then "'" else ""
  }

  function Piece(seg: Segment): string {
    "/" + SegmentText(seg)
  }

  function PathText(segs: seq<Segment>): string {
    if segs == [] then "m" else PathText(segs[..|segs| - 1]) + Piece(segs[|segs| - 1])
  }

  lemma PathAppend(segs: seq<Segment>, seg: Segment)
    ensures PathText(segs + [seg]) == PathText(segs) + Piece(seg)
  {
    assert (segs + [seg])[..|segs|] == segs;
  }

  function Hard(n: nat): string {
    "/" + (Text(n, 10) + "'")
  }

  function Soft(n: nat): string {
    "/" + Text(n, 10)
  }

  lemma PieceText(n: nat)
    ensures Piece(Segment(n, true)) == Hard(n) && Piece(Segment(n, false)) == Soft(n)
  {
    assert Text(n, 10) + "" == Text(n, 10);
  }

  /** The account path of an EVM or TRON tenant. */
  function AccountSegments(coin: nat, tenant: nat): seq<Segment> {
    [Segment(44, true)] + [Segment(coin, true)] + [Segment(tenant, true)]
  }

  function EvmSegments(coin: nat, tenant: nat, index: nat): seq<Segment> {
    AccountSegments(coin, tenant) + [Segment(0, false)] + [Segment(index, false)]
  }

  /** The address path of the EVM and TRON chains: m/44'/coin'/tenant'/0/index. */
  function EvmPath(coin: nat, tenant: nat, index: nat): string {
    "m/44'" + Hard(coin) + Hard(tenant) + "/0" + Soft(index)
  }

  function SolSegments(tenant: nat, index: nat): seq<Segment> {
    var base := [Segment(44, true)] + [Segment(501, true)] + [Segment(tenant, true)] + [Segment(0, true)];
    if index != 0 then base + [Segment(index, true)] else base
  }

  /** Solana: m/44'/501'/tenant'/0' for the first address, one more hardened step for the others. */
  function SolPath(tenant: nat, index: nat): string {
    var base := "m/44'" + "/501'" + Hard(tenant) + "/0'";
    if index != 0 then base + Hard(index) else base
  }

  lemma TwoDigits(a: nat, b: nat)
    requires 0 < a < 10 && b < 10
    ensures Digits(10 * a + b, 10) == [a, b]
  {
    DigitsStep(0, a, 10);
    DigitsStep(a, b, 10);
  }

  lemma PurposeText()
    ensures PathText([Segment(44, true)]) == "m/44'"
  {
    TwoDigits(4, 4);
    assert Text(44, 10) == "44";
    PathAppend([], Segment(44, true));
    assert [] + [Segment(44, true)] == [Segment(44, true)];
  }

  lemma DigitsOf501()
    ensures Digits(501, 10) == [5, 0, 1]
  {
    TwoDigits(5, 0);
    DigitsStep(50, 1, 10);
  }

  lemma SolanaText()
    ensures Hard(501) == "/501'"
  {
    DigitsOf501();
    assert Text(501, 10) == "501";
  }

  lemma ZeroText()
    ensures Hard(0) == "/0'" && Soft(0) == "/0"
  {
  }

  lemma AccountText(coin: nat, tenant: nat)
    ensures PathText(AccountSegments(coin, tenant)) == "m/44'" + Hard(coin) + Hard(tenant)
  {
    PurposeText();
    PathAppend([Segment(44, true)], Segment(coin, true));
    PieceText(coin);
    PathAppend([Segment(44, true)] + [Segment(coin, true)], Segment(tenant, true));
    PieceText(tenant);
  }

  lemma SolBaseText(tenant: nat)
    ensures PathText(SolSegments(tenant, 0)) == "m/44'" + "/501'" + Hard(tenant) + "/0'"
  {
    AccountText(501, tenant);
    SolanaText();
    PathAppend(AccountSegments(501, tenant), Segment(0, true));
    PieceText(0);
    ZeroText();
  }

  lemma EvmPathSegments(coin: nat, tenant: nat, index: nat)
    ensures EvmPath(coin, tenant, index) == PathText(EvmSegments(coin, tenant, index))
  {
    AccountText(coin, tenant);
    PathAppend(AccountSegments(coin, tenant), Segment(0, false));
    PieceText(0);
    ZeroText();
    PathAppend(AccountSegments(coin, tenant) + [Segment(0, false)], Segment(index, false));
    PieceText(index);
  }

  lemma SolPathSegments(tenant: nat, index: nat)
    ensures SolPath(tenant, index) == PathText(SolSegments(tenant, index))
  {
    SolBaseText(tenant);
    PathAppend(SolSegments(tenant, 0), Segment(index, true));
    PieceText(index);
  }

  lemma KnownCoins()
    ensures Hard(60) == "/60'" && Hard(195) == "/195'"
  {
    TwoDigits(6, 0);
    TwoDigits(1, 9);
    DigitsStep(19, 5, 10);
    assert Text(60, 10) == "60";
    assert Text(195, 10) == "195";
  }

  lemma KnownIndex(n: nat)
    requires 0 < n < 10
    ensures Hard(n) == "/" + (["0123456789"[n]] + "'") && Soft(n) == "/" + ["0123456789"[n]]
  {
    OneDigitText(n);
  }

  /** A path of an Ethereum wallet, written out. */
  lemma KnownPath()
    ensures EvmPath(60, 1, 2) == "m/44'/60'/1'/0/2"
  {
    KnownCoins();
    KnownIndex(1);
    KnownIndex(2);
  }

  /** And one of a TRON wallet. */
  lemma KnownTronPath()
    ensures EvmPath(195, 1, 2) == "m/44'/195'/1'/0/2"
  {
    KnownCoins();
    KnownIndex(1);
    KnownIndex(2);
  }

  /** Two Solana paths, written out. */
  lemma KnownSolanaPaths()
    ensures SolPath(7, 0) == "m/44'/501'/7'/0'" && SolPath(7, 3) == "m/44'/501'/7'/0'/3'"
  {
    KnownIndex(7);
    KnownIndex(3);
  }

  // ---- reading -------------------------------------------------------------------------

  function LastIndexOf(s: string, c: char): (i: nat)
    requires c in s
    ensures i < |s| && s[i] == c && forall k :: i < k < |s| ==> s[k] != c
  {
    if s[|s| - 1] == c then |s| - 1 else LastIndexOf(s[..|s| - 1], c)
  }

  /** strings.Split at every slash. */
  function Split(s: string): (parts: seq<string>)
    ensures parts != []
    decreases |s|
  {
    if '/' !in s then [s]
    else
      var i := LastIndexOf(s, '/');
      Split(s[..i]) + [s[i + 1..]]
  }

  function Joined(parts: seq<string>): string
    requires parts != []
  {
    if |parts| == 1 then parts[0] else Joined(parts[..|parts| - 1]) + ("/" + parts[|parts| - 1])
  }

  /** The parts have no slash, and joined by slashes they are the text. */
  lemma {:induction false} SplitJoins(s: string)
    ensures Joined(Split(s)) == s && forall i :: 0 <= i < |Split(s)| ==> '/' !in Split(s)[i]
    decreases |s|
  {
    if '/' !in s {
    } else {
      var i := LastIndexOf(s, '/');
      SplitJoins(s[..i]);
      CutAt(s, i);
      JoinedAppend(Split(s[..i]), s[i + 1..]);
    }
  }

  lemma CutAt(s: string, i: nat)
    requires i < |s| && s[i] == '/' && forall k :: i < k < |s| ==> s[k] != '/'
    ensures s == s[..i] + ("/" + s[i + 1..]) && '/' !in s[i + 1..]
  {
  }

  lemma JoinedAppend(parts: seq<string>, last: string)
    requires parts != []
    ensures Joined(parts + [last]) == Joined(parts) + ("/" + last)
  {
    assert (parts + [last])[..|parts|] == parts;
  }

  function ReadSegment(p: string): Option<Segment> {
    var hardened := p != "" && p[|p| - 1] == '\'';
    match ParseNat(if hardened then p[..|p| - 1] else p, 10)
    case Some(n) => Some(Segment(n, hardened))
    case None => None
  }

  /** The uint32 child number of a segment whose index fits in 31 bits. */
  function NumberOf(seg: Segment): (r: Option<nat>)
    ensures r == if seg.index < HARDENED then Some(seg.index + if seg.hardened then HARDENED else 0) else None
  {
    if seg.index >= HARDENED then None
    else if seg.hardened then Some((seg.index + HARDENED) % UINT32)
    else Some(seg.index)
  }

  /** The child number of a segment's text; ParseUint is asked for 31 bits. */
  function ChildNumber(p: string): (r: Option<nat>)
    ensures r.Some? ==> r.value < UINT32
  {
    match ReadSegment(p)
    case Some(seg) => NumberOf(seg)
    case None => None
  }

  function ChildNumbers(parts: seq<string>): Option<seq<nat>> {
    if parts == [] then Some([])
    else
      match (ChildNumbers(parts[..|parts| - 1]), ChildNumber(parts[|parts| - 1]))
      case (Some(ns), Some(n)) => Some(ns + [n])
      case _ => None
  }

  function ParsedPath(path: string): Option<seq<nat>> {
    if path == "" || path[0] != 'm' then None
    else match ChildNumbers(Split(path)[1..])
         case Some(ns) => Some([0] + ns)
         case None => None
  }

  lemma NextNumber(parts: seq<string>, i: nat, ns: seq<nat>, n: nat)
    requires i < |parts| && ChildNumbers(parts[..i]) == Some(ns) && ChildNumber(parts[i]) == Some(n)
    ensures ChildNumbers(parts[..i + 1]) == Some(ns + [n]) && ([0] + ns) + [n] == [0] + (ns + [n])
  {
    assert parts[..i + 1] == parts[..i] + [parts[i]];
    ChildNumbersAppend(parts[..i], parts[i]);
  }

  method ParseBIP44Path(path: string) returns (r: Option<seq<nat>>)
    ensures r == ParsedPath(path)
  {
    if path == "" {
      return None;
    }
    if path[0] != 'm' {
      return None;
    }
    if path == "m" {
      LoneM();
      return Some([0]);
    }
    var parts := Split(path)[1..];
    var result: seq<nat> := [0];
    ghost var ns: seq<nat> := [];
    for i := 0 to |parts|
      invariant ChildNumbers(parts[..i]) == Some(ns) && result == [0] + ns
    {
      var p := parts[i];
      var hardened := p != "" && p[|p| - 1] == '\'';
      var digits := if hardened then p[..|p| - 1] else p;
      var val := ParseNat(digits, 10);
      if val.None? || val.value >= HARDENED {
        PrefixFails(parts, i);
        return None;
      }
      var n := val.value;
      if hardened {
        n := (n + HARDENED) % UINT32;
      }
      NextNumber(parts, i, ns, n);
      result, ns := result + [n], ns + [n];
    }
    assert parts[..|parts|] == parts;
    r := Some(result);
  }

  lemma LoneM()
    ensures ParsedPath("m") == Some([0])
  {
    assert '/' !in "m";
    assert Split("m")[1..] == [] && [0] + [] == [0];
  }

  lemma {:induction false} PrefixFails(parts: seq<string>, i: nat)
    requires i < |parts| && ChildNumber(parts[i]).None?
    ensures ChildNumbers(parts).None?
    decreases |parts|
  {
    if i == |parts| - 1 {
    } else {
      PrefixFails(parts[..|parts| - 1], i);
    }
  }

  lemma {:induction false} AllOrNone(parts: seq<string>)
    ensures ChildNumbers(parts).Some? <==> forall i :: 0 <= i < |parts| ==> ChildNumber(parts[i]).Some?
  {
    if parts == [] {
    } else {
      var init := parts[..|parts| - 1];
      AllOrNone(init);
      assert forall i :: 0 <= i < |init| ==> parts[i] == init[i];
    }
  }

  /** A decimal number below 2^31, with or without one mark at its end. */
  predicate IsPart(p: string) {
    var n := ParseNat(if p != "" && p[|p| - 1] == '\'' then p[..|p| - 1] else p, 10);
    n.Some? && n.value < 0x8000_0000
  }

  lemma PartsHaveNumbers(p: string)
    ensures ChildNumber(p).Some? <==> IsPart(p)
  {
  }

  /** A path is accepted if and only if it starts with m and every part after the first is such a number. */
  lemma AcceptedPaths(path: string)
    ensures ParsedPath(path).Some?
            <==> path != "" && path[0] == 'm' && forall i :: 1 <= i < |Split(path)| ==> IsPart(Split(path)[i])
  {
    AcceptedParts(Split(path), Split(path)[1..]);
  }

  lemma AcceptedParts(all: seq<string>, parts: seq<string>)
    requires all != [] && parts == all[1..]
    ensures ChildNumbers(parts).Some? <==> forall i :: 1 <= i < |all| ==> IsPart(all[i])
  {
    AllOrNone(parts);
    forall i | 1 <= i < |all| ensures ChildNumber(parts[i - 1]).Some? <==> IsPart(all[i]) {
      PartsHaveNumbers(all[i]);
    }
    assert forall i :: 0 <= i < |parts| ==> parts[i] == all[i + 1];
  }

  // ---- round trip ------------------------------------------------------------------------

  lemma NumeralHasNoMarks(n: nat)
    ensures '/' !in Text(n, 10) && '\'' !in Text(n, 10)
  {
    var ds := TextDigits(n, 10);
    forall i | 0 <= i < |ds| ensures Chars(ds)[i] != '/' && Chars(ds)[i] != '\'' {
      assert Chars(ds)[i] == DigitChar(ds[i]);
    }
  }

  lemma SegmentRoundTrip(seg: Segment)
    ensures ReadSegment(SegmentText(seg)) == Some(seg) && '/' !in SegmentText(seg)
  {
    var t := Text(seg.index, 10);
    NumeralHasNoMarks(seg.index);
    ParseOfText(seg.index, 10);
    if seg.hardened {
      assert (t + "'")[..|t|] == t;
    } else {
      assert SegmentText(seg) == t;
      assert t[|t| - 1] in t;
    }
  }

  function SegmentTexts(segs: seq<Segment>): (r: seq<string>)
    ensures |r| == |segs| && forall i :: 0 <= i < |segs| ==> r[i] == SegmentText(segs[i])
  {
    seq(|segs|, i requires 0 <= i < |segs| => SegmentText(segs[i]))
  }

  lemma LastSlash(s: string, t: string)
    requires '/' !in t
    ensures Split(s + ("/" + t)) == Split(s) + [t]
  {
    var u := s + ("/" + t);
    assert u[|s|] == '/';
    var i := LastIndexOf(u, '/');
    LastSlashAt(u, s, t, i);
    SlashBetween(s, t);
  }

  lemma SlashBetween(s: string, t: string)
    ensures (s + ("/" + t))[..|s|] == s && (s + ("/" + t))[|s| + 1..] == t
  {
  }

  lemma LastSlashAt(u: string, s: string, t: string, i: nat)
    requires u == s + ("/" + t) && '/' !in t && i < |u| && u[i] == '/'
    requires forall k :: i < k < |u| ==> u[k] != '/'
    ensures i == |s|
  {
    assert forall k :: |s| < k < |u| ==> u[k] == t[k - |s| - 1];
    assert u[|s|] == '/';
  }

  lemma SegmentTextsAppend(init: seq<Segment>, last: Segment)
    ensures SegmentTexts(init + [last]) == SegmentTexts(init) + [SegmentText(last)]
  {
    var segs := init + [last];
    assert segs[|init|] == last;
    assert forall i :: 0 <= i < |init| ==> segs[i] == init[i];
  }

  lemma EncodedAppend(init: seq<Segment>, last: Segment)
    ensures Encoded(init + [last]) == Encoded(init) + [last.index + if last.hardened then HARDENED else 0]
    ensures Small(init + [last]) <==> Small(init) && last.index < HARDENED
  {
    var segs := init + [last];
    assert segs[|init|] == last;
    assert forall i :: 0 <= i < |init| ==> segs[i] == init[i];
  }

  lemma SplitStep(init: seq<Segment>, last: Segment)
    requires Split(PathText(init)) == ["m"] + SegmentTexts(init)
    ensures Split(PathText(init + [last])) == ["m"] + SegmentTexts(init + [last])
  {
    PathAppend(init, last);
    SegmentRoundTrip(last);
    LastSlash(PathText(init), SegmentText(last));
    SegmentTextsAppend(init, last);
  }

  lemma {:induction false} SplitOfPath(segs: seq<Segment>)
    ensures Split(PathText(segs)) == ["m"] + SegmentTexts(segs)
  {
    if segs == [] {
      assert '/' !in "m";
      assert ["m"] + SegmentTexts([]) == ["m"];
    } else {
      var init, last := segs[..|segs| - 1], segs[|segs| - 1];
      assert segs == init + [last];
      SplitOfPath(init);
      SplitStep(init, last);
    }
  }

  function Encoded(segs: seq<Segment>): (ns: seq<nat>)
    ensures |ns| == |segs|
    ensures forall i :: 0 <= i < |segs| ==> ns[i] == segs[i].index + if segs[i].hardened then HARDENED else 0
  {
    seq(|segs|, i requires 0 <= i < |segs| => segs[i].index + if segs[i].hardened then HARDENED else 0)
  }

  predicate Small(segs: seq<Segment>) {
    forall i :: 0 <= i < |segs| ==> segs[i].index < HARDENED
  }

  lemma NumberOfText(seg: Segment)
    ensures ChildNumber(SegmentText(seg))
            == if seg.index < HARDENED then Some(seg.index + if seg.hardened then HARDENED else 0) else None
  {
    SegmentRoundTrip(seg);
    assert ReadSegment(SegmentText(seg)) == Some(seg);
  }

  lemma ChildNumbersAppend(parts: seq<string>, p: string)
    ensures ChildNumbers(parts + [p])
            == match (ChildNumbers(parts), ChildNumber(p))
               case (Some(ns), Some(n)) => Some(ns + [n])
               case _ => None
  {
    assert (parts + [p])[..|parts|] == parts;
  }

  lemma {:induction false} NumbersOfTexts(segs: seq<Segment>)
    ensures ChildNumbers(SegmentTexts(segs)) == if Small(segs) then Some(Encoded(segs)) else None
  {
    if segs == [] {
    } else {
      var init, last := segs[..|segs| - 1], segs[|segs| - 1];
      assert segs == init + [last];
      NumbersOfTexts(init);
      NumberOfText(last);
      SegmentTextsAppend(init, last);
      EncodedAppend(init, last);
      ChildNumbersAppend(SegmentTexts(init), SegmentText(last));
    }
  }

  /** A printed path is read back as 0 followed by exactly its child numbers, none of which
      overflows, if and only if every index is below 2^31; otherwise it is refused. */
  lemma PathRoundTrip(segs: seq<Segment>)
    ensures ParsedPath(PathText(segs)) == if Small(segs) then Some([0] + Encoded(segs)) else None
    ensures Small(segs) ==> forall i :: 0 <= i < |segs| ==> Encoded(segs)[i] < UINT32
  {
    SplitOfPath(segs);
    NumbersOfTexts(segs);
    assert Split(PathText(segs))[1..] == SegmentTexts(segs);
    StartsWithM(segs);
  }

  lemma {:induction false} StartsWithM(segs: seq<Segment>)
    ensures PathText(segs) != "" && PathText(segs)[0] == 'm'
  {
    if segs == [] {
    } else {
      StartsWithM(segs[..|segs| - 1]);
    }
  }

  /** Hardening adds 2^31; an index of 2^31 or more is refused. */
  lemma KnownNumbers(n: nat)
    ensures n < 0x8000_0000 ==> ChildNumber(SegmentText(Segment(n, true))) == Some(n + 0x8000_0000)
    ensures n < 0x8000_0000 ==> ChildNumber(SegmentText(Segment(n, false))) == Some(n)
    ensures n >= 0x8000_0000 ==> ChildNumber(SegmentText(Segment(n, true))) == None
  {
    NumberOfText(Segment(n, true));
    NumberOfText(Segment(n, false));
  }

  /** Different segment lists print differently, whatever the size of their indices. */
  lemma PathTextIsInjective(a: seq<Segment>, b: seq<Segment>)
    requires PathText(a) == PathText(b)
    ensures a == b
  {
    SplitOfPath(a);
    SplitOfPath(b);
    assert SegmentTexts(a) == Split(PathText(a))[1..] == SegmentTexts(b);
    forall i | 0 <= i < |a| ensures a[i] == b[i] {
      SegmentRoundTrip(a[i]);
      SegmentRoundTrip(b[i]);
      assert SegmentTexts(a)[i] == SegmentTexts(b)[i];
    }
  }

  lemma EvmPathIsInjective(c: nat, t: nat, i: nat, c': nat, t': nat, i': nat)
    requires EvmPath(c, t, i) == EvmPath(c', t', i')
    ensures c == c' && t == t' && i == i'
  {
    EvmPathSegments(c, t, i);
    EvmPathSegments(c', t', i');
    PathTextIsInjective(EvmSegments(c, t, i), EvmSegments(c', t', i'));
    assert EvmSegments(c, t, i)[1] == EvmSegments(c', t', i')[1];
    assert EvmSegments(c, t, i)[2] == EvmSegments(c', t', i')[2];
    assert EvmSegments(c, t, i)[4] == EvmSegments(c', t', i')[4];
  }

  /** The two shapes of Solana paths never collide. */
  lemma SolPathIsInjective(t: nat, i: nat, t': nat, i': nat)
    requires SolPath(t, i) == SolPath(t', i')
    ensures t == t' && i == i'
  {
    SolPathSegments(t, i);
    SolPathSegments(t', i');
    PathTextIsInjective(SolSegments(t, i), SolSegments(t', i'));
    assert |SolSegments(t, i)| == |SolSegments(t', i')|;
    assert SolSegments(t, i)[2] == SolSegments(t', i')[2];
    if i != 0 {
      assert SolSegments(t, i)[4] == SolSegments(t', i')[4];
    }
  }
}
