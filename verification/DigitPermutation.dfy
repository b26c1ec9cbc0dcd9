/** The keyed obfuscation of the six date digits: a Fisher-Yates shuffle of the ten
    digits followed by a rotation. The two keyed hashes are arbitrary byte sequences. */
module DigitPermutation {
  import opened Positional
  import opened Luhn

  type Byte = b: nat | b < 256

  predicate Distinct<T(==)>(p: seq<T>) {
    forall i, j :: 0 <= i < j < |p| ==> p[i] != p[j]
  }

  function Swap<T>(p: seq<T>, i: nat, j: nat): (r: seq<T>)
    requires i < |p| && j < |p|
    ensures |r| == |p|
  {
    p[i := p[j]][j := p[i]]
  }

  /** Draws for the positions top, top - 1, ..., 1: position i may take any j in 0..i. */
  predicate IsDraws(js: seq<nat>, top: nat) {
    |js| == top && forall k :: 0 <= k < top ==> js[k] <= top - k
  }

  /** The shuffle loop, entered at position `top`. */
  function Shuffle<T>(p: seq<T>, top: nat, js: seq<nat>): (r: seq<T>)
    requires top < |p| && IsDraws(js, top)
    ensures |r| == |p|
    ensures forall i :: top < i < |p| ==> r[i] == p[i]
    decreases top
  {
    if top == 0 then p else Shuffle(Swap(p, top, js[0]), top - 1, js[1..])
  }

  /** r lists exactly the elements of p, each once. */
  ghost predicate Rearranges<T(!new)>(r: seq<T>, p: seq<T>) {
    |r| == |p| && Distinct(r) && forall x :: x in r <==> x in p
  }

  lemma SwapRearranges<T(!new)>(p: seq<T>, i: nat, j: nat)
    requires i < |p| && j < |p| && Distinct(p)
    ensures Rearranges(Swap(p, i, j), p)
  {
    var q := Swap(p, i, j);
    forall x | x in p ensures x in q {
      var k :| 0 <= k < |p| && p[k] == x;
      assert q[if k == i then j else if k == j then i else k] == x;
    }
  }

  lemma {:induction false} ShuffleRearranges<T(!new)>(p: seq<T>, top: nat, js: seq<nat>)
    requires top < |p| && Distinct(p) && IsDraws(js, top)
    ensures Rearranges(Shuffle(p, top, js), p)
    decreases top
  {
    if top == 0 {
    } else {
      SwapRearranges(p, top, js[0]);
      ShuffleRearranges(Swap(p, top, js[0]), top - 1, js[1..]);
    }
  }

  /** Different draws give different arrangements. */
  lemma {:induction false} ShuffleIsInjective<T(!new)>(p: seq<T>, top: nat, js: seq<nat>, ks: seq<nat>)
    requires top < |p| && Distinct(p) && IsDraws(js, top) && IsDraws(ks, top)
    requires Shuffle(p, top, js) == Shuffle(p, top, ks)
    ensures js == ks
    decreases top
  {
    if top == 0 {
    } else {
      assert Shuffle(p, top, js)[top] == p[js[0]];
      assert Shuffle(p, top, ks)[top] == p[ks[0]];
      assert js[0] == ks[0];
      SwapRearranges(p, top, js[0]);
      ShuffleIsInjective(Swap(p, top, js[0]), top - 1, js[1..], ks[1..]);
      assert js == [js[0]] + js[1..] && ks == [ks[0]] + ks[1..];
    }
  }

  lemma SuffixIndex<T>(r: seq<T>, p: seq<T>, top: nat, j: nat)
    requires top < |p| == |r| && j < |p| && Distinct(r) && p[j] == r[top]
    requires forall i :: top < i < |p| ==> r[i] == p[i]
    ensures j <= top
  {
  }

  /** Every arrangement comes from some draws; with injectivity, the loop is a bijection. */
  lemma {:induction false} ShuffleIsSurjective<T(!new)>(p: seq<T>, top: nat, r: seq<T>) returns (js: seq<nat>)
    requires top < |p| && Distinct(p) && Rearranges(r, p)
    requires forall i :: top < i < |p| ==> r[i] == p[i]
    ensures IsDraws(js, top) && Shuffle(p, top, js) == r
    decreases top
  {
    assert r[top] in p;
    var j: nat :| j < |p| && p[j] == r[top];
    SuffixIndex(r, p, top, j);
    if top == 0 {
      js := [];
      assert r == p;
    } else {
      var q := Swap(p, top, j);
      SwapRearranges(p, top, j);
      var rest := ShuffleIsSurjective(q, top - 1, r);
      js := [j] + rest;
      assert js[1..] == rest;
    }
  }

  // ---- the keyed digit permutation ------------------------------------------

  function TenDigits(): (s: string)
    ensures |s| == 10 && forall i :: 0 <= i < 10 ==> s[i] == '0' + i as char
  {
    seq(10, i requires 0 <= i < 10 => '0' + i as char)
  }

  /** Position of the t-th hash byte used; it restarts at 0 when the n bytes run out. */
  function ByteIndex(t: nat, n: nat): (k: nat)
    requires n > 0
    ensures k < n
  {
    if t == 0 then 0 else
    var k := ByteIndex(t - 1, n) + 1;
    if k >= n then 0 else k
  }

  lemma NextByteIndex(t: nat, n: nat)
    requires n > 0
    ensures ByteIndex(t + 1, n) == if ByteIndex(t, n) + 1 >= n then 0 else ByteIndex(t, n) + 1
  {
  }

  /** Draw number t, for position top - t, from the hash bytes; the bytes are reused when they run out. */
  function Draw(seed: seq<Byte>, top: nat, t: nat): (j: nat)
    requires |seed| > 0 && t < top
    ensures j <= top - t
  {
    seed[ByteIndex(t, |seed|)] % (top - t + 1)
  }

  function SeedDraws(seed: seq<Byte>, top: nat, from: nat): (js: seq<nat>)
    requires |seed| > 0 && from <= top
    ensures IsDraws(js, top - from)
    decreases top - from
  {
    if from == top then [] else [Draw(seed, top, from)] + SeedDraws(seed, top, from + 1)
  }

  lemma ShuffleStep<T>(p: seq<T>, seed: seq<Byte>, top: nat, i: nat, t: nat)
    requires 0 < i <= top && t == top - i && i < |p| && |seed| > 0
    ensures Shuffle(p, i, SeedDraws(seed, top, t))
            == Shuffle(Swap(p, i, Draw(seed, top, t)), i - 1, SeedDraws(seed, top, t + 1))
  {
    assert SeedDraws(seed, top, t)[1..] == SeedDraws(seed, top, t + 1);
  }

  function SeededShuffle<T>(p: seq<T>, seed: seq<Byte>): (r: seq<T>)
    requires |p| > 0 && |seed| > 0
    ensures |r| == |p|
  {
    Shuffle(p, |p| - 1, SeedDraws(seed, |p| - 1, 0))
  }

  function DigitPerm(seed: seq<Byte>): (perm: string)
    requires |seed| > 0
    ensures |perm| == 10
  {
    SeededShuffle(TenDigits(), seed)
  }

  /** The bytes are used in turn, again and again. */
  lemma {:induction false} ByteIndexWraps(t: nat, n: nat)
    requires n > 0
    ensures ByteIndex(t, n) == t % n
  {
    if t == 0 {
    } else {
      ByteIndexWraps(t - 1, n);
      DivModParts(t - 1, n);
      var q, r := (t - 1) / n, (t - 1) % n;
      if r + 1 < n {
        DivModUnique(q, r + 1, n);
      } else {
        assert (q + 1) * n == q * n + n;
        DivModUnique(q + 1, 0, n);
      }
    }
  }

  lemma DrawIs(seed: seq<Byte>, j: nat, t: nat)
    requires t < |seed| && seed[t] == j <= |seed| - t
    ensures Draw(seed, |seed|, t) == j
  {
    ByteIndexWraps(t, |seed|);
    DivModUnique(0, t, |seed|);
    DivModUnique(0, j, |seed| - t + 1);
  }

  lemma {:induction false} DrawsOfSeed(seed: seq<Byte>, js: seq<nat>, from: nat)
    requires IsDraws(js, |seed|) && from <= |seed| && 0 < |seed|
    requires forall t :: 0 <= t < |seed| ==> seed[t] == js[t]
    ensures SeedDraws(seed, |seed|, from) == js[from..]
    decreases |seed| - from
  {
    if from == |seed| {
    } else {
      DrawsOfSeed(seed, js, from + 1);
      DrawIs(seed, js[from], from);
      assert js[from..] == [js[from]] + js[from + 1..];
    }
  }

  /** Every arrangement of up to 256 elements comes from some hash bytes. */
  lemma EveryArrangementHasASeed<T(!new)>(p: seq<T>, r: seq<T>) returns (seed: seq<Byte>)
    requires 1 < |p| <= 256 && Distinct(p) && Rearranges(r, p)
    ensures |seed| > 0 && SeededShuffle(p, seed) == r
  {
    var js := ShuffleIsSurjective(p, |p| - 1, r);
    seed := seq(|js|, t requires 0 <= t < |js| => js[t]);
    DrawsOfSeed(seed, js, 0);
  }

  /** In particular every permutation of the ten digits does. */
  lemma EveryDigitPermHasASeed(perm: string) returns (seed: seq<Byte>)
    requires IsDigitPerm(perm)
    ensures |seed| > 0 && DigitPerm(seed) == perm
  {
    forall c | c in TenDigits() ensures c in perm {
      assert IsDigit(c);
    }
    forall c | c in perm ensures c in TenDigits() {
      assert IsDigit(c);
      assert TenDigits()[c as int - '0' as int] == c;
    }
    seed := EveryArrangementHasASeed(TenDigits(), perm);
  }

  method SwapInPlace(perm: array<char>, i: nat, j: nat)
    requires i < perm.Length && j < perm.Length
    modifies perm
    ensures perm[..] == Swap(old(perm[..]), i, j)
  {
    perm[i], perm[j] := perm[j], perm[i];
  }

  /** The shuffle loop, on a table of any length. */
  method ShuffleInPlace(perm: array<char>, seed: seq<Byte>)
    requires perm.Length > 0 && |seed| > 0
    modifies perm
    ensures perm[..] == SeededShuffle(old(perm[..]), seed)
  {
    var k, i := 0, perm.Length - 1;
    ghost var top, t := i, 0;
    while i > 0
      invariant 0 <= i <= top && t == top - i && k == ByteIndex(t, |seed|)
      invariant Shuffle(perm[..], i, SeedDraws(seed, top, t)) == SeededShuffle(old(perm[..]), seed)
    {
      var j := seed[k] % (i + 1);
      ShuffleStep(perm[..], seed, top, i, t);
      SwapInPlace(perm, i, j);
      NextByteIndex(t, |seed|);
      k := k + 1;
      if k >= |seed| {
        k := 0;
      }
      i, t := i - 1, t + 1;
    }
  }

  method BuildDigitPerm(seed: seq<Byte>) returns (result: string)
    requires |seed| > 0
    ensures result == DigitPerm(seed)
  {
    var perm := new char[10];
    for i := 0 to 10
      invariant forall m :: 0 <= m < i ==> perm[m] == '0' + m as char
    {
      perm[i] := '0' + i as char;
    }
    assert perm[..] == TenDigits();
    ShuffleInPlace(perm, seed);
    result := perm[..];
  }

  /** Whatever the hash bytes are, the table is a permutation of the ten digits. */
  lemma DigitPermIsPermutation(seed: seq<Byte>)
    requires |seed| > 0
    ensures IsDigitPerm(DigitPerm(seed))
  {
    var perm := DigitPerm(seed);
    assert perm == SeededShuffle(TenDigits(), seed);
    ShuffleRearranges(TenDigits(), |TenDigits()| - 1, SeedDraws(seed, |TenDigits()| - 1, 0));
    forall i | 0 <= i < |perm| ensures IsDigit(perm[i]) {
      assert perm[i] in TenDigits();
    }
    forall c | IsDigit(c) ensures c in perm {
      assert TenDigits()[c as int - '0' as int] == c;
    }
  }

  // ---- permute, then rotate ---------------------------------------------------

  function Permuted(s: string, perm: string): (r: string)
    requires IsDigitString(s) && |perm| == 10
    ensures |r| == |s|
  {
    seq(|s|, i requires 0 <= i < |s| => perm[s[i] as int - '0' as int])
  }

  /** Cyclic right shift of a six-character string. */
  function RotateRight(s: string, rot: nat): (r: string)
    requires |s| == 6
    ensures |r| == 6
  {
    s[6 - rot % 6..] + s[..6 - rot % 6]
  }

  function Obfuscated(s: string, perm: string, rot: nat): (r: string)
    requires |s| == 6 && IsDigitString(s) && |perm| == 10
    ensures |r| == 6
  {
    RotateRight(Permuted(s, perm), rot)
  }

  function IndexOf(perm: string, c: char): (i: nat)
    requires c in perm
    ensures i < |perm| && perm[i] == c
  {
    if perm[0] == c then 0 else 1 + IndexOf(perm[1..], c)
  }

  predicate IsDigitPerm(perm: string) {
    |perm| == 10 && Distinct(perm) && IsDigitString(perm) && forall c :: IsDigit(c) ==> c in perm
  }

  /** Undo the rotation, then look every digit up in the permutation. */
  function Revealed(o: string, perm: string, rot: nat): (s: string)
    requires |o| == 6 && IsDigitString(o) && IsDigitPerm(perm)
  {
    var b := RotateRight(o, 6 - rot % 6);
    seq(6, i requires 0 <= i < 6 => '0' + IndexOf(perm, b[i]) as char)
  }

  lemma PermutedReveals(s: string, perm: string, i: nat)
    requires IsDigitString(s) && IsDigitPerm(perm) && i < |s|
    ensures IsDigit(Permuted(s, perm)[i]) && Permuted(s, perm)[i] in perm
    ensures '0' + IndexOf(perm, Permuted(s, perm)[i]) as char == s[i]
  {
    var d := s[i] as int - '0' as int;
    assert Permuted(s, perm)[i] == perm[d];
  }

  lemma RevealsObfuscated(s: string, perm: string, rot: nat)
    requires |s| == 6 && IsDigitString(s) && IsDigitPerm(perm)
    ensures IsDigitString(Obfuscated(s, perm, rot))
    ensures Revealed(Obfuscated(s, perm, rot), perm, rot) == s
  {
    var p := Permuted(s, perm);
    forall i | 0 <= i < 6 ensures IsDigit(p[i]) && p[i] in perm && '0' + IndexOf(perm, p[i]) as char == s[i] {
      PermutedReveals(s, perm, i);
    }
    RotationsCancel(p, rot);
  }

  lemma ObfuscatesRevealed(o: string, perm: string, rot: nat)
    requires |o| == 6 && IsDigitString(o) && IsDigitPerm(perm)
    ensures IsDigitString(Revealed(o, perm, rot))
    ensures Obfuscated(Revealed(o, perm, rot), perm, rot) == o
  {
    var b, v := RotateRight(o, 6 - rot % 6), Revealed(o, perm, rot);
    forall i | 0 <= i < 6 ensures IsDigit(v[i]) && perm[v[i] as int - '0' as int] == b[i] {
      assert b[i] in perm;
    }
    assert Permuted(v, perm) == b;
    RotationsCancelBack(o, rot);
  }

  /** Obfuscation and its inverse cancel both ways, for every permutation and rotation. */
  lemma ObfuscationIsBijective(s: string, perm: string, rot: nat)
    requires |s| == 6 && IsDigitString(s) && IsDigitPerm(perm)
    ensures IsDigitString(Obfuscated(s, perm, rot)) && Revealed(Obfuscated(s, perm, rot), perm, rot) == s
    ensures IsDigitString(Revealed(s, perm, rot)) && Obfuscated(Revealed(s, perm, rot), perm, rot) == s
  {
    RevealsObfuscated(s, perm, rot);
    ObfuscatesRevealed(s, perm, rot);
  }

  lemma RotationsCancel(s: string, rot: nat)
    requires |s| == 6
    ensures RotateRight(RotateRight(s, rot), 6 - rot % 6) == s
  {
    var r := rot % 6;
    assert (6 - r) % 6 == if r == 0 then 0 else 6 - r;
  }

  lemma RotationsCancelBack(s: string, rot: nat)
    requires |s| == 6
    ensures RotateRight(RotateRight(s, 6 - rot % 6), rot) == s
  {
    var r := rot % 6;
    assert (6 - r) % 6 == if r == 0 then 0 else 6 - r;
  }

  function BuildRot(hash: seq<Byte>): (rot: nat)
    requires |hash| > 0
    ensures rot < 6
  {
    hash[0] % 6
  }

  /** The rotation is that of the first hash byte, and every rotation occurs. */
  lemma RotationOfFirstByte(hash: seq<Byte>, rest: seq<Byte>, rot: Byte)
    requires |hash| > 0 && rot < 6
    ensures BuildRot(hash) == BuildRot(hash[..1]) && BuildRot([rot] + rest) == rot
  {
  }

  /** Digit i of the date, replaced, moves `rot` places to the right, around the end. */
  lemma ObfuscatedAt(s: string, perm: string, rot: nat, i: nat)
    requires |s| == 6 && IsDigitString(s) && |perm| == 10 && rot < 6 && i < 6
    ensures Obfuscated(s, perm, rot)[(i + rot) % 6] == perm[s[i] as int - '0' as int]
  {
    assert (i + rot) % 6 == if i + rot < 6 then i + rot else i + rot - 6;
    assert Permuted(s, perm)[i] == perm[s[i] as int - '0' as int];
  }

  lemma PermutedIs(s: string, perm: string, b: string)
    requires IsDigitString(s) && |perm| == 10 && |b| == |s|
    requires forall m :: 0 <= m < |s| ==> b[m] == perm[s[m] as int - '0' as int]
    ensures b == Permuted(s, perm)
  {
  }

  lemma NoRotation(s: string)
    requires |s| == 6
    ensures RotateRight(s, 0) == s
  {
    assert s[6..] + s[..6] == s;
  }

  method Obfuscate(s: string, permSeed: seq<Byte>, rotSeed: seq<Byte>) returns (result: string)
    requires |s| == 6 && IsDigitString(s) && |permSeed| > 0 && |rotSeed| > 0
    ensures result == Obfuscated(s, DigitPerm(permSeed), BuildRot(rotSeed))
  {
    var perm := BuildDigitPerm(permSeed);
    var rot := BuildRot(rotSeed);
    var b := new char[6];
    for i := 0 to 6
      invariant forall m :: 0 <= m < i ==> b[m] == perm[s[m] as int - '0' as int]
    {
      b[i] := perm[s[i] as int - '0' as int];
    }
    PermutedIs(s, perm, b[..]);
    result := b[..];
    if rot > 0 {
      var r := rot % 6;
      var tmp := b[6 - r..];
      assert tmp == b[..][6 - r..] && b[..6 - r] == b[..][..6 - r];
      result := tmp + b[..6 - r];
    } else {
      NoRotation(result);
    }
  }
}
