/** String operations the dashboard relies on: JavaScript's `includes`, the
    decimal rendering of a non-negative integer (`String(n)` / `n.toString()`),
    `padStart` with a one-character fill, and `toFixed(2)` of a value given in
    hundredths.

    Strings are sequences of Unicode scalar values. JavaScript works on UTF-16
    code units; every label and value in the dashboard lies in the Basic
    Multilingual Plane, where the two coincide. */
module Text {

  // ---------------------------------------------------------------------------
  // Substring search: `s.includes(sub)`, case-sensitive, character by character
  // ---------------------------------------------------------------------------

  /** The characters of `sub` from position j on match `s` from position k + j on. */
  predicate MatchAt(s: string, sub: string, k: nat, j: nat)
    requires k + |sub| <= |s| && j <= |sub|
    decreases |sub| - j
  {
    j == |sub| || (s[k + j] == sub[j] && MatchAt(s, sub, k, j + 1))
  }

  /** `sub` occurs in `s` at some position at or after k. The first character
      is compared before the rest of `sub`. */
  predicate ContainsFrom(s: string, sub: string, k: nat)
    decreases |s| - k
  {
    k + |sub| <= |s|
    && ((|sub| == 0 || (s[k] == sub[0] && MatchAt(s, sub, k, 1))) || ContainsFrom(s, sub, k + 1))
  }

  /** JavaScript's `s.includes(sub)`. */
  predicate Contains(s: string, sub: string)
  {
    ContainsFrom(s, sub, 0)
  }

  /** Reference definition: the slice of `s` at position k is `sub`. */
  ghost predicate OccursAt(sub: string, s: string, k: nat)
  {
    k + |sub| <= |s| && s[k..k + |sub|] == sub
  }

  ghost predicate Occurs(sub: string, s: string)
  {
    exists k: nat :: OccursAt(sub, s, k)
  }

  lemma {:induction false} MatchAtIff(s: string, sub: string, k: nat, j: nat)
    requires k + |sub| <= |s| && j <= |sub|
    ensures MatchAt(s, sub, k, j) <==> s[k + j..k + |sub|] == sub[j..]
    decreases |sub| - j
  {
    if j < |sub| {
      MatchAtIff(s, sub, k, j + 1);
      var a, b := s[k + j..k + |sub|], sub[j..];
      assert a == [s[k + j]] + s[k + j + 1..k + |sub|];
      assert b == [sub[j]] + sub[j + 1..];
      if a == b {
        assert a[0] == b[0] && a[1..] == b[1..];
      }
    }
  }

  lemma {:induction false} ContainsFromIff(s: string, sub: string, k: nat)
    ensures ContainsFrom(s, sub, k) <==> exists m: nat :: k <= m && OccursAt(sub, s, m)
    decreases |s| - k
  {
    if k + |sub| <= |s| {
      MatchAtIff(s, sub, k, 0);
      ContainsFromIff(s, sub, k + 1);
      assert MatchAt(s, sub, k, 0) <==> (|sub| == 0 || (s[k] == sub[0] && MatchAt(s, sub, k, 1)));
      if exists m: nat :: k <= m && OccursAt(sub, s, m) {
        var m: nat :| k <= m && OccursAt(sub, s, m);
        if m == k {
          assert MatchAt(s, sub, k, 0);
        } else {
          assert ContainsFrom(s, sub, k + 1);
        }
      }
      if MatchAt(s, sub, k, 0) {
        assert OccursAt(sub, s, k);
      }
    } else {
      forall m: nat | k <= m
        ensures !OccursAt(sub, s, m)
      {
      }
    }
  }

  /** `Contains` agrees with the reference definition, in both directions. */
  lemma ContainsIff(s: string, sub: string)
    ensures Contains(s, sub) <==> Occurs(sub, s)
  {
    ContainsFromIff(s, sub, 0);
  }

  /** Containment is transitive: if `t` occurs in `s` and `u` occurs in `t`,
      then `u` occurs in `s`. */
  lemma ContainsTransitive(s: string, t: string, u: string)
    requires Contains(s, t) && Contains(t, u)
    ensures Contains(s, u)
  {
    ContainsIff(s, t);
    ContainsIff(t, u);
    var m: nat :| OccursAt(t, s, m);
    var n: nat :| OccursAt(u, t, n);
    var a, b := s[m + n..m + n + |u|], t[n..n + |u|];
    forall p | 0 <= p < |u|
      ensures a[p] == b[p]
    {
      assert s[m..m + |t|][n + p] == t[n + p];
    }
    assert a == b;
    assert OccursAt(u, s, m + n);
    ContainsIff(s, u);
  }

  /** A string that lacks one of the characters of `sub` does not contain `sub`. */
  lemma MissingCharacter(s: string, sub: string, j: nat)
    requires j < |sub| && sub[j] !in s
    ensures !Contains(s, sub)
  {
    ContainsIff(s, sub);
    forall k: nat | k + |sub| <= |s|
      ensures !OccursAt(sub, s, k)
    {
      assert s[k..k + |sub|][j] == s[k + j];
    }
  }

  /** An occurrence at a known position makes `Contains` hold. */
  lemma OccurrenceAt(s: string, sub: string, k: nat)
    requires k + |sub| <= |s| && forall j :: 0 <= j < |sub| ==> s[k + j] == sub[j]
    ensures Contains(s, sub)
  {
    assert OccursAt(sub, s, k);
    ContainsIff(s, sub);
  }

  // ---------------------------------------------------------------------------
  // Decimal digits
  // ---------------------------------------------------------------------------

  predicate IsDigit(c: char)
  {
    '0' <= c <= '9'
  }

  predicate AllDigits(s: string)
  {
    forall k :: 0 <= k < |s| ==> IsDigit(s[k])
  }

  function DigitChar(d: nat): (c: char)
    requires d < 10
    ensures IsDigit(c) && c as int - '0' as int == d
  {
    ('0' as int + d) as char
  }

  /** The value of a string of decimal digits. */
  function DigitsValue(s: string): nat
    requires AllDigits(s)
  {
    if s == [] then 0
    else DigitsValue(s[..|s| - 1]) * 10 + (s[|s| - 1] as int - '0' as int)
  }

  /** JavaScript's `String(n)` for a non-negative integer: its decimal digits,
      with no leading zero. */
  function NatToString(n: nat): (r: string)
    ensures 1 <= |r| && AllDigits(r)
    ensures r[0] == '0' ==> n == 0
    decreases n
  {
    if n < 10 then [DigitChar(n)] else NatToString(n / 10) + [DigitChar(n % 10)]
  }

  function Pow10(k: nat): (p: nat)
    ensures p >= 1
  {
    if k == 0 then 1 else 10 * Pow10(k - 1)
  }

  /** Reading back the digits `NatToString` writes gives the number again. */
  lemma {:induction false} NatToStringRoundTrip(n: nat)
    ensures DigitsValue(NatToString(n)) == n
    decreases n
  {
    var r := NatToString(n);
    if n >= 10 {
      NatToStringRoundTrip(n / 10);
      assert r[..|r| - 1] == NatToString(n / 10);
    }
  }

  /** A non-empty digit string that does not start with '0' has a positive value. */
  lemma {:induction false} LeadingDigitPositive(s: string)
    requires |s| >= 1 && AllDigits(s) && s[0] != '0'
    ensures DigitsValue(s) >= 1
    decreases |s|
  {
    if |s| > 1 {
      LeadingDigitPositive(s[..|s| - 1]);
    }
  }

  /** The other direction: a digit string without leading zeros is exactly what
      `NatToString` writes for its value. */
  lemma {:induction false} DigitsRoundTrip(s: string)
    requires |s| >= 1 && AllDigits(s) && (s[0] == '0' ==> |s| == 1)
    ensures NatToString(DigitsValue(s)) == s
    decreases |s|
  {
    var p := s[..|s| - 1];
    var d := s[|s| - 1] as int - '0' as int;
    if |s| == 1 {
      assert DigitsValue(s) == d;
    } else {
      LeadingDigitPositive(p);
      DigitsRoundTrip(p);
      var n := DigitsValue(s);
      assert n == DigitsValue(p) * 10 + d;
      assert n / 10 == DigitsValue(p) && n % 10 == d;
      assert s == p + [s[|s| - 1]];
    }
  }

  /** A number in [10^(k-1), 10^k) is written with k digits. */
  lemma {:induction false} NatToStringLength(n: nat, k: nat)
    requires k >= 1 && (k > 1 ==> Pow10(k - 1) <= n) && n < Pow10(k)
    ensures |NatToString(n)| == k
    decreases k
  {
    if k > 1 {
      assert n >= 10 by {
        assert Pow10(k - 1) == 10 * Pow10(k - 2);
      }
      NatToStringLength(n / 10, k - 1);
    }
  }

  /** Conversely, the length of `NatToString(n)` places n between consecutive
      powers of ten. */
  lemma {:induction false} NatToStringLengthRange(n: nat)
    ensures var k := |NatToString(n)|; (k > 1 ==> Pow10(k - 1) <= n) && n < Pow10(k)
    decreases n
  {
    if n >= 10 {
      NatToStringLengthRange(n / 10);
    }
  }

  // ---------------------------------------------------------------------------
  // Padding and fixed-point formatting
  // ---------------------------------------------------------------------------

  function Repeat(c: char, n: nat): (r: string)
    ensures |r| == n
  {
    if n == 0 then [] else [c] + Repeat(c, n - 1)
  }

  lemma {:induction false} RepeatShape(c: char, n: nat)
    ensures forall k :: 0 <= k < n ==> Repeat(c, n)[k] == c
  {
    if n > 0 {
      RepeatShape(c, n - 1);
      assert forall k :: 1 <= k < n ==> Repeat(c, n)[k] == Repeat(c, n - 1)[k - 1];
    }
  }

  /** JavaScript's `s.padStart(width, fill)` for a one-character fill: the fill
      character is put in front of `s` until the result is `width` long; a
      string already that long is left alone. */
  function PadStart(s: string, width: nat, fill: char): (r: string)
    ensures |r| == if |s| >= width then |s| else width
  {
    if |s| >= width then s else Repeat(fill, width - |s|) + s
  }

  /** `s` is kept as the suffix of `PadStart(s, width, fill)` and everything in
      front of it is the fill character. */
  lemma PadStartShape(s: string, width: nat, fill: char)
    ensures var r := PadStart(s, width, fill);
      && r[|r| - |s|..] == s
      && forall k :: 0 <= k < |r| - |s| ==> r[k] == fill
  {
    if |s| < width {
      RepeatShape(fill, width - |s|);
      var r := PadStart(s, width, fill);
      assert r[|r| - |s|..] == s;
    }
  }

  /** `String(n).padStart(2, '0')`. */
  function Pad2(n: nat): string
  {
    PadStart(NatToString(n), 2, '0')
  }

  /** Below 100, `Pad2` gives exactly two digits that read back as n. */
  lemma Pad2Digits(n: nat)
    requires n < 100
    ensures |Pad2(n)| == 2 && AllDigits(Pad2(n)) && DigitsValue(Pad2(n)) == n
  {
    var r := Pad2(n);
    if n < 10 {
      assert r == ['0', DigitChar(n)];
      assert r[..1] == ['0'];
      assert DigitsValue(['0']) == 0 by {
        assert ['0'][..0] == [];
      }
    } else {
      NatToStringLength(n, 2);
      NatToStringRoundTrip(n);
    }
  }

  /** `(c / 100).toFixed(2)` for an amount of c hundredths: the whole part in
      decimal, a point, then exactly two digits. */
  function FixedTwo(c: nat): string
  {
    NatToString(c / 100) + "." + Pad2(c % 100)
  }

  /** The two parts of `FixedTwo(c)` read back as the whole part and the
      hundredths of c. */
  lemma FixedTwoRoundTrip(c: nat)
    ensures var r := FixedTwo(c);
      && |r| >= 4 && r[|r| - 3] == '.'
      && AllDigits(r[..|r| - 3]) && DigitsValue(r[..|r| - 3]) == c / 100
      && AllDigits(r[|r| - 2..]) && DigitsValue(r[|r| - 2..]) == c % 100
  {
    WholeAndHundredths(c / 100, c % 100);
  }

  /** The layout of a whole part w, a point and two digits for f < 100. */
  lemma WholeAndHundredths(w: nat, f: nat)
    requires f < 100
    ensures var r := NatToString(w) + "." + Pad2(f);
      && |r| >= 4 && r[|r| - 3] == '.'
      && AllDigits(r[..|r| - 3]) && DigitsValue(r[..|r| - 3]) == w
      && AllDigits(r[|r| - 2..]) && DigitsValue(r[|r| - 2..]) == f
  {
    Pad2Digits(f);
    NatToStringRoundTrip(w);
    PointSplit(NatToString(w), Pad2(f));
  }

  /** Where the two sides of a point sit in `u + "." + v` for a two-character v. */
  lemma PointSplit(u: string, v: string)
    requires |u| >= 1 && |v| == 2
    ensures var r := u + "." + v;
      && |r| >= 4 && r[|r| - 3] == '.' && r[..|r| - 3] == u && r[|r| - 2..] == v
  {
    var r := u + "." + v;
    assert r[..|r| - 3] == u;
    assert r[|r| - 2..] == v;
  }

  /** Different amounts print differently. */
  lemma FixedTwoInjective(c: nat, d: nat)
    ensures FixedTwo(c) == FixedTwo(d) <==> c == d
  {
    if FixedTwo(c) == FixedTwo(d) {
      FixedTwoRoundTrip(c);
      FixedTwoRoundTrip(d);
      SamePartsSameNumber(c, d);
    }
  }

  lemma SamePartsSameNumber(c: nat, d: nat)
    requires c / 100 == d / 100 && c % 100 == d % 100
    ensures c == d
  {
  }
}
