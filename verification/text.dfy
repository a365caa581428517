/**
 * Python `str` operations used by the scripts, on `string` = `seq<char>`:
 * ordering (`<`), `startswith`/`endswith`, substring `in`, `split`, `join`,
 * `replace`, `rstrip` and decimal rendering of non-negative integers.
 */
module Text {

  // ---------------------------------------------------------------------------
  // Ordering: Python compares strings lexicographically by code point.
  // ---------------------------------------------------------------------------

  predicate Less(a: string, b: string)
    decreases |a|
  {
    if |a| == 0 then |b| > 0
    else if |b| == 0 then false
    else if a[0] != b[0] then a[0] < b[0]
    else Less(a[1..], b[1..])
  }

  lemma {:induction false} LessIrreflexive(a: string)
    ensures !Less(a, a)
    decreases |a|
  {
    if |a| > 0 {
      LessIrreflexive(a[1..]);
    }
  }

  lemma {:induction false} LessAsymmetric(a: string, b: string)
    requires Less(a, b)
    ensures !Less(b, a)
    decreases |a|
  {
    if |a| > 0 && |b| > 0 && a[0] == b[0] {
      LessAsymmetric(a[1..], b[1..]);
    }
  }

  lemma {:induction false} LessTransitive(a: string, b: string, c: string)
    requires Less(a, b) && Less(b, c)
    ensures Less(a, c)
    decreases |a|
  {
    if |a| > 0 && a[0] == b[0] && b[0] == c[0] {
      LessTransitive(a[1..], b[1..], c[1..]);
    }
  }

  /** Two different strings are always ordered one way or the other. */
  lemma {:induction false} LessTotal(a: string, b: string)
    requires a != b
    ensures Less(a, b) || Less(b, a)
    decreases |a|
  {
    if |a| > 0 && |b| > 0 && a[0] == b[0] {
      assert a == [a[0]] + a[1..] && b == [b[0]] + b[1..];
      LessTotal(a[1..], b[1..]);
    }
  }

  /** Comparing two concatenations whose first halves have equal length. */
  lemma {:induction false} LessConcat(x: string, y: string, x2: string, y2: string)
    requires |x| == |x2|
    ensures Less(x + y, x2 + y2) <==> Less(x, x2) || (x == x2 && Less(y, y2))
    decreases |x|
  {
    if |x| == 0 {
      assert x + y == y && x2 + y2 == y2;
    } else {
      assert (x + y)[0] == x[0] && (x2 + y2)[0] == x2[0];
      assert (x + y)[1..] == x[1..] + y && (x2 + y2)[1..] == x2[1..] + y2;
      LessConcat(x[1..], y, x2[1..], y2);
      if x[0] == x2[0] {
        assert x == [x[0]] + x[1..] && x2 == [x2[0]] + x2[1..];
      }
    }
  }

  // ---------------------------------------------------------------------------
  // Prefixes, suffixes and substrings.
  // ---------------------------------------------------------------------------

  predicate StartsWith(s: string, p: string) {
    |p| <= |s| && s[..|p|] == p
  }

  predicate EndsWith(s: string, p: string) {
    |p| <= |s| && s[|s| - |p|..] == p
  }

  /** Python's `sub in s` for strings (the empty string is in every string). */
  predicate Contains(s: string, sub: string)
    decreases |s|
  {
    StartsWith(s, sub) || (|s| > 0 && Contains(s[1..], sub))
  }

  lemma {:induction false} ContainsAt(s: string, sub: string, i: nat)
    requires i + |sub| <= |s| && s[i..i + |sub|] == sub
    ensures Contains(s, sub)
    decreases i
  {
    if i > 0 {
      assert s[1..][i - 1..i - 1 + |sub|] == s[i..i + |sub|];
      ContainsAt(s[1..], sub, i - 1);
    }
  }

  lemma {:induction false} CharNotContained(s: string, c: char)
    requires c !in s
    ensures !Contains(s, [c])
    decreases |s|
  {
    if |s| > 0 {
      assert s[0] != c;
      CharNotContained(s[1..], c);
    }
  }

  // ---------------------------------------------------------------------------
  // str.split(sep), sep.join(parts) and str.replace(pat, rep).
  // ---------------------------------------------------------------------------

  /** `s.split(sep)`: cut at every non-overlapping occurrence of `sep`, scanning
      left to right; always at least one part. */
  function SplitOn(s: string, sep: string): (parts: seq<string>)
    requires |sep| > 0
    ensures |parts| >= 1
    decreases |s|
  {
    if |s| < |sep| then [s]
    else if s[..|sep|] == sep then [""] + SplitOn(s[|sep|..], sep)
    else
      var rest := SplitOn(s[1..], sep);
      [[s[0]] + rest[0]] + rest[1..]
  }

  /** `sep.join(parts)`. */
  function Join(parts: seq<string>, sep: string): string
    requires |parts| >= 1
    decreases |parts|
  {
    if |parts| == 1 then parts[0] else parts[0] + sep + Join(parts[1..], sep)
  }

  /** `s.replace(old, rep)`: every non-overlapping occurrence, left to right. */
  function ReplaceAll(s: string, pat: string, rep: string): string
    requires |pat| > 0
    decreases |s|
  {
    if |s| < |pat| then s
    else if s[..|pat|] == pat then rep + ReplaceAll(s[|pat|..], pat, rep)
    else [s[0]] + ReplaceAll(s[1..], pat, rep)
  }

  lemma JoinConsHead(c: char, parts: seq<string>, sep: string)
    requires |parts| >= 1
    ensures Join([[c] + parts[0]] + parts[1..], sep) == [c] + Join(parts, sep)
  {
    var q := [[c] + parts[0]] + parts[1..];
    if |parts| > 1 {
      assert q[1..] == parts[1..];
    }
  }

  /** Splitting and re-joining with the same separator gives the string back. */
  lemma {:induction false} JoinSplit(s: string, sep: string)
    requires |sep| > 0
    ensures Join(SplitOn(s, sep), sep) == s
    decreases |s|
  {
    if |s| < |sep| {
    } else if s[..|sep|] == sep {
      var t := s[|sep|..];
      JoinSplit(t, sep);
      JoinEmptyHead(SplitOn(t, sep), sep);
      assert s == sep + t;
    } else {
      var rest := SplitOn(s[1..], sep);
      JoinSplit(s[1..], sep);
      JoinConsHead(s[0], rest, sep);
      assert s == [s[0]] + s[1..];
    }
  }

  lemma JoinEmptyHead(parts: seq<string>, sep: string)
    requires |parts| >= 1
    ensures Join([""] + parts, sep) == sep + Join(parts, sep)
  {
    assert ([""] + parts)[1..] == parts;
  }

  /** `s.replace(old, new)` is `new.join(s.split(old))`. */
  lemma {:induction false} ReplaceIsSplitJoin(s: string, pat: string, rep: string)
    requires |pat| > 0
    ensures ReplaceAll(s, pat, rep) == Join(SplitOn(s, pat), rep)
    decreases |s|
  {
    if |s| < |pat| {
    } else if s[..|pat|] == pat {
      var rest := SplitOn(s[|pat|..], pat);
      ReplaceIsSplitJoin(s[|pat|..], pat, rep);
      assert ([""] + rest)[1..] == rest;
    } else {
      var rest := SplitOn(s[1..], pat);
      ReplaceIsSplitJoin(s[1..], pat, rep);
      JoinConsHead(s[0], rest, rep);
    }
  }

  /** A string without the separator character splits into itself. */
  lemma {:induction false} SplitNoSep(s: string, c: char)
    requires c !in s
    ensures SplitOn(s, [c]) == [s]
    decreases |s|
  {
    if |s| >= 1 {
      assert s[..1] != [c] by { assert s[0] != c; }
      SplitNoSep(s[1..], c);
      assert [s[0]] + s[1..] == s;
    }
  }

  /** Splitting on a single character peels off the part before its first occurrence. */
  lemma {:induction false} SplitCons(x: string, c: char, y: string)
    requires c !in x
    ensures SplitOn(x + [c] + y, [c]) == [x] + SplitOn(y, [c])
    decreases |x|
  {
    var s := x + [c] + y;
    if |x| == 0 {
      assert s[..1] == [c];
      assert s[1..] == y;
    } else {
      assert s[..1] != [c] by { assert s[0] == x[0] != c; }
      assert s[1..] == x[1..] + [c] + y;
      SplitCons(x[1..], c, y);
      assert [s[0]] + x[1..] == x;
    }
  }

  /** A string split into two or more parts starts with its first part and
      the separator. */
  lemma SplitHead(s: string, c: char)
    requires |SplitOn(s, [c])| >= 2
    ensures StartsWith(s, SplitOn(s, [c])[0] + [c])
  {
    var parts := SplitOn(s, [c]);
    var q := parts[0] + [c];
    JoinSplit(s, [c]);
    assert s == q + Join(parts[1..], [c]);
    assert s[..|q|] == q;
  }

  /** A prefix extended by a prefix of what follows it. */
  lemma StartsWithConcat(p: string, rest: string, q: string)
    requires StartsWith(rest, q)
    ensures StartsWith(p + rest, p + q)
  {
    assert (p + rest)[..|p + q|] == p + rest[..|q|];
  }

  /** The parts of a split never contain a single-character separator. */
  lemma {:induction false} SplitPartsFree(s: string, c: char)
    ensures forall i :: 0 <= i < |SplitOn(s, [c])| ==> c !in SplitOn(s, [c])[i]
    decreases |s|
  {
    if |s| >= 1 {
      SplitPartsFree(s[1..], c);
    }
  }

  // ---------------------------------------------------------------------------
  // str.rstrip(c) and the last element of a split.
  // ---------------------------------------------------------------------------

  /** `s.rstrip(c)` for a single character. */
  function RStrip(s: string, c: char): (r: string)
    ensures StartsWith(s, r)
    ensures |r| == 0 || r[|r| - 1] != c
    ensures forall i :: |r| <= i < |s| ==> s[i] == c
    decreases |s|
  {
    if |s| > 0 && s[|s| - 1] == c then RStrip(s[..|s| - 1], c) else s
  }

  function Last<T>(xs: seq<T>): T
    requires |xs| > 0
  {
    xs[|xs| - 1]
  }

  // ---------------------------------------------------------------------------
  // Decimal digits.
  // ---------------------------------------------------------------------------

  predicate IsDigit(c: char) {
    '0' <= c <= '9'
  }

  predicate AllDigits(s: string) {
    forall i :: 0 <= i < |s| ==> IsDigit(s[i])
  }

  function DigitChar(d: nat): char
    requires d < 10
  {
    (('0' as int) + d) as char
  }

  function DigitValue(c: char): nat
    requires IsDigit(c)
  {
    (c as int) - ('0' as int)
  }

  lemma DigitRoundTrip(d: nat)
    requires d < 10
    ensures IsDigit(DigitChar(d)) && DigitValue(DigitChar(d)) == d
  {
  }

  function Pow10(n: nat): (p: nat)
    ensures p >= 1
  {
    if n == 0 then 1 else 10 * Pow10(n - 1)
  }

  /** The value of a string of ASCII digits (Python `int(s)` on such a string). */
  function DigitsValue(s: string): nat
    requires AllDigits(s)
  {
    if |s| == 0 then 0 else DigitValue(s[0]) * Pow10(|s| - 1) + DigitsValue(s[1..])
  }

  /** `n` written with exactly `w` digits, zero-padded on the left (`%0wd`). */
  function Padded(n: nat, w: nat): (s: string)
    requires n < Pow10(w)
    ensures |s| == w && AllDigits(s)
  {
    if w == 0 then ""
    else
      var p := Pow10(w - 1);
      DivLeading(n, p);
      [DigitChar(n / p)] + Padded(n % p, w - 1)
  }

  lemma DivLeading(n: nat, p: nat)
    requires p >= 1 && n < 10 * p
    ensures n / p < 10 && n % p < p
  {
  }

  lemma {:induction false} PaddedValue(n: nat, w: nat)
    requires n < Pow10(w)
    ensures DigitsValue(Padded(n, w)) == n
    decreases w
  {
    if w > 0 {
      var p := Pow10(w - 1);
      var c, r := PaddedStep(n, w);
      var s := Padded(n, w);
      assert s[0] == c && s[1..] == Padded(r, w - 1);
      PaddedValue(r, w - 1);
      var q := n / p;
      assert DigitsValue(s) == q * p + r;
      DivMod(n, p);
    }
  }

  lemma DivMod(n: int, p: int)
    requires p > 0
    ensures n == (n / p) * p + n % p
  {
  }

  /** A string of digits is the padded rendering of its own value. */
  lemma {:induction false} PaddedDigits(s: string)
    requires AllDigits(s)
    ensures DigitsValue(s) < Pow10(|s|) && Padded(DigitsValue(s), |s|) == s
    decreases |s|
  {
    if |s| > 0 {
      var p := Pow10(|s| - 1);
      assert Pow10(|s|) == 10 * p;
      var d, r := DigitValue(s[0]), DigitsValue(s[1..]);
      PaddedDigits(s[1..]);
      MulStep(d, 10, p);
      DivUnique(d * p + r, p, d, r);
      assert DigitChar(d) == s[0];
      assert s == [s[0]] + s[1..];
    }
  }

  /** Zero-padded numbers of one width sort as strings exactly as they sort as numbers. */
  lemma {:induction false} PaddedLess(a: nat, b: nat, w: nat)
    requires a < Pow10(w) && b < Pow10(w)
    ensures Less(Padded(a, w), Padded(b, w)) <==> a < b
    decreases w
  {
    if w > 0 {
      var p := Pow10(w - 1);
      var ca, ra := PaddedStep(a, w);
      var cb, rb := PaddedStep(b, w);
      LessCons(ca, Padded(ra, w - 1), cb, Padded(rb, w - 1));
      QuotientOrder(a, b, p);
      PaddedLess(ra, rb, w - 1);
    }
  }

  /** The leading digit of a padded number and what is left after it. */
  lemma PaddedStep(n: nat, w: nat) returns (c: char, r: nat)
    requires 0 < w && n < Pow10(w)
    ensures r == n % Pow10(w - 1) && r < Pow10(w - 1)
    ensures Padded(n, w) == [c] + Padded(r, w - 1)
    ensures IsDigit(c) && DigitValue(c) == n / Pow10(w - 1)
  {
    var p := Pow10(w - 1);
    assert Pow10(w) == 10 * p;
    DivLeading(n, p);
    c, r := DigitChar(n / p), n % p;
  }

  lemma LessCons(x: char, s: string, y: char, t: string)
    ensures Less([x] + s, [y] + t) <==> x < y || (x == y && Less(s, t))
  {
    assert ([x] + s)[1..] == s && ([y] + t)[1..] == t;
  }

  /** Comparing by leading quotient, then by remainder. */
  lemma QuotientOrder(a: nat, b: nat, p: nat)
    requires p >= 1
    ensures a / p < b / p ==> a < b
    ensures a / p > b / p ==> a > b
    ensures a / p == b / p ==> (a < b <==> a % p < b % p)
  {
    var qa, ra, qb, rb := a / p, a % p, b / p, b % p;
    assert a == qa * p + ra && b == qb * p + rb;
    assert ra < p && rb < p;
    if qa < qb {
      MulStep(qa, qb, p);
    } else if qb < qa {
      MulStep(qb, qa, p);
    }
  }

  lemma MulStep(x: int, y: int, p: int)
    requires 0 <= x < y && p >= 0
    ensures x * p + p <= y * p
  {
    var d := y - x;
    calc {
      y * p;
      (x + d) * p;
      x * p + d * p;
    }
    assert d * p == p + (d - 1) * p;
    assert (d - 1) * p >= 0;
  }

  /** Euclidean division is determined by quotient and remainder. */
  lemma DivUnique(n: int, k: int, q: int, r: int)
    requires k >= 1 && 0 <= q && 0 <= r < k && n == q * k + r
    ensures n / k == q && n % k == r
  {
    var q2, r2 := n / k, n % k;
    assert n == q2 * k + r2 && 0 <= r2 < k;
    if q < q2 {
      MulStep(q, q2, k);
    } else if q2 < q {
      MulStep(q2, q, k);
    }
  }

  /** `str(n)` for a non-negative integer. */
  function Decimal(n: nat): (s: string)
    ensures |s| >= 1 && AllDigits(s)
  {
    if n < 10 then [DigitChar(n)] else Decimal(n / 10) + [DigitChar(n % 10)]
  }

  lemma {:induction false} DigitsValueSnoc(s: string, c: char)
    requires AllDigits(s) && IsDigit(c)
    ensures AllDigits(s + [c]) && DigitsValue(s + [c]) == DigitsValue(s) * 10 + DigitValue(c)
    decreases |s|
  {
    var t := s + [c];
    assert AllDigits(t) by {
      forall i | 0 <= i < |t| ensures IsDigit(t[i]) {
        if i < |s| { assert t[i] == s[i]; }
      }
    }
    if |s| > 0 {
      assert t[0] == s[0] && t[1..] == s[1..] + [c];
      DigitsValueSnoc(s[1..], c);
      var d, p, r := DigitValue(s[0]), Pow10(|s| - 1), DigitsValue(s[1..]);
      assert DigitsValue(t) == d * Pow10(|s|) + (r * 10 + DigitValue(c));
      ShiftTen(d, p, r);
    }
  }

  lemma ShiftTen(d: nat, p: nat, r: nat)
    ensures d * (10 * p) + r * 10 == (d * p + r) * 10
  {
  }

  /** Reading back `str(n)` gives `n`. */
  lemma {:induction false} DecimalValue(n: nat)
    ensures DigitsValue(Decimal(n)) == n
    decreases n
  {
    if n >= 10 {
      DecimalValue(n / 10);
      DigitsValueSnoc(Decimal(n / 10), DigitChar(n % 10));
    }
  }
}
