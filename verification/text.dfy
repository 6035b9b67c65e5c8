/** The string operations of Python's `str` that the search client uses:
    substring and suffix tests, `replace`, `split`, and `str(n)` for page
    numbers. Strings are sequences of characters. */
module Text {

  /** `sub` occurs in `s` at index `i`. */
  predicate OccursAt(s: string, sub: string, i: nat)
  {
    i + |sub| <= |s| && s[i..i + |sub|] == sub
  }

  /** Python's `sub in s`: `sub` occurs anywhere in `s`, not only at the start. */
  predicate Contains(s: string, sub: string)
  {
    exists i :: 0 <= i <= |s| && OccursAt(s, sub, i)
  }

  /** Python's `s.startswith(pre)`. */
  predicate StartsWith(s: string, pre: string)
  {
    |pre| <= |s| && s[..|pre|] == pre
  }

  /** Python's `s.endswith(suf)`. */
  predicate EndsWith(s: string, suf: string)
  {
    |suf| <= |s| && s[|s| - |suf|..] == suf
  }

  /** Python's `s.replace(pat, rep)` for a non-empty pattern: scan left to
      right, replacing each non-overlapping occurrence of `pat`. */
  function ReplaceAll(s: string, pat: string, rep: string): string
    requires |pat| > 0
    decreases |s|
  {
    if |s| < |pat| then s
    else if s[..|pat|] == pat then rep + ReplaceAll(s[|pat|..], pat, rep)
    else [s[0]] + ReplaceAll(s[1..], pat, rep)
  }

  /** A string that lacks the last character of `pat` holds no occurrence of
      it, so `replace` leaves it as it is. */
  lemma {:induction false} ReplaceAllNoMatch(s: string, pat: string, rep: string)
    requires |pat| > 0
    requires pat[|pat| - 1] !in s
    ensures ReplaceAll(s, pat, rep) == s
    decreases |s|
  {
    if |s| >= |pat| {
      assert s[|pat| - 1] == s[..|pat|][|pat| - 1];
      assert s[..|pat|] != pat;
      assert forall c :: c in s[1..] ==> c in s;
      ReplaceAllNoMatch(s[1..], pat, rep);
    }
  }

  /** Text appended after `a` that lacks the last character of `pat` passes
      through `replace` untouched: no occurrence can end inside it. */
  lemma {:induction false} ReplaceAllKeepsTail(a: string, b: string, pat: string, rep: string)
    requires |pat| > 0
    requires pat[|pat| - 1] !in b
    ensures ReplaceAll(a + b, pat, rep) == ReplaceAll(a, pat, rep) + b
    decreases |a|, 1
  {
    var n := |pat|;
    var ab := a + b;
    if a == [] {
      assert ab == b;
      ReplaceAllNoMatch(b, pat, rep);
    } else if |ab| < n {
      assert ReplaceAll(a, pat, rep) == a;
    } else if ab[..n] == pat {
      MatchInsideHead(a, b, pat);
      KeepsTailAfterMatch(a, b, pat, rep);
    } else {
      KeepsTailAfterChar(a, b, pat, rep);
    }
  }

  /** The step of `ReplaceAllKeepsTail` where `a + b` starts with `pat`. */
  lemma {:induction false} KeepsTailAfterMatch(a: string, b: string, pat: string, rep: string)
    requires |pat| > 0
    requires pat[|pat| - 1] !in b
    requires |a| >= |pat| && a[..|pat|] == pat
    ensures ReplaceAll(a + b, pat, rep) == ReplaceAll(a, pat, rep) + b
    decreases |a|, 0
  {
    var n := |pat|;
    var ab := a + b;
    assert ab[..n] == pat;
    assert ab[n..] == a[n..] + b;
    ReplaceAllKeepsTail(a[n..], b, pat, rep);
    assert ReplaceAll(ab, pat, rep) == rep + ReplaceAll(ab[n..], pat, rep);
    assert ReplaceAll(a, pat, rep) == rep + ReplaceAll(a[n..], pat, rep);
  }

  /** The step of `ReplaceAllKeepsTail` where `a + b` does not start with
      `pat`. */
  lemma {:induction false} KeepsTailAfterChar(a: string, b: string, pat: string, rep: string)
    requires |pat| > 0
    requires pat[|pat| - 1] !in b
    requires |a| > 0 && |a + b| >= |pat| && (a + b)[..|pat|] != pat
    ensures ReplaceAll(a + b, pat, rep) == ReplaceAll(a, pat, rep) + b
    decreases |a|, 0
  {
    var n := |pat|;
    var ab := a + b;
    assert ab[1..] == a[1..] + b;
    ReplaceAllKeepsTail(a[1..], b, pat, rep);
    assert ReplaceAll(ab, pat, rep) == [a[0]] + ReplaceAll(a[1..] + b, pat, rep);
    if |a| >= n {
      assert a[..n] == ab[..n];
      assert ReplaceAll(a, pat, rep) == [a[0]] + ReplaceAll(a[1..], pat, rep);
    } else {
      assert ReplaceAll(a[1..], pat, rep) == a[1..];
      assert ReplaceAll(a, pat, rep) == a == [a[0]] + a[1..];
    }
  }

  /** An occurrence of `pat` at the start of `a + b` lies within `a` when `b`
      lacks the last character of `pat`. */
  lemma MatchInsideHead(a: string, b: string, pat: string)
    requires |pat| > 0 && pat[|pat| - 1] !in b
    requires |a + b| >= |pat| && (a + b)[..|pat|] == pat
    ensures |a| >= |pat|
  {
  }

  /** The character for a decimal digit. */
  function DigitChar(d: nat): char
    requires d < 10
  {
    (d + '0' as int) as char
  }

  predicate IsDigit(c: char)
  {
    '0' <= c <= '9'
  }

  predicate AllDigits(s: string)
  {
    forall i :: 0 <= i < |s| ==> IsDigit(s[i])
  }

  /** Python's `str(n)` for a natural number: its decimal digits, most
      significant first, without leading zeros. */
  function Decimal(n: nat): (s: string)
    ensures |s| > 0 && AllDigits(s)
    decreases n
  {
    if n < 10 then [DigitChar(n)] else Decimal(n / 10) + [DigitChar(n % 10)]
  }

  /** Python's `int(s)` for a string of decimal digits. */
  function DecimalValue(s: string): nat
    requires AllDigits(s)
    decreases |s|
  {
    if s == [] then 0
    else 10 * DecimalValue(s[..|s| - 1]) + (s[|s| - 1] as int - '0' as int)
  }

  /** `int(str(n)) == n`: the decimal rendering loses nothing. */
  lemma {:induction false} DecimalRoundTrip(n: nat)
    ensures DecimalValue(Decimal(n)) == n
    decreases n
  {
    if n >= 10 {
      DecimalRoundTrip(n / 10);
      var s := Decimal(n);
      assert s[..|s| - 1] == Decimal(n / 10);
    }
  }

  /** Distinct numbers render as distinct strings. */
  lemma DecimalInjective(m: nat, n: nat)
    ensures Decimal(m) == Decimal(n) ==> m == n
  {
    DecimalRoundTrip(m);
    DecimalRoundTrip(n);
  }

  /** Python's `sep.join(parts)` for a one-character separator. */
  function Join(parts: seq<string>, sep: char): string
    requires |parts| > 0
    decreases |parts|
  {
    if |parts| == 1 then parts[0]
    else Join(parts[..|parts| - 1], sep) + [sep] + parts[|parts| - 1]
  }

  /** Python's `s.split(sep)` for a one-character separator: always at least
      one part, no part holds `sep`, and joining the parts back gives `s`. */
  function Split(s: string, sep: char): (parts: seq<string>)
    ensures |parts| > 0
    ensures forall i :: 0 <= i < |parts| ==> sep !in parts[i]
    ensures Join(parts, sep) == s
    decreases |s|
  {
    if s == [] then [[]]
    else
      var init := Split(s[..|s| - 1], sep);
      var c := s[|s| - 1];
      assert s == s[..|s| - 1] + [c];
      if c == sep then
        assert (init + [[]])[..|init|] == init;
        init + [[]]
      else
        var parts := init[..|init| - 1] + [init[|init| - 1] + [c]];
        assert parts[..|parts| - 1] == init[..|init| - 1];
        assert |init| > 1 ==> Join(init, sep) == Join(init[..|init| - 1], sep) + [sep] + init[|init| - 1];
        parts
  }

  /** The last part of a split, `s.split(sep)[-1]`. */
  function LastPart(s: string, sep: char): string
  {
    var parts := Split(s, sep);
    parts[|parts| - 1]
  }

  /** `s.split(sep)[-1]` is the text after the last `sep`: it holds no `sep`,
      ends `s`, and is either all of `s` or preceded by a `sep`. */
  lemma LastPartIsFinalSegment(s: string, sep: char)
    ensures sep !in LastPart(s, sep)
    ensures EndsWith(s, LastPart(s, sep))
    ensures |LastPart(s, sep)| < |s| ==> s[|s| - |LastPart(s, sep)| - 1] == sep
    ensures |LastPart(s, sep)| == |s| ==> sep !in s
  {
    var parts := Split(s, sep);
    var last := parts[|parts| - 1];
    if |parts| > 1 {
      var front := Join(parts[..|parts| - 1], sep);
      assert s == front + [sep] + last;
      assert s[|s| - |last|..] == last;
    }
  }
}
