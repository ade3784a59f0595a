/** The Python `str` operations the backend relies on, with Python's semantics:
    `split` with an explicit one-character separator, `join`, `strip` with and
    without a character set, `rstrip`, `lower`, `startswith`, `endswith`, `in`,
    `replace`, `str(n)` for natural numbers and `int(s)` for decimal text. */
module Strings {
  import opened Wrappers

  /** The characters `str.isspace()` accepts, which `str.strip()` removes. */
  const Whitespace: set<char> := {
    '\t', '\n', '\U{B}', '\U{C}', '\r', '\U{1C}', '\U{1D}', '\U{1E}', '\U{1F}', ' ',
    '\U{85}', '\U{A0}', '\U{1680}', '\U{2000}', '\U{2001}', '\U{2002}', '\U{2003}',
    '\U{2004}', '\U{2005}', '\U{2006}', '\U{2007}', '\U{2008}', '\U{2009}', '\U{200A}',
    '\U{2028}', '\U{2029}', '\U{202F}', '\U{205F}', '\U{3000}'
  }

  function Repeat(c: char, n: nat): (r: string)
    ensures |r| == n
    ensures forall i :: 0 <= i < n ==> r[i] == c
  {
    if n == 0 then "" else [c] + Repeat(c, n - 1)
  }

  predicate StartsWith(s: string, prefix: string) {
    |prefix| <= |s| && s[..|prefix|] == prefix
  }

  predicate EndsWith(s: string, suffix: string) {
    |suffix| <= |s| && s[|s| - |suffix|..] == suffix
  }

  /** Python `sub in s`. */
  predicate Contains(s: string, sub: string)
    decreases |s|
  {
    StartsWith(s, sub) || (|s| > 0 && Contains(s[1..], sub))
  }

  lemma {:induction false} ContainsAt(s: string, sub: string, k: nat)
    requires k <= |s| && StartsWith(s[k..], sub)
    ensures Contains(s, sub)
  {
    if k > 0 {
      assert s[1..][k - 1..] == s[k..];
      ContainsAt(s[1..], sub, k - 1);
    }
  }

  lemma {:induction false} ContainsInfix(a: string, sub: string, b: string)
    ensures Contains(a + sub + b, sub)
  {
    var s := a + sub + b;
    assert s[|a|..][..|sub|] == sub;
    ContainsAt(s, sub, |a|);
  }

  /** A text in which the first character of `sub` never occurs does not contain `sub`. */
  lemma {:induction false} NotContainsWithoutFirstChar(s: string, sub: string)
    requires |sub| > 0 && sub[0] !in s
    ensures !Contains(s, sub)
  {
    if |s| > 0 {
      NotContainsWithoutFirstChar(s[1..], sub);
    }
  }

  /** A text lacking some character of `sub` does not contain `sub`. */
  lemma {:induction false} NotContainsWithoutChar(s: string, sub: string, c: char)
    requires c in sub && c !in s
    ensures !Contains(s, sub)
  {
    if |s| > 0 {
      NotContainsWithoutChar(s[1..], sub, c);
    }
  }

  /** An occurrence in `b` is an occurrence in `a + b`. */
  lemma {:induction false} ContainsAppendLeft(a: string, b: string, sub: string)
    requires Contains(b, sub)
    ensures Contains(a + b, sub)
    decreases |a|
  {
    if |a| > 0 {
      assert (a + b)[1..] == a[1..] + b;
      ContainsAppendLeft(a[1..], b, sub);
    } else {
      assert a + b == b;
    }
  }

  /** No occurrence of `sub` can start inside `a` when the second character of `sub` is not in
      `a` and the last character of `a` is not its first, so `a + b` contains `sub` only when `b`
      does. */
  lemma {:induction false} NotContainsAcross(a: string, b: string, sub: string)
    requires |sub| >= 2 && sub[1] !in a && (|a| > 0 ==> a[|a| - 1] != sub[0])
    requires !Contains(b, sub)
    ensures !Contains(a + b, sub)
    decreases |a|
  {
    if |a| > 0 {
      var s := a + b;
      assert s[1..] == a[1..] + b;
      if |a| >= 2 {
        assert s[1] == a[1];
      } else {
        assert s[0] == a[|a| - 1];
      }
      if |sub| <= |s| {
        assert s[..|sub|][0] == s[0] && s[..|sub|][1] == s[1];
      }
      NotContainsAcross(a[1..], b, sub);
    } else {
      assert a + b == b;
    }
  }

  function LowerChar(c: char): char {
    if 'A' <= c <= 'Z' then (c as int + 32) as char else c
  }

  /** `str.lower()` on ASCII letters; every other character is kept. */
  function Lower(s: string): (r: string)
    ensures |r| == |s|
    ensures forall i :: 0 <= i < |s| ==> r[i] == LowerChar(s[i])
  {
    seq(|s|, i requires 0 <= i < |s| => LowerChar(s[i]))
  }

  lemma LowerAppend(a: string, b: string)
    ensures Lower(a + b) == Lower(a) + Lower(b)
  {
    assert forall i :: 0 <= i < |a + b| ==> Lower(a + b)[i] == (Lower(a) + Lower(b))[i];
  }

  /** `s.lstrip(cs)`. */
  function TrimLeft(s: string, cs: set<char>): (r: string)
    ensures |r| <= |s| && r == s[|s| - |r|..]
    ensures |r| == 0 || r[0] !in cs
    ensures forall i :: 0 <= i < |s| - |r| ==> s[i] in cs
    decreases |s|
  {
    if |s| > 0 && s[0] in cs then TrimLeft(s[1..], cs) else s
  }

  /** `s.rstrip(cs)`. */
  function TrimRight(s: string, cs: set<char>): (r: string)
    ensures |r| <= |s| && r == s[..|r|]
    ensures |r| == 0 || r[|r| - 1] !in cs
    ensures forall i :: |r| <= i < |s| ==> s[i] in cs
    decreases |s|
  {
    if |s| > 0 && s[|s| - 1] in cs then TrimRight(s[..|s| - 1], cs) else s
  }

  /** `s.strip(cs)`: both ends. */
  function StripChars(s: string, cs: set<char>): string {
    TrimRight(TrimLeft(s, cs), cs)
  }

  /** `s.strip()`. */
  function Strip(s: string): string {
    StripChars(s, Whitespace)
  }

  /** A text whose ends are outside `cs` is its own strip. */
  lemma StripCharsOfTrimmed(s: string, cs: set<char>)
    requires |s| > 0 && s[0] !in cs && s[|s| - 1] !in cs
    ensures StripChars(s, cs) == s
  {
  }

  /** Stripping `s + [c]` with `c` in the set drops exactly `c` when `s`'s ends are outside it. */
  lemma {:induction false} StripCharsDropsTrailing(s: string, c: char, cs: set<char>)
    requires |s| > 0 && s[0] !in cs && s[|s| - 1] !in cs && c in cs
    ensures StripChars(s + [c], cs) == s
  {
    var t := s + [c];
    assert TrimLeft(t, cs) == t;
    assert t[..|t| - 1] == s;
    assert TrimRight(t, cs) == TrimRight(s, cs) == s;
  }

  /** Right-stripping a run of characters from the set stops where the text before it ends. */
  lemma {:induction false} TrimRightRepeat(s: string, c: char, n: nat, cs: set<char>)
    requires c in cs && (|s| == 0 || s[|s| - 1] !in cs)
    ensures TrimRight(s + Repeat(c, n), cs) == s
    decreases n
  {
    if n > 0 {
      var t := s + Repeat(c, n);
      assert t[|t| - 1] == c;
      assert t[..|t| - 1] == s + Repeat(c, n - 1) by {
        assert Repeat(c, n) == Repeat(c, n - 1) + [c] by {
          assert forall i :: 0 <= i < n ==> Repeat(c, n)[i] == (Repeat(c, n - 1) + [c])[i];
        }
      }
      TrimRightRepeat(s, c, n - 1, cs);
    } else {
      assert s + Repeat(c, 0) == s;
    }
  }

  /** Left-stripping `s + [c]`, with `c` in the set, keeps `c` unless all of `s` goes. */
  lemma {:induction false} TrimLeftAppend(s: string, c: char, cs: set<char>)
    requires c in cs
    ensures TrimLeft(s + [c], cs) == if TrimLeft(s, cs) == "" then "" else TrimLeft(s, cs) + [c]
    decreases |s|
  {
    if |s| > 0 {
      assert (s + [c])[1..] == s[1..] + [c];
      if s[0] in cs {
        TrimLeftAppend(s[1..], c, cs);
      }
    } else {
      assert [c][1..] == [];
    }
  }

  /** A trailing character of the set does not change a strip. */
  lemma {:induction false} StripCharsAppend(s: string, c: char, cs: set<char>)
    requires c in cs
    ensures StripChars(s + [c], cs) == StripChars(s, cs)
  {
    TrimLeftAppend(s, c, cs);
    var left := TrimLeft(s, cs);
    if left != "" {
      assert (left + [c])[..|left|] == left;
    }
  }

  /** A text of which every character lies in `cs` strips to the empty text. */
  lemma {:induction false} StripCharsAllIn(s: string, cs: set<char>)
    requires forall i :: 0 <= i < |s| ==> s[i] in cs
    ensures StripChars(s, cs) == ""
  {
  }

  /** Number of occurrences of `c` in `s`. */
  function CountChar(s: string, c: char): nat
    decreases |s|
  {
    if |s| == 0 then 0 else (if s[0] == c then 1 else 0) + CountChar(s[1..], c)
  }

  /** `s.split(sep)` with a one-character separator: adjacent separators give empty parts. */
  function Split(s: string, sep: char): (parts: seq<string>)
    ensures |parts| >= 1
    ensures forall i :: 0 <= i < |parts| ==> sep !in parts[i]
    decreases |s|
  {
    if |s| == 0 then [""]
    else
      var rest := Split(s[1..], sep);
      if s[0] == sep then [""] + rest
      else [[s[0]] + rest[0]] + rest[1..]
  }

  /** `sep.join(parts)`. */
  function Join(parts: seq<string>, sep: string): string
    decreases |parts|
  {
    if |parts| == 0 then ""
    else if |parts| == 1 then parts[0]
    else parts[0] + sep + Join(parts[1..], sep)
  }

  /** There is one more part than there are separators. */
  lemma {:induction false} SplitCount(s: string, sep: char)
    ensures |Split(s, sep)| == CountChar(s, sep) + 1
    decreases |s|
  {
    if |s| > 0 {
      SplitCount(s[1..], sep);
    }
  }

  lemma {:induction false} CountCharZero(s: string, c: char)
    ensures CountChar(s, c) == 0 <==> c !in s
    decreases |s|
  {
    if |s| > 0 {
      CountCharZero(s[1..], c);
      assert s == [s[0]] + s[1..];
    }
  }

  /** Joining the parts with the separator gives back the text. */
  lemma {:induction false} JoinSplit(s: string, sep: char)
    ensures Join(Split(s, sep), [sep]) == s
    decreases |s|
  {
    if |s| > 0 {
      var rest := Split(s[1..], sep);
      JoinSplit(s[1..], sep);
      if s[0] == sep {
        assert Split(s, sep)[1..] == rest;
      } else {
        var parts := Split(s, sep);
        assert parts[1..] == rest[1..];
        if |rest| > 1 {
          assert Join(rest, [sep]) == rest[0] + [sep] + Join(rest[1..], [sep]);
          assert Join(parts, [sep]) == ([s[0]] + rest[0]) + [sep] + Join(rest[1..], [sep]);
        }
        assert s == [s[0]] + s[1..];
      }
    }
  }

  /** A text without the separator is a single part. */
  lemma SplitWithoutSep(s: string, sep: char)
    requires sep !in s
    ensures Split(s, sep) == [s]
  {
    SplitCount(s, sep);
    CountCharZero(s, sep);
    JoinSplit(s, sep);
  }

  /** `s.replace(pat, rep)`: non-overlapping occurrences, scanned from the left. */
  function ReplaceAll(s: string, pat: string, rep: string): string
    requires |pat| > 0
    decreases |s|
  {
    if |s| < |pat| then s
    else if s[..|pat|] == pat then rep + ReplaceAll(s[|pat|..], pat, rep)
    else [s[0]] + ReplaceAll(s[1..], pat, rep)
  }

  /** A text without the pattern is left as it is. */
  lemma {:induction false} ReplaceAllAbsent(s: string, pat: string, rep: string)
    requires |pat| > 0 && !Contains(s, pat)
    ensures ReplaceAll(s, pat, rep) == s
    decreases |s|
  {
    if |s| >= |pat| {
      ReplaceAllAbsent(s[1..], pat, rep);
      assert s == [s[0]] + s[1..];
    }
  }

  /** The first occurrence is replaced and the scan resumes after it, provided no occurrence can
      start before it (no character before it is the pattern's first character). */
  lemma {:induction false} ReplaceAllAtFirst(a: string, pat: string, b: string, rep: string)
    requires |pat| > 0 && pat[0] !in a
    ensures ReplaceAll(a + pat + b, pat, rep) == a + rep + ReplaceAll(b, pat, rep)
    decreases |a|
  {
    if |a| == 0 {
      assert a + pat + b == pat + b;
      ReplaceAllAtPattern(pat, b, rep);
    } else {
      var t := a[1..] + pat + b;
      assert a + pat + b == [a[0]] + t;
      ReplaceAllSkip(a[0], t, pat, rep);
      ReplaceAllAtFirst(a[1..], pat, b, rep);
      ConsConcat(a, rep, ReplaceAll(b, pat, rep));
    }
  }

  /** Putting the first character back in front of the rest of `a`. */
  lemma ConsConcat(a: string, y: string, z: string)
    requires |a| > 0
    ensures [a[0]] + (a[1..] + y + z) == a + y + z
  {
    assert a == [a[0]] + a[1..];
  }

  /** An occurrence at the front is replaced, and the scan goes on after it. */
  lemma ReplaceAllAtPattern(pat: string, b: string, rep: string)
    requires |pat| > 0
    ensures ReplaceAll(pat + b, pat, rep) == rep + ReplaceAll(b, pat, rep)
  {
    var s := pat + b;
    assert s[..|pat|] == pat && s[|pat|..] == b;
  }

  /** A character that cannot start the pattern is kept, and the scan goes on after it. */
  lemma ReplaceAllSkip(c: char, t: string, pat: string, rep: string)
    requires |pat| > 0 && c != pat[0]
    ensures ReplaceAll([c] + t, pat, rep) == [c] + ReplaceAll(t, pat, rep)
  {
    var s := [c] + t;
    assert s[1..] == t;
    if |s| >= |pat| {
      assert s[..|pat|][0] == c;
    }
  }

  predicate IsDigits(s: string) {
    forall i :: 0 <= i < |s| ==> '0' <= s[i] <= '9'
  }

  /** No digit is white space, so stripping never eats into a number. */
  lemma DigitNotWhitespace(c: char)
    requires '0' <= c <= '9'
    ensures c !in Whitespace
  {
  }

  function DigitChar(d: nat): char
    requires d < 10
  {
    ('0' as int + d) as char
  }

  /** `str(n)` for a natural number: decimal digits without leading zeros. */
  function NatToString(n: nat): (r: string)
    ensures |r| > 0 && IsDigits(r)
    ensures |r| > 1 ==> r[0] != '0'
    decreases n
  {
    if n < 10 then [DigitChar(n)] else NatToString(n / 10) + [DigitChar(n % 10)]
  }

  function Pow10(k: nat): nat {
    if k == 0 then 1 else 10 * Pow10(k - 1)
  }

  /** A number below `10^k` has at most `k` digits. */
  lemma {:induction false} NatToStringLength(n: nat, k: nat)
    requires k >= 1 && n < Pow10(k)
    ensures |NatToString(n)| <= k
    decreases n
  {
    if n >= 10 {
      NatToStringLength(n / 10, k - 1);
    }
  }

  /** The number a non-empty run of decimal digits denotes. */
  function DigitsValue(s: string): nat
    requires IsDigits(s)
    decreases |s|
  {
    if |s| == 0 then 0 else DigitsValue(s[..|s| - 1]) * 10 + (s[|s| - 1] as int - '0' as int)
  }

  lemma {:induction false} DigitsValueOfNatToString(n: nat)
    ensures DigitsValue(NatToString(n)) == n
    decreases n
  {
    if n >= 10 {
      var s := NatToString(n);
      assert s[..|s| - 1] == NatToString(n / 10);
      DigitsValueOfNatToString(n / 10);
    }
  }

  /** `str(n)` is one-to-one. */
  lemma NatToStringInjective(m: nat, n: nat)
    requires NatToString(m) == NatToString(n)
    ensures m == n
  {
    DigitsValueOfNatToString(m);
    DigitsValueOfNatToString(n);
  }

  /** `int(s)` on decimal text: surrounding whitespace, an optional sign, then ASCII digits.
      `None` stands for the `ValueError` Python raises on anything else. */
  function ParseInt(s: string): (r: Option<int>)
    ensures r.Some? ==> |Strip(s)| > 0
  {
    var t := Strip(s);
    if |t| > 1 && (t[0] == '+' || t[0] == '-') && IsDigits(t[1..]) then
      var v: int := DigitsValue(t[1..]);
      Some(if t[0] == '-' then -v else v)
    else if |t| > 0 && IsDigits(t) then Some(DigitsValue(t))
    else None
  }

  /** `int(str(n)) == n`. */
  lemma ParseIntOfNatToString(n: nat)
    ensures ParseInt(NatToString(n)) == Some(n)
  {
    ParseIntOfDigits(NatToString(n));
    DigitsValueOfNatToString(n);
  }

  /** A non-empty run of digits parses to its value. */
  lemma ParseIntOfDigits(s: string)
    requires |s| > 0 && IsDigits(s)
    ensures ParseInt(s) == Some(DigitsValue(s))
  {
    DigitNotWhitespace(s[0]);
    DigitNotWhitespace(s[|s| - 1]);
    StripCharsOfTrimmed(s, Whitespace);
    assert Strip(s) == s;
    assert s[0] != '+' && s[0] != '-';
  }
}
