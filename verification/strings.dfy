/** The string operations of Python that the modelled code relies on:
    `in` on strings, `str.endswith`, `str.replace`, `str.split` / `str.join`
    on a single-character separator, `s[:n]` and decimal formatting of
    integers. Strings are sequences of Unicode scalar values, as Python's
    `str` is a sequence of code points. */
module Strings {

  /** `s.startswith(p)` */
  predicate IsPrefix(p: string, s: string) {
    |p| <= |s| && s[..|p|] == p
  }

  /** `s.endswith(suffix)` */
  predicate EndsWith(s: string, suffix: string) {
    |suffix| <= |s| && s[|s| - |suffix|..] == suffix
  }

  /** `sub in s` */
  predicate Contains(s: string, sub: string) {
    exists i | 0 <= i <= |s| :: IsPrefix(sub, s[i..])
  }

  /** Regrouping a concatenation. */
  lemma AppendAssoc<T>(a: seq<T>, b: seq<T>, c: seq<T>)
    ensures (a + b) + c == a + (b + c)
  {
  }

  lemma ContainsAt(s: string, sub: string, i: nat)
    requires i <= |s| && IsPrefix(sub, s[i..])
    ensures Contains(s, sub)
  {
  }

  /** A string contains every piece it is assembled from. */
  lemma {:induction false} ContainsPiece(a: string, b: string, c: string)
    ensures Contains(a + b + c, b)
  {
    var s := a + b + c;
    assert s[|a|..][..|b|] == b;
    ContainsAt(s, b, |a|);
  }

  /** Containment survives putting text around the containing string. */
  lemma {:induction false} ContainsWithin(a: string, s: string, c: string, sub: string)
    requires Contains(s, sub)
    ensures Contains(a + s + c, sub)
  {
    var i :| 0 <= i <= |s| && IsPrefix(sub, s[i..]);
    var t := a + s + c;
    assert t[|a| + i..][..|sub|] == s[i..][..|sub|];
    ContainsAt(t, sub, |a| + i);
  }

  lemma ContainsStart(a: string, b: string)
    ensures Contains(a + b, a)
  {
    assert (a + b)[0..][..|a|] == a;
  }

  lemma ContainsEnd(a: string, b: string)
    ensures Contains(a + b, b)
  {
    assert (a + b)[|a|..] == b;
    ContainsAt(a + b, b, |a|);
  }

  lemma ContainsExtend(s: string, c: string, sub: string)
    requires Contains(s, sub)
    ensures Contains(s + c, sub)
  {
    var i :| 0 <= i <= |s| && IsPrefix(sub, s[i..]);
    assert (s + c)[i..][..|sub|] == s[i..][..|sub|];
    ContainsAt(s + c, sub, i);
  }

  lemma ContainsPrepend(a: string, s: string, sub: string)
    requires Contains(s, sub)
    ensures Contains(a + s, sub)
  {
    var i :| 0 <= i <= |s| && IsPrefix(sub, s[i..]);
    assert (a + s)[|a| + i..] == s[i..];
    ContainsAt(a + s, sub, |a| + i);
  }

  /** Python's `s[:n]` for a non-negative `n`. */
  function Head(s: string, n: nat): (r: string)
    ensures |r| <= n && IsPrefix(r, s)
    ensures |s| <= n ==> r == s
    ensures |s| > n ==> |r| == n
  {
    if |s| <= n then s else s[..n]
  }

  /** `s.replace(pat, rep)`: every leftmost, non-overlapping occurrence of
      `pat` is replaced, scanning from the left. */
  function ReplaceAll(s: string, pat: string, rep: string): string
    requires |pat| > 0
    decreases |s|
  {
    if |s| < |pat| then s
    else if IsPrefix(pat, s) then rep + ReplaceAll(s[|pat|..], pat, rep)
    else [s[0]] + ReplaceAll(s[1..], pat, rep)
  }

  /** Replacing a pattern that does not occur is the identity. */
  lemma {:induction false} ReplaceAbsent(s: string, pat: string, rep: string)
    requires |pat| > 0 && !Contains(s, pat)
    ensures ReplaceAll(s, pat, rep) == s
    decreases |s|
  {
    if |s| >= |pat| {
      assert s[0..] == s;
      assert !IsPrefix(pat, s);
      assert !Contains(s[1..], pat) by {
        forall i | 0 <= i <= |s[1..]| ensures !IsPrefix(pat, s[1..][i..]) {
          assert s[1..][i..] == s[i + 1..];
        }
      }
      ReplaceAbsent(s[1..], pat, rep);
      assert [s[0]] + s[1..] == s;
    }
  }

  /** A character found neither in the text nor in the replacement is not
      found in the result either. */
  lemma {:induction false} ReplaceKeepsOut(s: string, pat: string, rep: string, c: char)
    requires |pat| > 0 && c !in s && c !in rep
    ensures c !in ReplaceAll(s, pat, rep)
    decreases |s|
  {
    if |s| >= |pat| {
      if IsPrefix(pat, s) {
        ReplaceKeepsOut(s[|pat|..], pat, rep, c);
      } else {
        ReplaceKeepsOut(s[1..], pat, rep, c);
      }
    }
  }

  /** `s.split(sep)` for a one-character separator: the pieces between
      separators, always at least one (`"".split("\n") == [""]`). */
  function Split(s: string, sep: char): (r: seq<string>)
    ensures |r| >= 1
    ensures forall i | 0 <= i < |r| :: sep !in r[i]
    decreases |s|
  {
    if s == [] then [""]
    else
      var rest := Split(s[1..], sep);
      if s[0] == sep then [""] + rest
      else [[s[0]] + rest[0]] + rest[1..]
  }

  /** `sep.join(lines)` */
  function Join(lines: seq<string>, sep: char): string
    decreases |lines|
  {
    if lines == [] then ""
    else if |lines| == 1 then lines[0]
    else lines[0] + [sep] + Join(lines[1..], sep)
  }

  lemma JoinCons(x: string, lines: seq<string>, sep: char)
    requires lines != []
    ensures Join([x] + lines, sep) == x + [sep] + Join(lines, sep)
  {
    assert ([x] + lines)[1..] == lines;
  }

  /** Prepending to the first line prepends to the joined text. */
  lemma JoinPrepend(c: char, lines: seq<string>, sep: char)
    requires lines != []
    ensures Join([[c] + lines[0]] + lines[1..], sep) == [c] + Join(lines, sep)
  {
    var ls := [[c] + lines[0]] + lines[1..];
    if |lines| > 1 {
      assert ls[1..] == lines[1..];
    }
  }

  /** Joining the pieces of a split gives the text back. */
  lemma {:induction false} JoinSplit(s: string, sep: char)
    ensures Join(Split(s, sep), sep) == s
    decreases |s|
  {
    if s != [] {
      var rest := Split(s[1..], sep);
      JoinSplit(s[1..], sep);
      if s[0] == sep {
        JoinCons("", rest, sep);
      } else {
        JoinPrepend(s[0], rest, sep);
      }
      assert [s[0]] + s[1..] == s;
    }
  }

  /** Splitting a text with no separator in it gives that text alone. */
  lemma {:induction false} SplitNoSeparator(s: string, sep: char)
    requires sep !in s
    ensures Split(s, sep) == [s]
    decreases |s|
  {
    if s != [] {
      SplitNoSeparator(s[1..], sep);
      assert [s[0]] + s[1..] == s;
    }
  }

  lemma {:induction false} SplitAfterLine(a: string, b: string, sep: char)
    requires sep !in a
    ensures Split(a + [sep] + b, sep) == [a] + Split(b, sep)
    decreases |a|
  {
    var s := a + [sep] + b;
    if a == [] {
      assert s[1..] == b;
    } else {
      assert s[1..] == a[1..] + [sep] + b;
      SplitAfterLine(a[1..], b, sep);
      assert [a[0]] + a[1..] == a;
    }
  }

  /** Splitting the join of separator-free lines gives the lines back. */
  lemma {:induction false} SplitJoin(lines: seq<string>, sep: char)
    requires lines != []
    requires forall i | 0 <= i < |lines| :: sep !in lines[i]
    ensures Split(Join(lines, sep), sep) == lines
    decreases |lines|
  {
    if |lines| == 1 {
      SplitNoSeparator(lines[0], sep);
    } else {
      SplitJoin(lines[1..], sep);
      SplitAfterLine(lines[0], Join(lines[1..], sep), sep);
      assert [lines[0]] + lines[1..] == lines;
    }
  }

  function DigitChar(d: nat): char
    requires d < 10
  {
    "0123456789"[d]
  }

  function DigitValue(c: char): nat
  {
    if '0' <= c <= '9' then (c as int - '0' as int) as nat else 0
  }

  predicate IsDigit(c: char) {
    '0' <= c <= '9'
  }

  lemma DigitRoundTrip(d: nat)
    requires d < 10
    ensures IsDigit(DigitChar(d)) && DigitValue(DigitChar(d)) == d
  {
  }

  /** `str(n)` for a non-negative integer: decimal, no leading zeros. */
  function NatToString(n: nat): (r: string)
    ensures |r| >= 1
    ensures forall i | 0 <= i < |r| :: IsDigit(r[i])
  {
    DigitRoundTrip(n % 10);
    if n < 10 then [DigitChar(n)] else NatToString(n / 10) + [DigitChar(n % 10)]
  }

  /** `int(s)` for a string of decimal digits. */
  function ParseNat(s: string): nat
  {
    if s == [] then 0 else ParseNat(s[..|s| - 1]) * 10 + DigitValue(s[|s| - 1])
  }

  lemma {:induction false} ParseNatToString(n: nat)
    ensures ParseNat(NatToString(n)) == n
  {
    DigitRoundTrip(n % 10);
    if n >= 10 {
      var s := NatToString(n);
      assert s[..|s| - 1] == NatToString(n / 10);
      ParseNatToString(n / 10);
    }
  }

  /** Different numbers print differently. */
  lemma NatToStringInjective(n: nat, m: nat)
    requires NatToString(n) == NatToString(m)
    ensures n == m
  {
    ParseNatToString(n);
    ParseNatToString(m);
  }
}
