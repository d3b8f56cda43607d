/** String helpers shared by every tool and by the agent: Python's `str.strip`,
    `in`, slicing, `join`, decimal rendering of integers and the ordering
    `sorted` uses on strings. */
module Text {

  /** Python's `str.isspace` for one character. */
  predicate IsSpace(c: char) {
    c == ' ' || ('\t' <= c <= '\r') || ('\U{001C}' <= c <= '\U{001F}')
    || c == '\U{0085}' || c == '\U{00A0}' || c == '\U{1680}'
    || ('\U{2000}' <= c <= '\U{200A}') || c == '\U{2028}' || c == '\U{2029}'
    || c == '\U{202F}' || c == '\U{205F}' || c == '\U{3000}'
  }

  /** ASCII digits (Python's `\d` restricted to ASCII). */
  predicate IsDigit(c: char) {
    '0' <= c <= '9'
  }

  predicate AllDigits(s: string) {
    forall k :: 0 <= k < |s| ==> IsDigit(s[k])
  }

  function Min(a: int, b: int): int {
    if a <= b then a else b
  }

  /** Drops leading whitespace (Python's `lstrip()`). */
  function StripLeft(s: string): (r: string)
    ensures |r| <= |s| && r == s[|s| - |r|..]
    ensures forall k :: 0 <= k < |s| - |r| ==> IsSpace(s[k])
    ensures r == [] || !IsSpace(r[0])
  {
    if |s| > 0 && IsSpace(s[0]) then StripLeft(s[1..]) else s
  }

  /** Drops trailing whitespace (Python's `rstrip()`). */
  function StripRight(s: string): (r: string)
    ensures |r| <= |s| && r == s[..|r|]
    ensures forall k :: |r| <= k < |s| ==> IsSpace(s[k])
    ensures r == [] || !IsSpace(r[|r| - 1])
  {
    if |s| > 0 && IsSpace(s[|s| - 1]) then StripRight(s[..|s| - 1]) else s
  }

  /** Python's `str.strip()`: the input with its whitespace border removed. */
  function Strip(s: string): (r: string)
    ensures r == [] || (!IsSpace(r[0]) && !IsSpace(r[|r| - 1]))
  {
    StripRight(StripLeft(s))
  }

  /** Strip removes exactly a whitespace border: what it returns is a slice
      s[i..j] with only whitespace outside it. */
  lemma StripIsSlice(s: string) returns (i: nat, j: nat)
    ensures i <= j <= |s| && Strip(s) == s[i..j]
    ensures forall k :: 0 <= k < i ==> IsSpace(s[k])
    ensures forall k :: j <= k < |s| ==> IsSpace(s[k])
  {
    var l := StripLeft(s);
    var r := StripRight(l);
    i := |s| - |l|;
    j := i + |r|;
    assert Strip(s) == r;
    assert r == s[i..j] by {
      assert l == s[i..];
      assert r == l[..|r|];
    }
    SpaceAfterShift(s, i, |r|);
  }

  /** Whitespace from index n on in s[i..] is whitespace from i + n on in s. */
  lemma SpaceAfterShift(s: string, i: nat, n: nat)
    requires i + n <= |s|
    requires forall k :: n <= k < |s| - i ==> IsSpace(s[i..][k])
    ensures forall k :: i + n <= k < |s| ==> IsSpace(s[k])
  {
    forall k | i + n <= k < |s| ensures IsSpace(s[k]) {
      assert s[k] == s[i..][k - i];
    }
  }

  /** A text with no whitespace at either end is left alone by Strip. */
  lemma StripTrimmed(s: string)
    requires s == [] || (!IsSpace(s[0]) && !IsSpace(s[|s| - 1]))
    ensures Strip(s) == s
  {
  }

  lemma StripIdempotent(s: string)
    ensures Strip(Strip(s)) == Strip(s)
  {
    StripTrimmed(Strip(s));
  }

  /** Strip gives "" exactly when the input is all whitespace. */
  lemma StripEmptyIff(s: string)
    ensures Strip(s) == [] <==> forall k :: 0 <= k < |s| ==> IsSpace(s[k])
  {
    var i, j := StripIsSlice(s);
    if Strip(s) == [] {
      forall k | 0 <= k < |s| ensures IsSpace(s[k]) {
        assert k < i || j <= k;
      }
    }
  }

  predicate AllSpace(s: string) {
    forall k :: 0 <= k < |s| ==> IsSpace(s[k])
  }

  lemma {:induction false} StripLeftBorder(a: string, x: string)
    requires AllSpace(a) && (x == [] || !IsSpace(x[0]))
    ensures StripLeft(a + x) == x
    decreases |a|
  {
    if a != [] {
      assert (a + x)[1..] == a[1..] + x;
      StripLeftBorder(a[1..], x);
    }
  }

  lemma {:induction false} StripRightBorder(x: string, b: string)
    requires AllSpace(b) && (x == [] || !IsSpace(x[|x| - 1]))
    ensures StripRight(x + b) == x
    decreases |b|
  {
    if b != [] {
      assert (x + b)[..|x + b| - 1] == x + b[..|b| - 1];
      StripRightBorder(x, b[..|b| - 1]);
    }
  }

  /** Strip removes a whitespace border and nothing else from a text whose
      inner part neither starts nor ends with whitespace. */
  lemma StripBorder(a: string, x: string, b: string)
    requires AllSpace(a) && AllSpace(b)
    requires x != [] && !IsSpace(x[0]) && !IsSpace(x[|x| - 1])
    ensures Strip(a + (x + b)) == x
  {
    assert (x + b)[0] == x[0];
    StripLeftBorder(a, x + b);
    StripRightBorder(x, b);
  }

  /** A run of digits holds no line break. */
  lemma DigitsOneLine(s: string)
    requires AllDigits(s)
    ensures '\n' !in s
  {
    forall k | 0 <= k < |s| ensures s[k] != '\n' {
      assert IsDigit(s[k]);
    }
  }

  /** Python's `s[:n]` for n >= 0. */
  function Take<T>(s: seq<T>, n: nat): (r: seq<T>)
    ensures |r| == Min(n, |s|) && r == s[..|r|]
  {
    if n <= |s| then s[..n] else s
  }

  predicate StartsWith(s: string, p: string) {
    |p| <= |s| && s[..|p|] == p
  }

  lemma StartsWithConcat(p: string, rest: string)
    ensures StartsWith(p + rest, p) && (p + rest)[|p|..] == rest
  {
    assert (p + rest)[..|p|] == p;
  }

  predicate EndsWith(s: string, p: string) {
    |p| <= |s| && s[|s| - |p|..] == p
  }

  /** Python's `sub in s`. */
  predicate Contains(s: string, sub: string)
    decreases |s|
  {
    |sub| <= |s| && (s[..|sub|] == sub || Contains(s[1..], sub))
  }

  /** Every text contains what is spliced into it. */
  lemma {:induction false} ContainsSplice(a: string, x: string, b: string)
    ensures Contains(a + x + b, x)
    decreases |a|
  {
    if a == [] {
      assert (a + x + b)[..|x|] == x;
    } else {
      assert (a + x + b)[1..] == a[1..] + x + b;
      ContainsSplice(a[1..], x, b);
    }
  }

  lemma ContainsPrefix(x: string, rest: string)
    ensures Contains(x + rest, x)
  {
    assert (x + rest)[..|x|] == x;
  }

  /** What a suffix contains, the whole text contains. */
  lemma {:induction false} ContainsInSuffix(p: string, s: string, x: string)
    requires Contains(s, x)
    ensures Contains(p + s, x)
    decreases |p|
  {
    if p != [] {
      assert (p + s)[1..] == p[1..] + s;
      ContainsInSuffix(p[1..], s, x);
    } else {
      assert p + s == s;
    }
  }

  /** A non-empty text that is contained in s has its first character in s. */
  lemma {:induction false} ContainsFirstChar(s: string, sub: string)
    requires |sub| > 0 && Contains(s, sub)
    ensures sub[0] in s
    decreases |s|
  {
    if s[..|sub|] == sub {
      assert s[0] == sub[0];
    } else {
      ContainsFirstChar(s[1..], sub);
      assert s[1..] <= s[1..] && forall c :: c in s[1..] ==> c in s;
    }
  }

  function LowerChar(c: char): char {
    if 'A' <= c <= 'Z' then (c as int + 32) as char else c
  }

  /** `str.lower()` on ASCII letters; every other character is kept as it is. */
  function Lower(s: string): (r: string)
    ensures |r| == |s|
    ensures forall k :: 0 <= k < |s| ==> r[k] == LowerChar(s[k])
    ensures 'I' !in r
  {
    seq(|s|, k requires 0 <= k < |s| => LowerChar(s[k]))
  }

  /** No lower-cased text contains a phrase that has a capital I in it. */
  lemma LowerNeverContainsCapitalI(s: string, phrase: string)
    requires |phrase| > 0 && phrase[0] == 'I'
    ensures !Contains(Lower(s), phrase)
  {
    if Contains(Lower(s), phrase) {
      ContainsFirstChar(Lower(s), phrase);
    }
  }

  /** Python's `c * n` for one character. */
  function Repeat(c: char, n: nat): (r: string)
    ensures |r| == n && forall k :: 0 <= k < n ==> r[k] == c
  {
    if n == 0 then [] else [c] + Repeat(c, n - 1)
  }

  function DigitChar(d: nat): char
    requires d < 10
  {
    ('0' as int + d) as char
  }

  function DigitValue(c: char): nat
    requires IsDigit(c)
  {
    c as int - '0' as int
  }

  /** Decimal text of n, as `str(n)` or an f-string renders it. */
  function NatToString(n: nat): (r: string)
    ensures |r| > 0 && AllDigits(r)
    ensures r[0] == '0' ==> n == 0
  {
    if n < 10 then [DigitChar(n)] else NatToString(n / 10) + [DigitChar(n % 10)]
  }

  /** The value of a string of decimal digits. */
  function DigitsValue(s: string): nat
    requires AllDigits(s)
  {
    if s == [] then 0 else 10 * DigitsValue(s[..|s| - 1]) + DigitValue(s[|s| - 1])
  }

  /** Reading the decimal text of n gives n back. */
  lemma {:induction false} NatToStringRoundTrip(n: nat)
    ensures DigitsValue(NatToString(n)) == n
  {
    var r := NatToString(n);
    if n >= 10 {
      NatToStringRoundTrip(n / 10);
      assert r[..|r| - 1] == NatToString(n / 10);
    }
  }

  lemma NatToStringInjective(m: nat, n: nat)
    requires NatToString(m) == NatToString(n)
    ensures m == n
  {
    NatToStringRoundTrip(m);
    NatToStringRoundTrip(n);
  }

  /** Python's `sep.join(parts)`. */
  function Join(sep: string, parts: seq<string>): string {
    if |parts| == 0 then ""
    else if |parts| == 1 then parts[0]
    else parts[0] + sep + Join(sep, parts[1..])
  }

  /** Each part with p in front of it, in order. */
  function Prefixed(p: string, parts: seq<string>): (r: seq<string>)
    ensures |r| == |parts| && forall k :: 0 <= k < |r| ==> r[k] == p + parts[k]
  {
    seq(|parts|, k requires 0 <= k < |parts| => p + parts[k])
  }

  /** A prefix of the first part can be pulled out of the join. */
  lemma JoinHeadPrefix(sep: string, q: string, x: string, rest: seq<string>)
    ensures Join(sep, [q + x] + rest) == q + Join(sep, [x] + rest)
  {
    assert ([q + x] + rest)[1..] == rest == ([x] + rest)[1..];
  }

  /** Joining with a separator c followed by q is joining with c alone after
      putting q in front of every part but the first:
      `(c + q).join(parts) == c.join(parts[:1] + [q + p for p in parts[1:]])`. */
  lemma {:induction false} JoinWideSep(c: char, q: string, parts: seq<string>)
    requires |parts| > 0
    ensures Join([c] + q, parts) == Join([c], [parts[0]] + Prefixed(q, parts[1..]))
    decreases |parts|
  {
    if |parts| > 1 {
      var t := parts[1..];
      var l := [parts[0]] + Prefixed(q, t);
      JoinWideSep(c, q, t);
      JoinHeadPrefix([c], q, t[0], Prefixed(q, t[1..]));
      assert Prefixed(q, t) == [q + t[0]] + Prefixed(q, t[1..]);
      assert l[1..] == Prefixed(q, t);
      calc {
        Join([c], l);
        parts[0] + [c] + Join([c], Prefixed(q, t));
        parts[0] + [c] + (q + Join([c], [t[0]] + Prefixed(q, t[1..])));
        parts[0] + [c] + (q + Join([c] + q, t));
        parts[0] + ([c] + q) + Join([c] + q, t);
        Join([c] + q, parts);
      }
    }
  }

  /** Joining one more part adds the separator and that part at the end. */
  lemma {:induction false} JoinSnoc(sep: string, parts: seq<string>, last: string)
    requires |parts| > 0
    ensures Join(sep, parts + [last]) == Join(sep, parts) + sep + last
    decreases |parts|
  {
    if |parts| > 1 {
      assert (parts + [last])[1..] == parts[1..] + [last];
      JoinSnoc(sep, parts[1..], last);
    }
  }

  /** The joined text starts with the first part and ends with the last. */
  lemma {:induction false} JoinEnds(sep: string, parts: seq<string>)
    requires |parts| > 0
    ensures StartsWith(Join(sep, parts), parts[0])
    ensures EndsWith(Join(sep, parts), parts[|parts| - 1])
    decreases |parts|
  {
    if |parts| > 1 {
      JoinEnds(sep, parts[1..]);
      var rest := Join(sep, parts[1..]);
      assert Join(sep, parts) == parts[0] + sep + rest;
      assert Join(sep, parts)[|Join(sep, parts)| - |parts[|parts| - 1]|..]
          == rest[|rest| - |parts[|parts| - 1]|..];
    }
  }

  lemma EndsWithConcat(p: string, s: string)
    ensures EndsWith(p + s, s)
  {
    assert (p + s)[|p + s| - |s|..] == s;
  }

  lemma EndsWithTrans(a: string, b: string, c: string)
    requires EndsWith(a, b) && EndsWith(b, c)
    ensures EndsWith(a, c)
  {
    assert a[|a| - |c|..] == a[|a| - |b|..][|b| - |c|..];
  }

  /** Python's `s.split(c)` for a one-character separator: the pieces between
      the separators, at least one. */
  function SplitOn(s: string, c: char): (r: seq<string>)
    ensures |r| >= 1
  {
    if s == [] then [""]
    else
      var rest := SplitOn(s[1..], c);
      if s[0] == c then [""] + rest else [[s[0]] + rest[0]] + rest[1..]
  }

  /** A text without the separator is one piece. */
  lemma {:induction false} SplitOnNone(a: string, c: char)
    requires c !in a
    ensures SplitOn(a, c) == [a]
    decreases |a|
  {
    if a != [] {
      SplitOnNone(a[1..], c);
      assert [a[0]] + a[1..] == a;
    }
  }

  /** Splitting at a separator after a separator-free piece peels that piece off. */
  lemma {:induction false} SplitOnConcat(a: string, c: char, b: string)
    requires c !in a
    ensures SplitOn(a + [c] + b, c) == [a] + SplitOn(b, c)
    decreases |a|
  {
    if a == [] {
      assert a + [c] + b == [c] + b;
      assert ([c] + b)[1..] == b;
    } else {
      assert (a + [c] + b)[1..] == a[1..] + [c] + b;
      SplitOnConcat(a[1..], c, b);
      assert [a[0]] + a[1..] == a;
    }
  }

  /** The same, for a text built by right-nested concatenation. */
  lemma SplitOnCons(a: string, c: char, b: string)
    requires c !in a
    ensures SplitOn(a + ([c] + b), c) == [a] + SplitOn(b, c)
  {
    assert a + ([c] + b) == a + [c] + b;
    SplitOnConcat(a, c, b);
  }

  /** Splitting undoes joining, when no part holds the separator:
      `"\n".join(lines).split("\n") == lines`. */
  lemma {:induction false} SplitJoin(parts: seq<string>, c: char)
    requires |parts| > 0 && forall k :: 0 <= k < |parts| ==> c !in parts[k]
    ensures SplitOn(Join([c], parts), c) == parts
    decreases |parts|
  {
    if |parts| == 1 {
      SplitOnNone(parts[0], c);
    } else {
      SplitJoin(parts[1..], c);
      SplitOnConcat(parts[0], c, Join([c], parts[1..]));
      assert parts == [parts[0]] + parts[1..];
    }
  }

  /** Python's `<` on strings: code-point lexicographic order. */
  predicate LexLess(a: string, b: string)
    decreases |a|
  {
    if |a| == 0 then |b| > 0
    else if |b| == 0 then false
    else a[0] < b[0] || (a[0] == b[0] && LexLess(a[1..], b[1..]))
  }

  lemma {:induction false} LexLessIrreflexive(a: string)
    ensures !LexLess(a, a)
    decreases |a|
  {
    if |a| > 0 {
      LexLessIrreflexive(a[1..]);
    }
  }

  lemma {:induction false} LexLessTransitive(a: string, b: string, c: string)
    requires LexLess(a, b) && LexLess(b, c)
    ensures LexLess(a, c)
    decreases |a|
  {
    if |a| > 0 && a[0] == b[0] && b[0] == c[0] {
      LexLessTransitive(a[1..], b[1..], c[1..]);
    }
  }

  lemma {:induction false} LexLessTotal(a: string, b: string)
    requires a != b
    ensures LexLess(a, b) || LexLess(b, a)
    decreases |a|
  {
    if |a| > 0 && |b| > 0 && a[0] == b[0] {
      assert a == [a[0]] + a[1..] && b == [b[0]] + b[1..];
      LexLessTotal(a[1..], b[1..]);
    }
  }
}
