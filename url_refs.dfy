/** Hand-written recognisers for the four GitHub URL regexes the tools use.
    Each one is `re.match`: anchored at the start of the (already stripped)
    text, not at its end.

      RepoRef     https?://github\.com/([^/]+)/([^/]+)(?:/|$)
      PrRef       https?://github\.com/([^/]+)/([^/]+)/(?:pull|pulls)/(\d+)
      IssueLoose  https?://github\.com/([^/]+)/([^/]+)(?:/issues/|#)(\d+)
      IssueStrict https?://github\.com/([^/]+)/([^/#]+)(?:/issues/|#)(\d+)

    A greedy `[^/]+` followed by a `/` or by the end can only end where the
    run of non-slash characters ends, so only IssueLoose needs backtracking:
    there the repository group may end at any `#` inside that run.

    Each recogniser comes with the text it accepts, built from its groups
    (RepoText, PrText, IssueText), a completeness lemma (that text is
    recognised, with those groups) and a soundness lemma (whatever is
    recognised is such a text). */
module UrlRefs {
  import opened Text
  import opened Wrappers

  predicate NotSlash(c: char) { c != '/' }

  predicate NotSlashOrHash(c: char) { c != '/' && c != '#' }

  /** Length of the longest prefix of s whose characters all satisfy p. */
  function Span(s: string, p: char -> bool): (n: nat)
    ensures n <= |s| && (forall k :: 0 <= k < n ==> p(s[k]))
    ensures n == |s| || !p(s[n])
  {
    if |s| > 0 && p(s[0]) then 1 + Span(s[1..], p) else 0
  }

  /** What `[^/]+` can match as a whole group. */
  predicate Segment(s: string) {
    |s| > 0 && forall k :: 0 <= k < |s| ==> s[k] != '/'
  }

  /** What `[^/#]+` can match as a whole group. */
  predicate HashFreeSegment(s: string) {
    Segment(s) && forall k :: 0 <= k < |s| ==> s[k] != '#'
  }

  /** What `\d+` can match as a whole group. */
  predicate Number(s: string) {
    |s| > 0 && AllDigits(s)
  }

  /** Greedy `\d+` has taken every digit: nothing after it is a digit. */
  predicate NoDigitNext(rest: string) {
    rest == [] || !IsDigit(rest[0])
  }

  lemma SpanExact(s: string, p: char -> bool, n: nat)
    requires n <= |s| && (forall k :: 0 <= k < n ==> p(s[k]))
    requires n == |s| || !p(s[n])
    ensures Span(s, p) == n
  {
  }

  // ---------------------------------------------------------------------------
  // `https?://github\.com/`

  function Scheme(secure: bool): string {
    if secure then "https://github.com/" else "http://github.com/"
  }

  /** The text after the host prefix, if the text starts with one. */
  function AfterHost(t: string): Option<string> {
    if StartsWith(t, Scheme(true)) then Some(t[|Scheme(true)|..])
    else if StartsWith(t, Scheme(false)) then Some(t[|Scheme(false)|..])
    else None
  }

  lemma AfterHostRoundTrip(secure: bool, u: string)
    ensures AfterHost(Scheme(secure) + u) == Some(u)
  {
    var t := Scheme(secure) + u;
    assert t[..|Scheme(secure)|] == Scheme(secure);
    if !secure {
      assert t[4] == ':';
    }
  }

  lemma AfterHostSound(t: string) returns (secure: bool)
    requires AfterHost(t).Some?
    ensures t == Scheme(secure) + AfterHost(t).value
  {
    secure := StartsWith(t, Scheme(true));
    assert t == t[..|Scheme(secure)|] + t[|Scheme(secure)|..];
  }

  // ---------------------------------------------------------------------------
  // `([^/]+)/` : a group of non-slash characters and the slash after it

  function OwnerSplit(u: string): Option<(string, string)> {
    var n := Span(u, NotSlash);
    if n == 0 || n == |u| then None else Some((u[..n], u[n + 1..]))
  }

  lemma OwnerSplitRoundTrip(o: string, v: string)
    requires Segment(o)
    ensures OwnerSplit(o + ("/" + v)) == Some((o, v))
  {
    var u := o + ("/" + v);
    SpanExact(u, NotSlash, |o|);
    assert u[..|o|] == o && u[|o| + 1..] == v;
  }

  lemma OwnerSplitSound(u: string)
    requires OwnerSplit(u).Some?
    ensures Segment(OwnerSplit(u).value.0)
    ensures u == OwnerSplit(u).value.0 + ("/" + OwnerSplit(u).value.1)
  {
    var n := Span(u, NotSlash);
    assert u == u[..n] + ([u[n]] + u[n + 1..]);
  }

  // ---------------------------------------------------------------------------
  // `([^/]+)(?:/|$)` : the repository of a repository URL

  function RepoName(v: string): Option<string> {
    var n := Span(v, NotSlash);
    if n == 0 then None else Some(v[..n])
  }

  /** What may follow the repository group of RepoRef. */
  predicate PathOrEnd(rest: string) {
    rest == [] || rest[0] == '/'
  }

  lemma RepoNameRoundTrip(r: string, rest: string)
    requires Segment(r) && PathOrEnd(rest)
    ensures RepoName(r + rest) == Some(r)
  {
    SpanExact(r + rest, NotSlash, |r|);
    assert (r + rest)[..|r|] == r;
  }

  lemma RepoNameSound(v: string) returns (rest: string)
    requires RepoName(v).Some?
    ensures v == RepoName(v).value + rest && PathOrEnd(rest)
  {
    rest := v[Span(v, NotSlash)..];
  }

  // ---------------------------------------------------------------------------
  // `(?:/issues/|#)(\d+)` : the separator and number of an issue reference

  function IssueSep(viaPath: bool): string {
    if viaPath then "/issues/" else "#"
  }

  /** `(?:/issues/|#)` : the text after the separator. */
  function SepAfter(w: string): Option<string> {
    if StartsWith(w, "/issues/") then Some(w[8..])
    else if StartsWith(w, "#") then Some(w[1..])
    else None
  }

  lemma SepAfterRoundTrip(viaPath: bool, d: string)
    ensures SepAfter(IssueSep(viaPath) + d) == Some(d)
  {
    var w := IssueSep(viaPath) + d;
    var k := |IssueSep(viaPath)|;
    assert w[..k] == IssueSep(viaPath);
    assert w[k..] == d;
    if !viaPath {
      assert w[0] == '#';
    }
  }

  lemma SepAfterSound(w: string) returns (viaPath: bool)
    requires SepAfter(w).Some?
    ensures w == IssueSep(viaPath) + SepAfter(w).value
  {
    viaPath := StartsWith(w, "/issues/");
    var k := |IssueSep(viaPath)|;
    assert w == w[..k] + w[k..];
  }

  /** The digits of `(?:/issues/|#)(\d+)` matched at the start of w. */
  function SepNumber(w: string): (m: Option<string>)
    ensures m.Some? ==> Number(m.value)
  {
    var d := SepAfter(w);
    if d.None? then None
    else
      var k := Span(d.value, IsDigit);
      if k == 0 then None else Some(d.value[..k])
  }

  lemma DigitsThenRest(n: string, rest: string)
    requires Number(n) && NoDigitNext(rest)
    ensures Span(n + rest, IsDigit) == |n| && (n + rest)[..|n|] == n
  {
    SpanExact(n + rest, IsDigit, |n|);
  }

  lemma DigitsSplit(d: string) returns (rest: string)
    requires Span(d, IsDigit) > 0
    ensures d == d[..Span(d, IsDigit)] + rest && NoDigitNext(rest)
  {
    rest := d[Span(d, IsDigit)..];
  }

  lemma SepNumberRoundTrip(viaPath: bool, n: string, rest: string)
    requires Number(n) && NoDigitNext(rest)
    ensures SepNumber(IssueSep(viaPath) + (n + rest)) == Some(n)
  {
    SepAfterRoundTrip(viaPath, n + rest);
    DigitsThenRest(n, rest);
  }

  lemma SepNumberSound(w: string) returns (viaPath: bool, rest: string)
    requires SepNumber(w).Some?
    ensures w == IssueSep(viaPath) + (SepNumber(w).value + rest) && NoDigitNext(rest)
  {
    viaPath := SepAfterSound(w);
    rest := DigitsSplit(SepAfter(w).value);
  }

  // ---------------------------------------------------------------------------
  // RepoRef

  /** RepoRef: (owner, repo), or no value. */
  function MatchRepoRef(t: string): (m: Option<(string, string)>)
    ensures m.Some? ==> Segment(m.value.0) && Segment(m.value.1)
  {
    var u := AfterHost(t);
    if u.None? then None
    else
      var ov := OwnerSplit(u.value);
      if ov.None? then None
      else
        var r := RepoName(ov.value.1);
        if r.None? then None
        else OwnerSplitSound(u.value); Some((ov.value.0, r.value))
  }

  /** A repository URL followed by rest. */
  function RepoText(secure: bool, o: string, r: string, rest: string): string {
    Scheme(secure) + (o + ("/" + (r + rest)))
  }

  /** `extract_owner_repo` and `_extract_owner_repo`: the regex applied to
      the stripped URL; no value stands for the source's `(None, None)`. */
  function ExtractOwnerRepo(url: string): (r: Option<(string, string)>)
    ensures r.Some? ==> Segment(r.value.0) && Segment(r.value.1)
  {
    MatchRepoRef(Strip(url))
  }

  /** A repository URL that does not end in whitespace is its own strip. */
  lemma RepoTextTrimmed(secure: bool, o: string, r: string, rest: string)
    requires r + rest != [] && !IsSpace((r + rest)[|r + rest| - 1])
    ensures Strip(RepoText(secure, o, r, rest)) == RepoText(secure, o, r, rest)
  {
    var t := RepoText(secure, o, r, rest);
    var head := Scheme(secure) + (o + "/");
    assert t == head + (r + rest);
    assert t[0] == head[0] == 'h';
    StripTrimmed(t);
  }

  /** Every repository URL followed by nothing or by a path is recognised,
      and yields exactly its owner and repository. */
  lemma RepoRefComplete(secure: bool, o: string, r: string, rest: string)
    requires Segment(o) && Segment(r) && PathOrEnd(rest)
    ensures MatchRepoRef(RepoText(secure, o, r, rest)) == Some((o, r))
  {
    AfterHostRoundTrip(secure, o + ("/" + (r + rest)));
    OwnerSplitRoundTrip(o, r + rest);
    RepoNameRoundTrip(r, rest);
  }

  /** Whatever MatchRepoRef accepts is a repository URL whose repository group
      ends at a `/` or at the end of the text. */
  lemma RepoRefSound(t: string) returns (secure: bool, rest: string)
    requires MatchRepoRef(t).Some?
    ensures PathOrEnd(rest)
    ensures t == RepoText(secure, MatchRepoRef(t).value.0, MatchRepoRef(t).value.1, rest)
  {
    var u := AfterHost(t).value;
    secure := AfterHostSound(t);
    var ov := OwnerSplit(u).value;
    OwnerSplitSound(u);
    rest := RepoNameSound(ov.1);
    assert MatchRepoRef(t).value == (ov.0, RepoName(ov.1).value);
  }

  // ---------------------------------------------------------------------------
  // PrRef

  function PrKind(plural: bool): string {
    if plural then "pulls" else "pull"
  }

  /** `(?:pull|pulls)/` : the text after it. */
  function PrSep(w: string): Option<string> {
    if StartsWith(w, "pull/") then Some(w[5..])
    else if StartsWith(w, "pulls/") then Some(w[6..])
    else None
  }

  lemma PrSepRoundTrip(plural: bool, d: string)
    ensures PrSep(PrKind(plural) + ("/" + d)) == Some(d)
  {
    var w := PrKind(plural) + ("/" + d);
    assert w[..|PrKind(plural)| + 1] == PrKind(plural) + "/";
    assert w[|PrKind(plural)| + 1..] == d;
    if plural {
      assert w[4] == 's';
    }
  }

  lemma PrSepSound(w: string) returns (plural: bool)
    requires PrSep(w).Some?
    ensures w == PrKind(plural) + ("/" + PrSep(w).value)
  {
    plural := !StartsWith(w, "pull/");
    var k := |PrKind(plural)| + 1;
    assert w == w[..k] + w[k..];
  }

  /** The repository and number of a PR URL, after the owner. */
  function PrTail(v: string): Option<(string, string)> {
    var ow := OwnerSplit(v);
    if ow.None? then None
    else
      var d := PrSep(ow.value.1);
      if d.None? then None
      else
        var k := Span(d.value, IsDigit);
        if k == 0 then None else Some((ow.value.0, d.value[..k]))
  }

  /** `PR_URL_RE.match` and the regex of `_github_pr_details`:
      (owner, repo, number) or absence. */
  function MatchPrRef(t: string): (m: Option<(string, string, string)>)
    ensures m.Some? ==> Segment(m.value.0) && Segment(m.value.1) && Number(m.value.2)
  {
    var u := AfterHost(t);
    if u.None? then None
    else
      var ov := OwnerSplit(u.value);
      if ov.None? then None
      else
        var rn := PrTail(ov.value.1);
        if rn.None? then None
        else
          OwnerSplitSound(u.value);
          OwnerSplitSound(ov.value.1);
          Some((ov.value.0, rn.value.0, rn.value.1))
  }

  /** A PR URL (`/pull/N`, or `/pulls/N` when plural) followed by rest. */
  function PrText(secure: bool, o: string, r: string, plural: bool, n: string, rest: string): string {
    Scheme(secure) + (o + ("/" + (r + ("/" + (PrKind(plural) + ("/" + (n + rest)))))))
  }

  /** Both `/pull/N` and `/pulls/N` are recognised, whatever non-digit text
      follows the number, and yield exactly (owner, repo, N). */
  lemma PrRefComplete(secure: bool, o: string, r: string, plural: bool, n: string, rest: string)
    requires Segment(o) && Segment(r) && Number(n) && NoDigitNext(rest)
    ensures MatchPrRef(PrText(secure, o, r, plural, n, rest)) == Some((o, r, n))
  {
    var w := PrKind(plural) + ("/" + (n + rest));
    var v := r + ("/" + w);
    AfterHostRoundTrip(secure, o + ("/" + v));
    OwnerSplitRoundTrip(o, v);
    OwnerSplitRoundTrip(r, w);
    PrSepRoundTrip(plural, n + rest);
    DigitsThenRest(n, rest);
  }

  /** Whatever MatchPrRef accepts is a PR URL followed by a non-digit or the end. */
  lemma PrRefSound(t: string) returns (secure: bool, plural: bool, rest: string)
    requires MatchPrRef(t).Some?
    ensures NoDigitNext(rest)
    ensures t == PrText(secure, MatchPrRef(t).value.0, MatchPrRef(t).value.1, plural,
                        MatchPrRef(t).value.2, rest)
  {
    var u := AfterHost(t).value;
    secure := AfterHostSound(t);
    OwnerSplitSound(u);
    var v := OwnerSplit(u).value.1;
    OwnerSplitSound(v);
    var w := OwnerSplit(v).value.1;
    plural := PrSepSound(w);
    rest := DigitsSplit(PrSep(w).value);
  }

  // ---------------------------------------------------------------------------
  // IssueStrict and IssueLoose

  /** An issue URL (`/issues/N`, or `#N` when not viaPath) followed by rest. */
  function IssueText(secure: bool, o: string, r: string, viaPath: bool, n: string, rest: string): string {
    Scheme(secure) + (o + ("/" + (r + (IssueSep(viaPath) + (n + rest)))))
  }

  /** An issue URL that does not end in whitespace is its own strip. */
  lemma IssueTextTrimmed(secure: bool, o: string, r: string, viaPath: bool, n: string, rest: string)
    requires Number(n) && (rest == [] || !IsSpace(rest[|rest| - 1]))
    ensures Strip(IssueText(secure, o, r, viaPath, n, rest)) == IssueText(secure, o, r, viaPath, n, rest)
  {
    var t := IssueText(secure, o, r, viaPath, n, rest);
    var head := Scheme(secure) + (o + ("/" + (r + IssueSep(viaPath))));
    assert t == head + (n + rest);
    assert t[0] == head[0] == 'h';
    if rest == [] {
      assert t[|t| - 1] == n[|n| - 1];
      assert IsDigit(n[|n| - 1]);
    } else {
      assert t[|t| - 1] == rest[|rest| - 1];
    }
    StripTrimmed(t);
  }

  /** The repository and issue number of IssueStrict after the owner. */
  function StrictTail(v: string): (m: Option<(string, string)>)
    ensures m.Some? ==>
              HashFreeSegment(m.value.0) && |m.value.0| <= |v|
              && v[..|m.value.0|] == m.value.0 && SepNumber(v[|m.value.0|..]) == Some(m.value.1)
  {
    var n := Span(v, NotSlashOrHash);
    if n == 0 then None
    else
      var d := SepNumber(v[n..]);
      if d.None? then None else Some((v[..n], d.value))
  }

  lemma StrictTailSound(v: string) returns (viaPath: bool, rest: string)
    requires StrictTail(v).Some?
    ensures NoDigitNext(rest)
    ensures v == StrictTail(v).value.0 + (IssueSep(viaPath) + (StrictTail(v).value.1 + rest))
  {
    var n := Span(v, NotSlashOrHash);
    viaPath, rest := SepNumberSound(v[n..]);
    assert v == v[..n] + v[n..];
  }

  lemma StrictTailRoundTrip(r: string, viaPath: bool, n: string, rest: string)
    requires HashFreeSegment(r) && Number(n) && NoDigitNext(rest)
    ensures StrictTail(r + (IssueSep(viaPath) + (n + rest))) == Some((r, n))
  {
    var w := IssueSep(viaPath) + (n + rest);
    var v := r + w;
    assert v[|r|] == IssueSep(viaPath)[0];
    SpanExact(v, NotSlashOrHash, |r|);
    assert v[..|r|] == r && v[|r|..] == w;
    SepNumberRoundTrip(viaPath, n, rest);
  }

  /** The regex of `_github_issue_fixer`: (owner, repo, number) or absence;
      the repository may contain neither `/` nor `#`. */
  function MatchIssueStrict(t: string): (m: Option<(string, string, string)>)
    ensures m.Some? ==> Segment(m.value.0) && HashFreeSegment(m.value.1) && Number(m.value.2)
  {
    var u := AfterHost(t);
    if u.None? then None
    else
      var ov := OwnerSplit(u.value);
      if ov.None? then None
      else
        var rd := StrictTail(ov.value.1);
        if rd.None? then None
        else
          OwnerSplitSound(u.value);
          Some((ov.value.0, rd.value.0, rd.value.1))
  }

  /** Both `/issues/N` and `#N` are recognised, whatever non-digit text
      follows, and yield exactly (owner, repo, N) when the repository has no `#`. */
  lemma IssueStrictComplete(secure: bool, o: string, r: string, viaPath: bool, n: string, rest: string)
    requires Segment(o) && HashFreeSegment(r) && Number(n) && NoDigitNext(rest)
    ensures MatchIssueStrict(IssueText(secure, o, r, viaPath, n, rest)) == Some((o, r, n))
  {
    var v := r + (IssueSep(viaPath) + (n + rest));
    AfterHostRoundTrip(secure, o + ("/" + v));
    OwnerSplitRoundTrip(o, v);
    StrictTailRoundTrip(r, viaPath, n, rest);
  }

  /** Whatever MatchIssueStrict accepts is an issue URL followed by a non-digit
      or the end. */
  lemma IssueStrictSound(t: string) returns (secure: bool, viaPath: bool, rest: string)
    requires MatchIssueStrict(t).Some?
    ensures NoDigitNext(rest)
    ensures t == IssueText(secure, MatchIssueStrict(t).value.0, MatchIssueStrict(t).value.1,
                           viaPath, MatchIssueStrict(t).value.2, rest)
  {
    var u := AfterHost(t).value;
    secure := AfterHostSound(t);
    var ov := OwnerSplit(u).value;
    OwnerSplitSound(u);
    viaPath, rest := StrictTailSound(ov.1);
    assert MatchIssueStrict(t).value == (ov.0, StrictTail(ov.1).value.0, StrictTail(ov.1).value.1);
  }

  /** Regex backtracking over the repository group `[^/]+`: try every length
      from len down to 1 and keep the first at which the separator and
      number match. */
  function Backtrack(v: string, len: nat): Option<(nat, string)>
    requires len <= |v|
    decreases len
  {
    if len == 0 then None
    else
      var d := SepNumber(v[len..]);
      if d.Some? then Some((len, d.value)) else Backtrack(v, len - 1)
  }

  lemma {:induction false} BacktrackSound(v: string, len: nat)
    requires len <= |v| && Backtrack(v, len).Some?
    ensures 1 <= Backtrack(v, len).value.0 <= len
    ensures SepNumber(v[Backtrack(v, len).value.0..]) == Some(Backtrack(v, len).value.1)
    decreases len
  {
    if SepNumber(v[len..]).None? {
      BacktrackSound(v, len - 1);
    }
  }

  /** Backtracking finds the LONGEST repository length that works. */
  lemma {:induction false} BacktrackLongest(v: string, len: nat, k: nat)
    requires 1 <= k <= len <= |v| && SepNumber(v[k..]).Some?
    ensures Backtrack(v, len).Some? && k <= Backtrack(v, len).value.0
    decreases len
  {
    if SepNumber(v[len..]).None? {
      BacktrackLongest(v, len - 1, k);
    }
  }

  /** The repository and issue number of IssueLoose after the owner. */
  function LooseTail(v: string): (m: Option<(string, string)>)
    ensures m.Some? ==>
              Segment(m.value.0) && |m.value.0| <= |v|
              && v[..|m.value.0|] == m.value.0 && SepNumber(v[|m.value.0|..]) == Some(m.value.1)
  {
    var b := Backtrack(v, Span(v, NotSlash));
    if b.None? then None
    else BacktrackSound(v, Span(v, NotSlash)); Some((v[..b.value.0], b.value.1))
  }

  lemma LooseTailSound(v: string) returns (viaPath: bool, rest: string)
    requires LooseTail(v).Some?
    ensures NoDigitNext(rest)
    ensures v == LooseTail(v).value.0 + (IssueSep(viaPath) + (LooseTail(v).value.1 + rest))
  {
    var m := LooseTail(v).value;
    var w := v[|m.0|..];
    assert SepNumber(w) == Some(m.1);
    viaPath, rest := SepNumberSound(w);
    assert v == m.0 + w;
  }

  /** `github_issue_details`' regex: (owner, repo, number) or absence; the
      repository may contain `#`. */
  function MatchIssueLoose(t: string): (m: Option<(string, string, string)>)
    ensures m.Some? ==> Segment(m.value.0) && Segment(m.value.1) && Number(m.value.2)
  {
    var u := AfterHost(t);
    if u.None? then None
    else
      var ov := OwnerSplit(u.value);
      if ov.None? then None
      else
        var rd := LooseTail(ov.value.1);
        if rd.None? then None
        else
          OwnerSplitSound(u.value);
          Some((ov.value.0, rd.value.0, rd.value.1))
  }

  /** Whatever MatchIssueLoose accepts is an issue URL followed by a non-digit
      or the end. */
  lemma IssueLooseSound(t: string) returns (secure: bool, viaPath: bool, rest: string)
    requires MatchIssueLoose(t).Some?
    ensures NoDigitNext(rest)
    ensures t == IssueText(secure, MatchIssueLoose(t).value.0, MatchIssueLoose(t).value.1,
                           viaPath, MatchIssueLoose(t).value.2, rest)
  {
    var u := AfterHost(t).value;
    secure := AfterHostSound(t);
    var ov := OwnerSplit(u).value;
    OwnerSplitSound(u);
    viaPath, rest := LooseTailSound(ov.1);
    assert MatchIssueLoose(t).value == (ov.0, LooseTail(ov.1).value.0, LooseTail(ov.1).value.1);
  }

  lemma LooseTailLongest(r: string, viaPath: bool, n: string, rest: string)
    requires Segment(r) && Number(n) && NoDigitNext(rest)
    ensures var m := LooseTail(r + (IssueSep(viaPath) + (n + rest)));
            m.Some? && |r| <= |m.value.0|
  {
    var w := IssueSep(viaPath) + (n + rest);
    var v := r + w;
    SepNumberRoundTrip(viaPath, n, rest);
    assert v[|r|..] == w;
    var full := Span(v, NotSlash);
    BacktrackLongest(v, full, |r|);
    BacktrackSound(v, full);
    assert LooseTail(v) == Some((v[..Backtrack(v, full).value.0], Backtrack(v, full).value.1));
  }

  /** Every reading of an issue URL as IssueText has a repository no longer
      than the one MatchIssueLoose returns: the match is the longest reading. */
  lemma IssueLooseLongest(secure: bool, o: string, r: string, viaPath: bool, n: string, rest: string)
    requires Segment(o) && Segment(r) && Number(n) && NoDigitNext(rest)
    ensures var m := MatchIssueLoose(IssueText(secure, o, r, viaPath, n, rest));
            m.Some? && m.value.0 == o && |r| <= |m.value.1|
  {
    var v := r + (IssueSep(viaPath) + (n + rest));
    AfterHostRoundTrip(secure, o + ("/" + v));
    OwnerSplitRoundTrip(o, v);
    LooseTailLongest(r, viaPath, n, rest);
    var t := IssueText(secure, o, r, viaPath, n, rest);
    assert t == Scheme(secure) + (o + ("/" + v));
    assert MatchIssueLoose(t) == Some((o, LooseTail(v).value.0, LooseTail(v).value.1));
  }

  /** Two readings of one text whose repositories have the same length are
      the same reading; together with IssueLooseLongest and IssueLooseSound,
      the loose match is the unique reading with the longest repository. */
  lemma IssueReadingUnique(s1: bool, o1: string, r1: string, p1: bool, n1: string, rest1: string,
                           s2: bool, o2: string, r2: string, p2: bool, n2: string, rest2: string)
    requires Segment(o1) && Segment(r1) && Number(n1) && NoDigitNext(rest1)
    requires Segment(o2) && Segment(r2) && Number(n2) && NoDigitNext(rest2)
    requires IssueText(s1, o1, r1, p1, n1, rest1) == IssueText(s2, o2, r2, p2, n2, rest2)
    requires |r1| == |r2|
    ensures o1 == o2 && r1 == r2 && n1 == n2
  {
    var w1 := IssueSep(p1) + (n1 + rest1);
    var w2 := IssueSep(p2) + (n2 + rest2);
    AfterHostRoundTrip(s1, o1 + ("/" + (r1 + w1)));
    AfterHostRoundTrip(s2, o2 + ("/" + (r2 + w2)));
    OwnerSplitRoundTrip(o1, r1 + w1);
    OwnerSplitRoundTrip(o2, r2 + w2);
    assert r1 + w1 == r2 + w2;
    assert r1 == (r1 + w1)[..|r1|] && r2 == (r2 + w2)[..|r2|];
    assert w1 == (r1 + w1)[|r1|..] && w2 == (r2 + w2)[|r2|..];
    SepNumberRoundTrip(p1, n1, rest1);
    SepNumberRoundTrip(p2, n2, rest2);
  }

  /** The two issue regexes agree whenever the loose one's repository has no
      `#` in it. */
  lemma IssueRegexesAgree(t: string)
    requires MatchIssueLoose(t).Some? && HashFreeSegment(MatchIssueLoose(t).value.1)
    ensures MatchIssueStrict(t) == MatchIssueLoose(t)
  {
    var m := MatchIssueLoose(t).value;
    var secure, viaPath, rest := IssueLooseSound(t);
    IssueStrictComplete(secure, m.0, m.1, viaPath, m.2, rest);
  }

  /** Backtracking passes over lengths at which no separator and number follow. */
  lemma {:induction false} BacktrackSkip(v: string, k: nat, len: nat)
    requires k <= len <= |v|
    requires forall j :: k < j <= len ==> SepNumber(v[j..]).None?
    ensures Backtrack(v, len) == Backtrack(v, k)
    decreases len
  {
    if len > k {
      BacktrackSkip(v, k, len - 1);
    }
  }

  /** No separator starts with a character that is neither `/` nor `#`. */
  lemma SepNumberFirstChar(w: string)
    requires w == [] || (w[0] != '/' && w[0] != '#')
    ensures SepNumber(w).None?
  {
  }

  /** After a `#`-free repository and `#N`, with no `#` or `/` after the
      number, the whole text is one `[^/]+` run and backtracking finds no
      separator past the repository. */
  lemma HashTailSkipped(r: string, n: string, rest: string)
    requires HashFreeSegment(r) && Number(n)
    requires forall k :: 0 <= k < |rest| ==> rest[k] != '#' && rest[k] != '/'
    ensures var v := r + ("#" + (n + rest));
            Span(v, NotSlash) == |v| && forall j :: |r| < j <= |v| ==> SepNumber(v[j..]).None?
  {
    var v := r + ("#" + (n + rest));
    forall j | |r| < j <= |v|
      ensures SepNumber(v[j..]).None?
    {
      if j < |v| {
        var i := j - |r| - 1;
        assert v[j] == (n + rest)[i];
        if i >= |n| {
          assert v[j] == rest[i - |n|];
        }
        assert v[j..][0] == v[j];
      }
      SepNumberFirstChar(v[j..]);
    }
    forall k | 0 <= k < |v|
      ensures NotSlash(v[k])
    {
      if |r| < k {
        var i := k - |r| - 1;
        assert v[k] == (n + rest)[i];
        if i >= |n| {
          assert v[k] == rest[i - |n|];
        }
      }
    }
    SpanExact(v, NotSlash, |v|);
  }

  lemma LooseTailExact(r: string, viaPath: bool, n: string, rest: string)
    requires HashFreeSegment(r) && Number(n) && NoDigitNext(rest)
    requires viaPath || forall k :: 0 <= k < |rest| ==> rest[k] != '#' && rest[k] != '/'
    ensures LooseTail(r + (IssueSep(viaPath) + (n + rest))) == Some((r, n))
  {
    var w := IssueSep(viaPath) + (n + rest);
    var v := r + w;
    SepNumberRoundTrip(viaPath, n, rest);
    assert v[|r|..] == w && v[..|r|] == r;
    if viaPath {
      assert v[|r|] == w[0] == '/';
      SpanExact(v, NotSlash, |r|);
    } else {
      HashTailSkipped(r, n, rest);
      BacktrackSkip(v, |r|, |v|);
    }
  }

  /** When the repository has no `#`, and either the separator is `/issues/` or
      no `#` or `/` follows the number, the loose regex reads the text exactly
      as it was built. */
  lemma IssueLooseExact(secure: bool, o: string, r: string, viaPath: bool, n: string, rest: string)
    requires Segment(o) && HashFreeSegment(r) && Number(n) && NoDigitNext(rest)
    requires viaPath || forall k :: 0 <= k < |rest| ==> rest[k] != '#' && rest[k] != '/'
    ensures MatchIssueLoose(IssueText(secure, o, r, viaPath, n, rest)) == Some((o, r, n))
  {
    var v := r + (IssueSep(viaPath) + (n + rest));
    AfterHostRoundTrip(secure, o + ("/" + v));
    OwnerSplitRoundTrip(o, v);
    LooseTailExact(r, viaPath, n, rest);
  }

  // ---------------------------------------------------------------------------
  // Worked examples, over `https://github.com/` (Scheme(true)) and a path

  lemma ExampleNotAUrl()
    ensures MatchRepoRef("not a url") == None
  {
  }

  lemma ExampleRepoRef()
    ensures MatchRepoRef(Scheme(true) + "acme/widget") == Some(("acme", "widget"))
  {
    RepoRefComplete(true, "acme", "widget", "");
    assert "acme/widget" == "acme" + ("/" + ("widget" + ""));
  }

  lemma ExampleIssuePath()
    ensures MatchIssueLoose(Scheme(true) + "acme/widget/issues/42") == Some(("acme", "widget", "42"))
  {
    assert "acme/widget/issues/42" == "acme" + ("/" + ("widget" + (IssueSep(true) + ("42" + ""))));
    IssueLooseExact(true, "acme", "widget", true, "42", "");
  }

  lemma ExampleIssueHash()
    ensures MatchIssueLoose(Scheme(true) + "acme/widget#42") == Some(("acme", "widget", "42"))
    ensures MatchIssueStrict(Scheme(true) + "acme/widget#42") == Some(("acme", "widget", "42"))
  {
    assert "acme/widget#42" == "acme" + ("/" + ("widget" + (IssueSep(false) + ("42" + ""))));
    IssueLooseExact(true, "acme", "widget", false, "42", "");
    IssueStrictComplete(true, "acme", "widget", false, "42", "");
  }

  /** On `o/r#1#2` the two issue regexes part: the strict one stops the
      repository at the first `#` (ExampleIssueStrictStops), the loose one
      backtracks to the last (ExampleIssueLooseBacktracks). */
  lemma ExampleIssueStrictStops()
    ensures MatchIssueStrict(Scheme(true) + "o/r#1#2") == Some(("o", "r", "1"))
  {
    assert "o/r#1#2" == "o" + ("/" + ("r" + (IssueSep(false) + ("1" + "#2"))));
    IssueStrictComplete(true, "o", "r", false, "1", "#2");
  }

  /** Inside `r#1#2`, backtracking gives up the last two characters and stops
      before the second `#`. */
  lemma BacktrackExample()
    ensures LooseTail("r#1#2") == Some(("r#1", "2"))
  {
    var v := "r#1#2";
    SpanExact(v, NotSlash, 5);
    SepNumberFirstChar(v[5..]);
    SepNumberFirstChar(v[4..]);
    BacktrackSkip(v, 3, 5);
    assert v[3..] == IssueSep(false) + ("2" + "");
    SepNumberRoundTrip(false, "2", "");
    assert v[..3] == "r#1";
  }

  lemma ExampleIssueLooseBacktracks()
    ensures MatchIssueLoose(Scheme(true) + "o/r#1#2") == Some(("o", "r#1", "2"))
  {
    var v := "r#1#2";
    assert "o/r#1#2" == "o" + ("/" + v);
    AfterHostRoundTrip(true, "o" + ("/" + v));
    OwnerSplitRoundTrip("o", v);
    BacktrackExample();
  }
}
