/** The PR review tool (`_review_pr`): parses a PR URL, fetches the PR and
    its changed files, and renders a summary with the linked issues, the
    change totals, the first five files and a fixed review checklist.
    The two GETs are oracles keyed by the API URL. `_review_pr` has no
    `try`, so a transport error or a missing count escapes as an exception. */
module PrReview {
  import opened Text
  import opened Http
  import opened UrlRefs
  import opened Wrappers

  /** The fields of a PR record the review reads; `number`, `user.login` and
      `html_url` are read with `[]`, `title` and `body` with `.get`. */
  datatype PullRecord = PullRecord(number: nat, title: Field<string>, login: string,
                                   htmlUrl: string, body: Field<string>)

  /** A changed file; its counts are absent when the record lacks the key. */
  datatype PrFile = PrFile(filename: string, additions: Option<nat>, deletions: Option<nat>)

  const InvalidPrUrl := "Invalid PR URL. Use: https://github.com/owner/repo/pull/123"

  function PullApiUrl(owner: string, repo: string, number: string): string {
    ApiRepos + "/" + owner + "/" + repo + "/pulls/" + number
  }

  function FilesApiUrl(owner: string, repo: string, number: string): string {
    PullApiUrl(owner, repo, number) + "/files"
  }

  // ---------------------------------------------------------------------------
  // Linked issues: `sorted(set(re.findall(r"#(\d+)", body)))`

  /** `re.findall(r"#(\d+)", s)`: scanning left to right, each `#` followed by
      digits yields all of those digits, and the scan resumes after them. */
  function IssueRefs(s: string): (r: seq<string>)
    ensures forall k :: 0 <= k < |r| ==> Number(r[k])
    decreases |s|
  {
    if |s| == 0 then []
    else if s[0] == '#' && Span(s[1..], IsDigit) > 0 then
      var k := Span(s[1..], IsDigit);
      [s[1..1 + k]] + IssueRefs(s[1 + k..])
    else IssueRefs(s[1..])
  }

  /** Position i of s holds a `#` followed by the maximal run of digits d. */
  predicate RefAt(s: string, i: int, d: string) {
    0 <= i < |s| && s[i] == '#' && |d| > 0 && |d| == Span(s[i + 1..], IsDigit)
    && d == s[i + 1..i + 1 + |d|]
  }

  lemma RefAtShift(s: string, m: nat, j: nat, d: string)
    requires m <= |s|
    ensures RefAt(s[m..], j, d) <==> RefAt(s, j + m, d)
  {
    if j < |s| - m {
      assert s[m..][j] == s[j + m];
      assert s[m..][j + 1..] == s[j + m + 1..];
    }
  }

  /** Every digit run inside a scanned match cannot start a reference. */
  lemma NoRefInsideDigits(s: string, i: int, d: string)
    requires |s| > 0 && s[0] == '#' && 1 <= i <= Span(s[1..], IsDigit)
    ensures !RefAt(s, i, d)
  {
    assert s[i] == s[1..][i - 1];
  }

  /** A `#` and digits at the head of s are scanned as one match. */
  predicate HeadRef(s: string) {
    |s| > 0 && s[0] == '#' && Span(s[1..], IsDigit) > 0
  }

  /** How far one step of the scan moves: past the match at the head, or
      past one character. */
  function Step(s: string): (m: nat)
    requires |s| > 0
    ensures 1 <= m <= |s|
  {
    if HeadRef(s) then 1 + Span(s[1..], IsDigit) else 1
  }

  /** One step of the scan: what it yields at the head, then the rest. */
  lemma StepRefs(s: string)
    requires |s| > 0
    ensures HeadRef(s) ==> IssueRefs(s) == [s[1..Step(s)]] + IssueRefs(s[Step(s)..])
    ensures !HeadRef(s) ==> IssueRefs(s) == IssueRefs(s[Step(s)..])
  {
  }

  /** A reference at the head is what the first step yields. */
  lemma HeadRefListed(s: string, i: nat, d: string)
    requires RefAt(s, i, d) && i < Step(s)
    ensures i == 0 && HeadRef(s) && IssueRefs(s)[0] == d
  {
    if i > 0 {
      NoRefInsideDigits(s, i, d);
    }
    StepRefs(s);
    assert d == s[1..Step(s)];
  }

  /** What the scan yields after its first step is yielded from s too. */
  lemma RestRefsListed(s: string, d: string)
    requires |s| > 0 && d in IssueRefs(s[Step(s)..])
    ensures d in IssueRefs(s)
  {
    StepRefs(s);
  }

  /** Each run findall yields follows a `#`. */
  lemma {:induction false} IssueRefsSound(s: string, d: string)
    requires d in IssueRefs(s)
    ensures exists i :: RefAt(s, i, d)
    decreases |s|
  {
    var m := Step(s);
    StepRefs(s);
    if HeadRef(s) && d == s[1..m] {
      assert s[1..][..m - 1] == s[1..m];
      assert RefAt(s, 0, d);
    } else {
      assert d in IssueRefs(s[m..]);
      IssueRefsSound(s[m..], d);
      var j :| RefAt(s[m..], j, d);
      RefAtShift(s, m, j, d);
      assert RefAt(s, j + m, d);
    }
  }

  /** Each `#` followed by digits has its run among those findall yields. */
  lemma {:induction false} IssueRefsComplete(s: string, i: nat, d: string)
    requires RefAt(s, i, d)
    ensures d in IssueRefs(s)
    decreases |s|
  {
    var m := Step(s);
    if i < m {
      HeadRefListed(s, i, d);
    } else {
      RefAtShift(s, m, i - m, d);
      IssueRefsComplete(s[m..], i - m, d);
      RestRefsListed(s, d);
    }
  }

  predicate StrictlySorted(s: seq<string>) {
    forall i, j :: 0 <= i < j < |s| ==> LexLess(s[i], s[j])
  }

  /** Inserts x into a strictly sorted sequence, keeping it strictly sorted
      and without duplicates. */
  function Insert(x: string, s: seq<string>): (r: seq<string>)
    requires StrictlySorted(s)
    ensures StrictlySorted(r)
    ensures forall y :: y in r <==> y in s || y == x
  {
    if s == [] then [x]
    else if x == s[0] then s
    else if LexLess(x, s[0]) then
      assert forall j :: 0 < j < |s| ==> LexLess(s[0], s[j]);
      LexLessTransitivity(x, s[0], s);
      [x] + s
    else
      LexLessTotal(x, s[0]);
      var t := Insert(x, s[1..]);
      assert forall y :: y in t ==> LexLess(s[0], y) by {
        forall y | y in t ensures LexLess(s[0], y) {
          if y != x {
            var j :| 0 <= j < |s[1..]| && s[1..][j] == y;
            assert s[j + 1] == y;
          }
        }
      }
      [s[0]] + t
  }

  lemma LexLessTransitivity(x: string, first: string, s: seq<string>)
    requires |s| > 0 && first == s[0] && LexLess(x, first)
    requires forall j :: 0 < j < |s| ==> LexLess(s[0], s[j])
    ensures forall j :: 0 <= j < |s| ==> LexLess(x, s[j])
  {
    forall j | 0 < j < |s| ensures LexLess(x, s[j]) {
      LexLessTransitive(x, s[0], s[j]);
    }
  }

  /** `sorted(set(xs))`. */
  function SortedDistinct(xs: seq<string>): (r: seq<string>)
    ensures StrictlySorted(r)
    ensures forall y :: y in r <==> y in xs
  {
    if xs == [] then []
    else
      var r := Insert(xs[|xs| - 1], SortedDistinct(xs[..|xs| - 1]));
      assert xs == xs[..|xs| - 1] + [xs[|xs| - 1]];
      r
  }

  lemma FirstIsMember(b: seq<string>)
    requires b != []
    ensures b[0] in b
  {
  }

  /** A strictly sorted sequence is determined by its elements: `sorted(set(xs))`
      is the only strictly sorted sequence holding exactly the elements of xs. */
  lemma {:induction false} SortedUnique(a: seq<string>, b: seq<string>)
    requires StrictlySorted(a) && StrictlySorted(b)
    requires forall y :: y in a <==> y in b
    ensures a == b
    decreases |a|
  {
    if a == [] {
      if b != [] {
        FirstIsMember(b);
      }
    } else {
      assert b != [] by { assert a[0] in b; }
      if a[0] != b[0] {
        assert b[0] in a && a[0] in b;
        var i :| 0 <= i < |a| && a[i] == b[0];
        var j :| 0 <= j < |b| && b[j] == a[0];
        assert LexLess(a[0], a[i]) && LexLess(b[0], b[j]);
        LexLessTransitive(a[0], b[0], a[0]);
        LexLessIrreflexive(a[0]);
        assert false;
      }
      forall y
        ensures y in a[1..] <==> y in b[1..]
      {
        if y in a[1..] {
          var i :| 0 <= i < |a[1..]| && a[1..][i] == y;
          assert LexLess(a[0], a[i + 1]);
          LexLessIrreflexive(a[0]);
          assert y in b && y != b[0];
        }
        if y in b[1..] {
          var j :| 0 <= j < |b[1..]| && b[1..][j] == y;
          assert LexLess(b[0], b[j + 1]);
          LexLessIrreflexive(b[0]);
          assert y in a && y != a[0];
        }
      }
      SortedUnique(a[1..], b[1..]);
      assert a == [a[0]] + a[1..] && b == [b[0]] + b[1..];
    }
  }

  /** `pr.get("body") or ""`. */
  function BodyText(body: Field<string>): string {
    if body.Present? then body.value else ""
  }

  /** The linked issues: strictly ascending, and exactly the digit runs that
      follow a `#` in the body. */
  function LinkedIssues(body: string): (r: seq<string>)
    ensures StrictlySorted(r)
    ensures forall d :: d in r <==> exists i :: RefAt(body, i, d)
  {
    var r := SortedDistinct(IssueRefs(body));
    forall d ensures d in r <==> exists i :: RefAt(body, i, d) {
      if d in r {
        IssueRefsSound(body, d);
      }
      if i :| RefAt(body, i, d) {
        IssueRefsComplete(body, i, d);
      }
    }
    r
  }

  /** `", ".join(f"#{n}" ...)`, or "None" when there are no linked issues.
      Split at the commas, the text gives back every issue in order: the
      first as `#n`, each later one as ` #n`. */
  function LinkedText(issues: seq<string>): (r: string)
    ensures issues == [] <==> r == "None"
    ensures issues != [] ==>
              StartsWith(r, "#" + issues[0]) && EndsWith(r, "#" + issues[|issues| - 1])
    ensures issues != [] && (forall k :: 0 <= k < |issues| ==> ',' !in issues[k]) ==>
              var pieces := SplitOn(r, ',');
              |pieces| == |issues| && pieces[0] == "#" + issues[0]
              && forall k :: 1 <= k < |issues| ==> pieces[k] == " #" + issues[k]
  {
    if issues == [] then "None"
    else
      var r := Join(", ", Prefixed("#", issues));
      JoinEnds(", ", Prefixed("#", issues));
      assert r[0] == '#';
      HashedListSplits(issues);
      r
  }

  /** `", ".join` of the `#n` texts, split at the commas. */
  lemma HashedListSplits(issues: seq<string>)
    requires issues != []
    ensures (forall k :: 0 <= k < |issues| ==> ',' !in issues[k]) ==>
            var pieces := SplitOn(Join(", ", Prefixed("#", issues)), ',');
            |pieces| == |issues| && pieces[0] == "#" + issues[0]
            && forall k :: 1 <= k < |issues| ==> pieces[k] == " #" + issues[k]
  {
    if forall k :: 0 <= k < |issues| ==> ',' !in issues[k] {
      var parts := Prefixed("#", issues);
      assert ", " == [','] + " ";
      JoinWideSep(',', " ", parts);
      var pieces := [parts[0]] + Prefixed(" ", parts[1..]);
      forall k | 1 <= k < |issues| ensures pieces[k] == " #" + issues[k] {
        assert pieces[k] == " " + parts[k];
        SpaceHash(issues[k]);
      }
      PiecesCommaFree(issues, pieces);
      SplitJoin(pieces, ',');
    }
  }

  lemma SpaceHash(x: string)
    ensures " " + ("#" + x) == " #" + x
  {
    assert " #" == " " + "#";
  }

  lemma PiecesCommaFree(issues: seq<string>, pieces: seq<string>)
    requires |pieces| == |issues| > 0 && pieces[0] == "#" + issues[0]
    requires forall k :: 1 <= k < |issues| ==> pieces[k] == " #" + issues[k]
    requires forall k :: 0 <= k < |issues| ==> ',' !in issues[k]
    ensures forall k :: 0 <= k < |pieces| ==> ',' !in pieces[k]
  {
  }

  /** The linked issues are digit runs, so none holds a comma and the
      rendered list splits back into them. */
  lemma LinkedIssuesCommaFree(body: string)
    ensures forall k :: 0 <= k < |LinkedIssues(body)| ==> ',' !in LinkedIssues(body)[k]
  {
    var r := LinkedIssues(body);
    forall k | 0 <= k < |r| ensures ',' !in r[k] {
      var d := r[k];
      assert d in r;
      var i :| RefAt(body, i, d);
      forall j | 0 <= j < |d| ensures d[j] != ',' {
        assert d[j] == body[i + 1..][j];
        assert IsDigit(d[j]);
      }
    }
  }

  // ---------------------------------------------------------------------------
  // Change totals and the file summary

  function CountOr0(c: Option<nat>): nat {
    if c.Some? then c.value else 0
  }

  /** `sum(f.get("additions", 0) for f in files)`. */
  function TotalAdditions(files: seq<PrFile>): nat {
    if files == [] then 0 else CountOr0(files[0].additions) + TotalAdditions(files[1..])
  }

  /** `sum(f.get("deletions", 0) for f in files)`. */
  function TotalDeletions(files: seq<PrFile>): nat {
    if files == [] then 0 else CountOr0(files[0].deletions) + TotalDeletions(files[1..])
  }

  /** Both totals add up over a split of the file list. */
  lemma {:induction false} TotalsAppend(a: seq<PrFile>, b: seq<PrFile>)
    ensures TotalAdditions(a + b) == TotalAdditions(a) + TotalAdditions(b)
    ensures TotalDeletions(a + b) == TotalDeletions(a) + TotalDeletions(b)
    decreases |a|
  {
    if a == [] {
      assert a + b == b;
    } else {
      assert (a + b)[0] == a[0] && (a + b)[1..] == a[1..] + b;
      TotalsAppend(a[1..], b);
    }
  }

  predicate HasCounts(f: PrFile) {
    f.additions.Some? && f.deletions.Some?
  }

  /** `f"  • {f['filename']} (+{f['additions']}/−{f['deletions']})"`. */
  function FileLine(f: PrFile): string
    requires HasCounts(f)
  {
    "  • " + f.filename + " (+" + NatToString(f.additions.value) + "/−"
    + NatToString(f.deletions.value) + ")"
  }

  /** The key whose `[]` lookup raises first on a file lacking a count. */
  function MissingKeyOf(f: PrFile): string {
    if f.additions.None? then "'additions'" else "'deletions'"
  }

  /** A rendered value, or the KeyError raised while rendering it. */
  datatype Outcome<T> = Done(value: T) | KeyError(key: string)

  /** The lines of the top files, or the KeyError of the first file that lacks
      a count. */
  function TopFileLines(top: seq<PrFile>): (r: Outcome<seq<string>>)
    ensures r.Done? <==> forall k :: 0 <= k < |top| ==> HasCounts(top[k])
    ensures r.Done? ==> |r.value| == |top| && forall k :: 0 <= k < |top| ==> r.value[k] == FileLine(top[k])
    ensures r.KeyError? ==> exists k :: 0 <= k < |top| && !HasCounts(top[k])
                                        && (forall j :: 0 <= j < k ==> HasCounts(top[j]))
                                        && r.key == MissingKeyOf(top[k])
  {
    if top == [] then Done([])
    else if !HasCounts(top[0]) then
      KeyError(MissingKeyOf(top[0]))
    else
      var rest := TopFileLines(top[1..]);
      if rest.KeyError? then
        var k :| 0 <= k < |top[1..]| && !HasCounts(top[1..][k])
                 && (forall j :: 0 <= j < k ==> HasCounts(top[1..][j]))
                 && rest.key == MissingKeyOf(top[1..][k]);
        assert !HasCounts(top[k + 1]) && forall j :: 0 <= j < k + 1 ==> HasCounts(top[j]);
        rest
      else
        Done([FileLine(top[0])] + rest.value)
  }

  /** `f"  • ...and {file_count - 5} more files."` */
  function MoreLine(fileCount: nat): string
    requires fileCount > 5
  {
    "  • ...and " + NatToString(fileCount - 5) + " more files."
  }

  /** `files_summary`: the first five file lines joined by newlines, plus the
      "...and N more" line when there are more than five files. */
  function FilesSummary(files: seq<PrFile>): Outcome<string> {
    var top := TopFileLines(Take(files, 5));
    if top.KeyError? then KeyError(top.key)
    else if |files| > 5 then Done(Join("\n", top.value) + "\n" + MoreLine(|files|))
    else Done(Join("\n", top.value))
  }

  /** The lines of the file summary: one per file for the first five, then
      one "more" line exactly when there are more than five files. */
  function SummaryLines(files: seq<PrFile>): (r: seq<string>)
    requires forall k :: 0 <= k < |files| && k < 5 ==> HasCounts(files[k])
    ensures |r| == Min(|files|, 5) + (if |files| > 5 then 1 else 0) && |r| <= 6
    ensures forall k :: 0 <= k < Min(|files|, 5) ==> r[k] == FileLine(files[k])
    ensures |files| > 5 ==> r[5] == MoreLine(|files|)
  {
    var top := seq(Min(|files|, 5), k requires 0 <= k < Min(|files|, 5) => FileLine(files[k]));
    if |files| > 5 then top + [MoreLine(|files|)] else top
  }

  /** When the first five files have both counts, the file summary is the
      newline-join of SummaryLines; otherwise it is the KeyError of the first
      file that lacks one. */
  lemma FilesSummaryIsJoin(files: seq<PrFile>)
    requires forall k :: 0 <= k < |files| && k < 5 ==> HasCounts(files[k])
    ensures FilesSummary(files) == Done(Join("\n", SummaryLines(files)))
  {
    var top := TopFileLines(Take(files, 5));
    assert top.Done?;
    var lines := SummaryLines(files);
    if |files| > 5 {
      assert top.value == lines[..5];
      assert lines == top.value + [MoreLine(|files|)];
      JoinSnoc("\n", top.value, MoreLine(|files|));
    } else {
      assert top.value == lines;
    }
  }

  // ---------------------------------------------------------------------------
  // Checklist, description and the whole text

  /** The seven fixed checklist items after the first. */
  // Each item is written in short pieces so that the verifier can see at a
  // glance that it holds no line break.
  const Item2 := "[ ] Code changes " + "look focused " + "and minimal"
  const Item3 := "[ ] Naming and " + "style follow " + "repo conventions"
  const Item4 := "[ ] Edge cases " + "and error " + "handling covered"
  const Item5 := "[ ] Tests added " + "or updated for " + "new behavior"
  const Item6 := "[ ] Documentation " + "or README " + "updates included"
  const Item7 := "[ ] No high-risk " + "performance or " + "security regressions"
  const Item8 := "[ ] CI passing " + "and no merge " + "conflicts"
  const FirstItemLabel := "[ ] PR addresses " + "issue(s): "
  const FixedItems: seq<string> := [Item2, Item3, Item4, Item5, Item6, Item7, Item8]

  /** The eight checklist items; the first names the linked issues. */
  function ChecklistItems(linked: string): (r: seq<string>)
    ensures |r| == 8 && r[0] == FirstItemLabel + linked && r[1..] == FixedItems
  {
    [FirstItemLabel + linked] + FixedItems
  }

  /** `checklist_str`. */
  function ChecklistText(linked: string): string {
    Join("\n", Prefixed("- ", ChecklistItems(linked)))
  }

  /** No fixed item spans two lines. */
  lemma FixedItemsOneLine()
    ensures forall k :: 0 <= k < |FixedItems| ==> '\n' !in FixedItems[k]
  {
    Item2OneLine(); Item3OneLine(); Item4OneLine(); Item5OneLine();
    Item6OneLine(); Item7OneLine(); Item8OneLine();
  }

  lemma Item2OneLine() ensures '\n' !in Item2 { }
  lemma Item3OneLine() ensures '\n' !in Item3 { }
  lemma Item4OneLine() ensures '\n' !in Item4 { }
  lemma Item5OneLine() ensures '\n' !in Item5 { }
  lemma Item6OneLine() ensures '\n' !in Item6 { }
  lemma Item7OneLine() ensures '\n' !in Item7 { }
  lemma Item8OneLine() ensures '\n' !in Item8 { }

  /** The checklist is always eight lines, the first naming the linked issues
      and the rest the fixed items, each behind "- ". */
  lemma ChecklistLines(linked: string)
    requires '\n' !in linked
    ensures SplitOn(ChecklistText(linked), '\n') == Prefixed("- ", ChecklistItems(linked))
    ensures |SplitOn(ChecklistText(linked), '\n')| == 8
  {
    var items := Prefixed("- ", ChecklistItems(linked));
    FixedItemsOneLine();
    forall k | 0 <= k < |items| ensures '\n' !in items[k] {
      if k == 0 {
        FirstItemOneLine(linked);
      } else {
        assert items[k] == "- " + FixedItems[k - 1];
      }
    }
    SplitJoin(items, '\n');
  }

  lemma FirstItemOneLine(linked: string)
    requires '\n' !in linked
    ensures '\n' !in "- " + ChecklistItems(linked)[0]
  {
    assert '\n' !in "- " + FirstItemLabel;
    assert "- " + ChecklistItems(linked)[0] == ("- " + FirstItemLabel) + linked;
  }

  /** `body.strip()[:300] or '<no description>'`. */
  function Description(body: string): (r: string)
    ensures Strip(body) == [] ==> r == "<no description>"
    ensures Strip(body) != [] ==> |r| == Min(300, |Strip(body)|) && StartsWith(Strip(body), r)
  {
    var d := Take(Strip(body), 300);
    if d == [] then "<no description>" else d
  }

  const ReviewTitle := "🔍 PR Review Summary\n"

  /** Everything between the title and the linked-issues line. */
  function HeaderBody(pr: PullRecord): string {
    Repeat('-', 20) + "\n"
    + "🔀 PR #" + NatToString(pr.number) + ": " + ShowText(pr.title, "<no title>") + "\n"
    + "👤 Author: @" + pr.login + "\n"
    + "🔗 URL: " + pr.htmlUrl + "\n\n"
    + "📝 Description:\n" + Description(BodyText(pr.body)) + "\n\n"
  }

  function LinkedLine(linked: string): string {
    "📎 Linked issues: " + linked + "\n"
  }

  function ChangesSection(fileCount: nat, adds: nat, dels: nat, filesSummary: string): string {
    "🗂️ Files changed: " + NatToString(fileCount) + "   (+" + NatToString(adds) + "/−"
    + NatToString(dels) + ")\n" + filesSummary + "\n\n"
  }

  const ChecklistTitle := "🛠️ Review Checklist\n"

  /** The review text of a PR record, its files' totals and file summary. */
  function ReviewText(pr: PullRecord, files: seq<PrFile>, filesSummary: string): string {
    var linked := LinkedText(LinkedIssues(BodyText(pr.body)));
    ReviewTitle + (HeaderBody(pr) + (LinkedLine(linked)
    + (ChangesSection(|files|, TotalAdditions(files), TotalDeletions(files), filesSummary)
    + (ChecklistTitle + ChecklistText(linked)))))
  }

  /** The review starts with its title line, shows the linked-issues line and
      ends with the checklist that names the same linked issues. */
  lemma ReviewTextShape(pr: PullRecord, files: seq<PrFile>, filesSummary: string)
    ensures var text := ReviewText(pr, files, filesSummary);
            var linked := LinkedText(LinkedIssues(BodyText(pr.body)));
            StartsWith(text, ReviewTitle)
            && Contains(text, LinkedLine(linked))
            && EndsWith(text, ChecklistText(linked))
  {
    var linked := LinkedText(LinkedIssues(BodyText(pr.body)));
    var h := HeaderBody(pr);
    var l := LinkedLine(linked);
    var c := ChangesSection(|files|, TotalAdditions(files), TotalDeletions(files), filesSummary);
    var x := ChecklistText(linked);
    var t4 := ChecklistTitle + x;
    var t3 := c + t4;
    var t2 := l + t3;
    var t1 := h + t2;
    StartsWithConcat(ReviewTitle, t1);
    ContainsPrefix(l, t3);
    ContainsInSuffix(h, t2, l);
    ContainsInSuffix(ReviewTitle, t1, l);
    EndsWithConcat(ChecklistTitle, x);
    EndsWithConcat(c, t4);
    EndsWithConcat(l, t3);
    EndsWithConcat(h, t2);
    EndsWithConcat(ReviewTitle, t1);
    EndsWithTrans(t3, t4, x);
    EndsWithTrans(t2, t3, x);
    EndsWithTrans(t1, t2, x);
    EndsWithTrans(ReviewTitle + t1, t1, x);
  }

  // ---------------------------------------------------------------------------
  // The tool

  /** `_review_pr(pr_url)`. */
  function ReviewPr(prUrl: string, getPull: string -> Response<PullRecord>,
                    getFiles: string -> Response<seq<PrFile>>): (r: ToolOutput)
    ensures MatchPrRef(Strip(prUrl)).None? ==> r == Returned(InvalidPrUrl)
    ensures MatchPrRef(Strip(prUrl)).Some? ==>
              var (o, rp, n) := MatchPrRef(Strip(prUrl)).value;
              var meta := getPull(PullApiUrl(o, rp, n));
              var files := getFiles(FilesApiUrl(o, rp, n));
              (meta.Raised? ==> r == Escaped(meta.message))
              && (meta.Reply? && meta.status != 200 ==>
                    r == Returned("Failed to fetch PR: " + NatToString(meta.status)))
              && (meta.Reply? && meta.status == 200 && files.Raised? ==> r == Escaped(files.message))
              && (meta.Reply? && meta.status == 200 && files.Reply? && files.status != 200 ==>
                    r == Returned("Failed to fetch PR files: " + NatToString(files.status)))
              && (meta.Reply? && meta.status == 200 && files.Reply? && files.status == 200 ==>
                    var summary := FilesSummary(files.json);
                    r == if summary.KeyError? then Escaped(summary.key)
                         else Returned(ReviewText(meta.json, files.json, summary.value)))
  {
    var m := MatchPrRef(Strip(prUrl));
    if m.None? then Returned(InvalidPrUrl)
    else
      var (o, rp, n) := m.value;
      var meta := getPull(PullApiUrl(o, rp, n));
      if meta.Raised? then Escaped(meta.message)
      else if meta.status != 200 then Returned("Failed to fetch PR: " + NatToString(meta.status))
      else
        var files := getFiles(FilesApiUrl(o, rp, n));
        if files.Raised? then Escaped(files.message)
        else if files.status != 200 then Returned("Failed to fetch PR files: " + NatToString(files.status))
        else
          var summary := FilesSummary(files.json);
          if summary.KeyError? then Escaped(summary.key)
          else Returned(ReviewText(meta.json, files.json, summary.value))
  }

  /** An invalid URL is answered without any fetch: the result is the same
      whatever the API would have answered. */
  lemma ReviewInvalidUrlFetchesNothing(prUrl: string,
                                       getPull1: string -> Response<PullRecord>, getFiles1: string -> Response<seq<PrFile>>,
                                       getPull2: string -> Response<PullRecord>, getFiles2: string -> Response<seq<PrFile>>)
    requires MatchPrRef(Strip(prUrl)).None?
    ensures ReviewPr(prUrl, getPull1, getFiles1) == ReviewPr(prUrl, getPull2, getFiles2)
  {
  }

  /** When the PR itself cannot be fetched, the files are not asked for. */
  lemma ReviewMetaFailureSkipsFiles(prUrl: string, getPull: string -> Response<PullRecord>,
                                    getFiles1: string -> Response<seq<PrFile>>,
                                    getFiles2: string -> Response<seq<PrFile>>)
    requires MatchPrRef(Strip(prUrl)).Some?
    requires var (o, rp, n) := MatchPrRef(Strip(prUrl)).value;
             var meta := getPull(PullApiUrl(o, rp, n));
             meta.Raised? || meta.status != 200
    ensures ReviewPr(prUrl, getPull, getFiles1) == ReviewPr(prUrl, getPull, getFiles2)
  {
  }
}
