/** The top-issues tool (`_list_top_issues`): parses a repository URL,
    asks the API for the open issues with the most comments, drops the
    entries that are pull requests and numbers the rest. The API call is an
    oracle from the request (URL and query parameters) to the response. */
module TopIssues {
  import opened Text
  import opened Http
  import opened UrlRefs
  import opened Wrappers

  /** An entry of the issues listing: the keys read with `[]`, and whether
      the entry carries a `pull_request` key. */
  datatype IssueItem = IssueItem(number: nat, title: string, comments: nat, isPullRequest: bool)

  const InvalidUrl := "Invalid GitHub repo URL. Format: https://github.com/owner/repo"
  const NoneFound := "No open issues found."
  /** The limit the registered tool passes. */
  const ToolLimit := 10

  function Params(limit: nat): seq<(string, string)> {
    [("state", "open"), ("per_page", NatToString(limit)), ("sort", "comments"), ("direction", "desc")]
  }

  function IssuesRequest(owner: string, repo: string, limit: nat): Request {
    Request(RepoApiUrl(owner, repo) + "/issues", Params(limit))
  }

  /** `[i for i in items if "pull_request" not in i]`. */
  function DropPullRequests(items: seq<IssueItem>): (r: seq<IssueItem>)
    ensures |r| <= |items|
    ensures forall k :: 0 <= k < |r| ==> !r[k].isPullRequest
  {
    if items == [] then []
    else if items[0].isPullRequest then DropPullRequests(items[1..])
    else [items[0]] + DropPullRequests(items[1..])
  }

  /** The filter keeps order: filtering a concatenation filters each part. */
  lemma {:induction false} DropDistributes(a: seq<IssueItem>, b: seq<IssueItem>)
    ensures DropPullRequests(a + b) == DropPullRequests(a) + DropPullRequests(b)
    decreases |a|
  {
    if a != [] {
      assert (a + b)[1..] == a[1..] + b;
      DropDistributes(a[1..], b);
    } else {
      assert a + b == b;
    }
  }

  /** An entry survives the filter exactly when it is not a pull request. */
  lemma {:induction false} DropMembership(items: seq<IssueItem>, x: IssueItem)
    ensures x in DropPullRequests(items) <==> x in items && !x.isPullRequest
    decreases |items|
  {
    if items != [] {
      DropMembership(items[1..], x);
      assert items == [items[0]] + items[1..];
    }
  }

  /** A listing without pull requests passes unchanged. */
  lemma {:induction false} DropKeepsIssues(items: seq<IssueItem>)
    requires forall k :: 0 <= k < |items| ==> !items[k].isPullRequest
    ensures DropPullRequests(items) == items
    decreases |items|
  {
    if items != [] {
      DropKeepsIssues(items[1..]);
    }
  }

  function Header(count: nat, owner: string, repo: string): string {
    "🔥 Top " + NatToString(count) + " Open Issues in " + owner + "/" + repo + ":"
  }

  function IssueLine(idx: nat, issue: IssueItem): string {
    NatToString(idx) + ". #" + NatToString(issue.number) + " - " + issue.title
    + " (" + NatToString(issue.comments) + " comments)"
  }

  /** The lines of the reply: the header, then the issues numbered from 1. */
  function Lines(owner: string, repo: string, issues: seq<IssueItem>): (r: seq<string>)
    ensures |r| == |issues| + 1 && r[0] == Header(|issues|, owner, repo)
    ensures forall k :: 1 <= k < |r| ==> r[k] == IssueLine(k, issues[k - 1])
  {
    [Header(|issues|, owner, repo)] + seq(|issues|, k requires 0 <= k < |issues| => IssueLine(k + 1, issues[k]))
  }

  /** What the tool replies, as a function of the URL, the limit and the API. */
  function TopIssuesText(repoUrl: string, limit: nat, get: Request -> Response<seq<IssueItem>>): string {
    var m := ExtractOwnerRepo(repoUrl);
    if m.None? then InvalidUrl
    else
      var (o, rp) := m.value;
      var res := get(IssuesRequest(o, rp, limit));
      if res.Raised? then "Error retrieving issues: " + res.message
      else if res.status != 200 then "Issue fetch failed: " + NatToString(res.status)
      else
        var issues := DropPullRequests(res.json);
        if issues == [] then NoneFound else Join("\n", Lines(o, rp, issues))
  }

  /** `_list_top_issues`, building the lines in a counting loop. */
  method ListTopIssues(repoUrl: string, limit: nat, get: Request -> Response<seq<IssueItem>>)
    returns (r: string)
    ensures r == TopIssuesText(repoUrl, limit, get)
  {
    var m := ExtractOwnerRepo(repoUrl);
    if m.None? {
      return InvalidUrl;
    }
    var (o, rp) := m.value;
    var res := get(IssuesRequest(o, rp, limit));
    if res.Raised? {
      return "Error retrieving issues: " + res.message;
    }
    if res.status != 200 {
      return "Issue fetch failed: " + NatToString(res.status);
    }
    var issues := DropPullRequests(res.json);
    if issues == [] {
      return NoneFound;
    }
    var lines := BuildLines(o, rp, issues);
    r := Join("\n", lines);
  }

  /** The counting loop: the header, then one numbered line per entry. */
  method BuildLines(owner: string, repo: string, issues: seq<IssueItem>) returns (lines: seq<string>)
    ensures lines == Lines(owner, repo, issues)
  {
    lines := [Header(|issues|, owner, repo)];
    var idx := 0;
    while idx < |issues|
      invariant 0 <= idx <= |issues|
      invariant lines == Lines(owner, repo, issues)[..idx + 1]
    {
      lines := lines + [IssueLine(idx + 1, issues[idx])];
      idx := idx + 1;
    }
  }

  /** The registered tool: always a limit of 10. */
  method ListTopIssuesTool(repoUrl: string, get: Request -> Response<seq<IssueItem>>)
    returns (r: string)
    ensures r == TopIssuesText(repoUrl, ToolLimit, get)
  {
    r := ListTopIssues(repoUrl, ToolLimit, get);
  }

  /** The request the tool makes: the repository's issues, open only, most
      commented first, `limit` per page. */
  lemma RequestParams(repoUrl: string, limit: nat, get: Request -> Response<seq<IssueItem>>)
    requires ExtractOwnerRepo(repoUrl).Some?
    ensures var (o, rp) := ExtractOwnerRepo(repoUrl).value;
            var req := IssuesRequest(o, rp, limit);
            req.url == ApiRepos + "/" + o + "/" + rp + "/issues"
            && req.params == [("state", "open"), ("per_page", NatToString(limit)),
                              ("sort", "comments"), ("direction", "desc")]
            && DigitsValue(req.params[1].1) == limit
  {
    NatToStringRoundTrip(limit);
  }

  /** With k issues left after the filter, and one-line titles, the reply has
      k + 1 lines: the header stating k and owner/repo, then the issues
      numbered 1..k in the order of the response. */
  lemma ListingLines(owner: string, repo: string, issues: seq<IssueItem>)
    requires '\n' !in owner && '\n' !in repo
    requires forall k :: 0 <= k < |issues| ==> '\n' !in issues[k].title
    ensures var lines := SplitOn(Join("\n", Lines(owner, repo, issues)), '\n');
            |lines| == |issues| + 1
            && lines[0] == Header(|issues|, owner, repo)
            && forall k :: 0 <= k < |issues| ==>
                 StartsWith(lines[k + 1], NatToString(k + 1) + ". #" + NatToString(issues[k].number))
  {
    var lines := Lines(owner, repo, issues);
    LinesOneLine(owner, repo, issues);
    SplitJoin(lines, '\n');
    LinesStart(owner, repo, issues);
  }

  /** Line k + 1 of the reply starts with k + 1 and the k-th issue's number. */
  lemma LinesStart(owner: string, repo: string, issues: seq<IssueItem>)
    ensures forall k :: 0 <= k < |issues| ==>
              StartsWith(Lines(owner, repo, issues)[k + 1], NatToString(k + 1) + ". #" + NatToString(issues[k].number))
  {
    var lines := Lines(owner, repo, issues);
    forall k | 0 <= k < |issues|
      ensures StartsWith(lines[k + 1], NatToString(k + 1) + ". #" + NatToString(issues[k].number))
    {
      IssueLineStart(k + 1, issues[k]);
    }
  }

  /** Each line of the reply is one line of text. */
  lemma LinesOneLine(owner: string, repo: string, issues: seq<IssueItem>)
    requires '\n' !in owner && '\n' !in repo
    requires forall k :: 0 <= k < |issues| ==> '\n' !in issues[k].title
    ensures forall k :: 0 <= k < |Lines(owner, repo, issues)| ==> '\n' !in Lines(owner, repo, issues)[k]
  {
    var lines := Lines(owner, repo, issues);
    forall k | 0 <= k < |lines| ensures '\n' !in lines[k] {
      if k == 0 {
        HeaderOneLine(|issues|, owner, repo);
      } else {
        IssueLineOneLine(k, issues[k - 1]);
      }
    }
  }

  lemma HeaderOneLine(count: nat, owner: string, repo: string)
    requires '\n' !in owner && '\n' !in repo
    ensures '\n' !in Header(count, owner, repo)
  {
    DigitsOneLine(NatToString(count));
  }

  lemma IssueLineStart(idx: nat, issue: IssueItem)
    ensures StartsWith(IssueLine(idx, issue), NatToString(idx) + ". #" + NatToString(issue.number))
  {
    var p := NatToString(idx) + ". #" + NatToString(issue.number);
    assert IssueLine(idx, issue) == p + (" - " + issue.title + " (" + NatToString(issue.comments) + " comments)");
    assert IssueLine(idx, issue)[..|p|] == p;
  }

  lemma IssueLineOneLine(idx: nat, issue: IssueItem)
    requires '\n' !in issue.title
    ensures '\n' !in IssueLine(idx, issue)
  {
    DigitsOneLine(NatToString(idx));
    DigitsOneLine(NatToString(issue.number));
    DigitsOneLine(NatToString(issue.comments));
  }

  /** When every entry is a pull request, the reply is exactly the
      not-found text. */
  lemma OnlyPullRequests(repoUrl: string, limit: nat, get: Request -> Response<seq<IssueItem>>)
    requires ExtractOwnerRepo(repoUrl).Some?
    requires var (o, rp) := ExtractOwnerRepo(repoUrl).value;
             var res := get(IssuesRequest(o, rp, limit));
             res.Reply? && res.status == 200 && forall k :: 0 <= k < |res.json| ==> res.json[k].isPullRequest
    ensures TopIssuesText(repoUrl, limit, get) == NoneFound
  {
    var (o, rp) := ExtractOwnerRepo(repoUrl).value;
    var items := get(IssuesRequest(o, rp, limit)).json;
    if DropPullRequests(items) != [] {
      var x := DropPullRequests(items)[0];
      DropMembership(items, x);
    }
  }

  /** An invalid URL is answered without any fetch. */
  lemma InvalidUrlFetchesNothing(repoUrl: string, limit: nat,
                                 get1: Request -> Response<seq<IssueItem>>,
                                 get2: Request -> Response<seq<IssueItem>>)
    requires ExtractOwnerRepo(repoUrl).None?
    ensures TopIssuesText(repoUrl, limit, get1) == TopIssuesText(repoUrl, limit, get2) == InvalidUrl
  {
  }
}
