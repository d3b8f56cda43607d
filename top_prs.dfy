/** The top-PRs tool (`_list_top_prs`): parses a repository URL, asks the
    API for the newest open pull requests and numbers them with their
    authors. The API call is an oracle from the request to the response. */
module TopPrs {
  import opened Text
  import opened Http
  import opened UrlRefs
  import opened Wrappers

  /** An entry of the pulls listing: the keys read with `[]`. */
  datatype PrItem = PrItem(number: nat, title: string, login: string)

  const InvalidUrl := "Invalid GitHub repo URL. Format: https://github.com/owner/repo"
  const NoneFound := "No open pull requests found."
  /** The limit the registered tool passes. */
  const ToolLimit := 10

  function Params(limit: nat): seq<(string, string)> {
    [("state", "open"), ("per_page", NatToString(limit)), ("sort", "created"), ("direction", "desc")]
  }

  function PullsRequest(owner: string, repo: string, limit: nat): Request {
    Request(RepoApiUrl(owner, repo) + "/pulls", Params(limit))
  }

  function Header(count: nat, owner: string, repo: string): string {
    "🚀 Top " + NatToString(count) + " Open PRs in " + owner + "/" + repo + ":"
  }

  function PrLine(idx: nat, pr: PrItem): string {
    NatToString(idx) + ". #" + NatToString(pr.number) + " - " + pr.title + " (by @" + pr.login + ")"
  }

  /** The lines of the reply: the header, then the PRs numbered from 1. */
  function Lines(owner: string, repo: string, prs: seq<PrItem>): (r: seq<string>)
    ensures |r| == |prs| + 1 && r[0] == Header(|prs|, owner, repo)
    ensures forall k :: 1 <= k < |r| ==> r[k] == PrLine(k, prs[k - 1])
  {
    [Header(|prs|, owner, repo)] + seq(|prs|, k requires 0 <= k < |prs| => PrLine(k + 1, prs[k]))
  }

  /** What the tool replies, as a function of the URL, the limit and the API. */
  function TopPrsText(repoUrl: string, limit: nat, get: Request -> Response<seq<PrItem>>): string {
    var m := ExtractOwnerRepo(repoUrl);
    if m.None? then InvalidUrl
    else
      var (o, rp) := m.value;
      var res := get(PullsRequest(o, rp, limit));
      if res.Raised? then "Error retrieving PRs: " + res.message
      else if res.status != 200 then "PR fetch failed: " + NatToString(res.status)
      else if res.json == [] then NoneFound
      else Join("\n", Lines(o, rp, res.json))
  }

  /** `_list_top_prs`, building the lines in a counting loop. */
  method ListTopPrs(repoUrl: string, limit: nat, get: Request -> Response<seq<PrItem>>)
    returns (r: string)
    ensures r == TopPrsText(repoUrl, limit, get)
  {
    var m := ExtractOwnerRepo(repoUrl);
    if m.None? {
      return InvalidUrl;
    }
    var (o, rp) := m.value;
    var res := get(PullsRequest(o, rp, limit));
    if res.Raised? {
      return "Error retrieving PRs: " + res.message;
    }
    if res.status != 200 {
      return "PR fetch failed: " + NatToString(res.status);
    }
    var prs := res.json;
    if prs == [] {
      return NoneFound;
    }
    var lines := BuildLines(o, rp, prs);
    r := Join("\n", lines);
  }

  /** The counting loop: the header, then one numbered line per entry. */
  method BuildLines(owner: string, repo: string, prs: seq<PrItem>) returns (lines: seq<string>)
    ensures lines == Lines(owner, repo, prs)
  {
    lines := [Header(|prs|, owner, repo)];
    var idx := 0;
    while idx < |prs|
      invariant 0 <= idx <= |prs|
      invariant lines == Lines(owner, repo, prs)[..idx + 1]
    {
      lines := lines + [PrLine(idx + 1, prs[idx])];
      idx := idx + 1;
    }
  }

  /** The registered tool: always a limit of 10. */
  method ListTopPrsTool(repoUrl: string, get: Request -> Response<seq<PrItem>>)
    returns (r: string)
    ensures r == TopPrsText(repoUrl, ToolLimit, get)
  {
    r := ListTopPrs(repoUrl, ToolLimit, get);
  }

  /** The request the tool makes: the repository's pulls, open only, newest
      first, `limit` per page. */
  lemma RequestParams(repoUrl: string, limit: nat)
    requires ExtractOwnerRepo(repoUrl).Some?
    ensures var (o, rp) := ExtractOwnerRepo(repoUrl).value;
            var req := PullsRequest(o, rp, limit);
            req.url == ApiRepos + "/" + o + "/" + rp + "/pulls"
            && req.params == [("state", "open"), ("per_page", NatToString(limit)),
                              ("sort", "created"), ("direction", "desc")]
            && DigitsValue(req.params[1].1) == limit
  {
    NatToStringRoundTrip(limit);
  }

  /** With k PRs, one-line titles and logins, the reply has k + 1 lines: the
      header stating k and owner/repo, then the PRs numbered 1..k in the
      order of the response, each ending with its author. */
  lemma ListingLines(owner: string, repo: string, prs: seq<PrItem>)
    requires '\n' !in owner && '\n' !in repo
    requires forall k :: 0 <= k < |prs| ==> '\n' !in prs[k].title && '\n' !in prs[k].login
    ensures var lines := SplitOn(Join("\n", Lines(owner, repo, prs)), '\n');
            |lines| == |prs| + 1
            && lines[0] == Header(|prs|, owner, repo)
            && forall k :: 0 <= k < |prs| ==>
                 StartsWith(lines[k + 1], NatToString(k + 1) + ". #" + NatToString(prs[k].number))
                 && EndsWith(lines[k + 1], "(by @" + prs[k].login + ")")
  {
    var lines := Lines(owner, repo, prs);
    LinesOneLine(owner, repo, prs);
    SplitJoin(lines, '\n');
    LinesShape(owner, repo, prs);
  }

  /** Line k + 1 of the reply starts with k + 1 and the k-th PR's number and
      ends with its author. */
  lemma LinesShape(owner: string, repo: string, prs: seq<PrItem>)
    ensures forall k :: 0 <= k < |prs| ==>
              StartsWith(Lines(owner, repo, prs)[k + 1], NatToString(k + 1) + ". #" + NatToString(prs[k].number))
              && EndsWith(Lines(owner, repo, prs)[k + 1], "(by @" + prs[k].login + ")")
  {
    var lines := Lines(owner, repo, prs);
    forall k | 0 <= k < |prs|
      ensures StartsWith(lines[k + 1], NatToString(k + 1) + ". #" + NatToString(prs[k].number))
      ensures EndsWith(lines[k + 1], "(by @" + prs[k].login + ")")
    {
      PrLineShape(k + 1, prs[k]);
    }
  }

  /** Each line of the reply is one line of text. */
  lemma LinesOneLine(owner: string, repo: string, prs: seq<PrItem>)
    requires '\n' !in owner && '\n' !in repo
    requires forall k :: 0 <= k < |prs| ==> '\n' !in prs[k].title && '\n' !in prs[k].login
    ensures forall k :: 0 <= k < |Lines(owner, repo, prs)| ==> '\n' !in Lines(owner, repo, prs)[k]
  {
    var lines := Lines(owner, repo, prs);
    forall k | 0 <= k < |lines| ensures '\n' !in lines[k] {
      if k == 0 {
        HeaderOneLine(|prs|, owner, repo);
      } else {
        PrLineShape(k, prs[k - 1]);
      }
    }
  }

  lemma HeaderOneLine(count: nat, owner: string, repo: string)
    requires '\n' !in owner && '\n' !in repo
    ensures '\n' !in Header(count, owner, repo)
  {
    DigitsOneLine(NatToString(count));
  }

  /** A PR line starts with its index and number and ends with its author;
      it is one line when the title and login are. */
  lemma PrLineShape(idx: nat, pr: PrItem)
    ensures StartsWith(PrLine(idx, pr), NatToString(idx) + ". #" + NatToString(pr.number))
    ensures EndsWith(PrLine(idx, pr), "(by @" + pr.login + ")")
    ensures '\n' !in pr.title && '\n' !in pr.login ==> '\n' !in PrLine(idx, pr)
  {
    DigitsOneLine(NatToString(idx));
    DigitsOneLine(NatToString(pr.number));
    var line := PrLine(idx, pr);
    var p := NatToString(idx) + ". #" + NatToString(pr.number);
    var e := "(by @" + pr.login + ")";
    assert line == p + (" - " + pr.title + " ") + e;
    assert line[..|p|] == p;
    assert line[|line| - |e|..] == e;
  }

  /** An empty listing gives exactly the not-found text. */
  lemma EmptyListing(repoUrl: string, limit: nat, get: Request -> Response<seq<PrItem>>)
    requires ExtractOwnerRepo(repoUrl).Some?
    requires var (o, rp) := ExtractOwnerRepo(repoUrl).value;
             var res := get(PullsRequest(o, rp, limit));
             res.Reply? && res.status == 200 && res.json == []
    ensures TopPrsText(repoUrl, limit, get) == NoneFound
  {
  }

  /** An invalid URL is answered without any fetch. */
  lemma InvalidUrlFetchesNothing(repoUrl: string, limit: nat,
                                 get1: Request -> Response<seq<PrItem>>,
                                 get2: Request -> Response<seq<PrItem>>)
    requires ExtractOwnerRepo(repoUrl).None?
    ensures TopPrsText(repoUrl, limit, get1) == TopPrsText(repoUrl, limit, get2) == InvalidUrl
  {
  }
}
