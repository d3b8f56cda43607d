/** The describe-repo tool (`_describe_repo`): parses a repository URL
    with `extract_owner_repo`, fetches the repository and renders a
    five-line summary. Every reply starts with the final-answer prefix. */
module DescribeRepo {
  import opened Text
  import opened Http
  import opened UrlRefs
  import opened Wrappers

  /** The fields of a repository record the tool reads, all with `.get`. */
  datatype RepoData = RepoData(fullName: Field<string>, description: Field<string>,
                               stars: Field<nat>, forks: Field<nat>, openIssues: Field<nat>)

  const InvalidMessage := "❌ Invalid GitHub repo URL. Please provide a URL like https://github.com/owner/repo"

  /** `data.get('description', 'No description') or 'No description'`:
      a missing, `null` or empty description gives the default. */
  function DescriptionText(f: Field<string>): (r: string)
    ensures r != []
    ensures f.Present? && f.value != [] ==> r == f.value
    ensures !(f.Present? && f.value != []) ==> r == "No description"
  {
    if f.Present? && f.value != [] then f.value else "No description"
  }

  function NameLine(d: RepoData): string { "📦 Repository: " + ShowText(d.fullName, "N/A") }
  function DescriptionLine(d: RepoData): string { "📝 Description: " + DescriptionText(d.description) }
  function StarsLine(d: RepoData): string { "⭐ Stars: " + ShowCount(d.stars, "0") }
  function ForksLine(d: RepoData): string { "🍴 Forks: " + ShowCount(d.forks, "0") }
  function IssuesLine(d: RepoData): string { "🐛 Open Issues: " + ShowCount(d.openIssues, "0") }

  /** `summary_payload`. */
  function Summary(d: RepoData): string {
    NameLine(d) + ("\n" + (DescriptionLine(d) + ("\n" + (StarsLine(d)
    + ("\n" + (ForksLine(d) + ("\n" + IssuesLine(d))))))))
  }

  /** What follows the final-answer prefix in the reply. */
  function Answer(repoUrl: string, get: string -> Response<RepoData>): (r: string)
    ensures ExtractOwnerRepo(repoUrl).None? ==> r == InvalidMessage
    ensures ExtractOwnerRepo(repoUrl).Some? ==>
              var (o, rp) := ExtractOwnerRepo(repoUrl).value;
              var res := get(RepoApiUrl(o, rp));
              (res.Raised? ==> r == "❌ Error: " + res.message)
              && (res.Reply? && res.status != 200 ==>
                    r == "❌ Failed to fetch repo info: " + (NatToString(res.status) + (" - " + res.text)))
              && (res.Reply? && res.status == 200 ==> r == Summary(res.json))
  {
    var m := ExtractOwnerRepo(repoUrl);
    if m.None? then InvalidMessage
    else
      var (o, rp) := m.value;
      var res := get(RepoApiUrl(o, rp));
      if res.Raised? then "❌ Error: " + res.message
      else if res.status != 200 then
        "❌ Failed to fetch repo info: " + (NatToString(res.status) + (" - " + res.text))
      else Summary(res.json)
  }

  /** The tool's reply: every branch writes the final-answer prefix first. */
  function DescribeRepo(repoUrl: string, get: string -> Response<RepoData>): string {
    FinalAnswer + Answer(repoUrl, get)
  }

  lemma CountOneLine(f: Field<nat>)
    ensures '\n' !in ShowCount(f, "0")
  {
    if f.Present? {
      DigitsOneLine(ShowCount(f, "0"));
    }
  }

  /** When the name and the description are one line each, the summary
      has exactly five lines, in the fixed order. */
  lemma LinesOneLine(d: RepoData)
    requires '\n' !in ShowText(d.fullName, "N/A") && '\n' !in DescriptionText(d.description)
    ensures '\n' !in NameLine(d) && '\n' !in DescriptionLine(d)
    ensures '\n' !in StarsLine(d) && '\n' !in ForksLine(d) && '\n' !in IssuesLine(d)
  {
    CountOneLine(d.stars);
    CountOneLine(d.forks);
    CountOneLine(d.openIssues);
  }

  lemma SummaryFiveLines(d: RepoData)
    requires '\n' !in ShowText(d.fullName, "N/A") && '\n' !in DescriptionText(d.description)
    ensures SplitOn(Summary(d), '\n')
            == [NameLine(d), DescriptionLine(d), StarsLine(d), ForksLine(d), IssuesLine(d)]
  {
    LinesOneLine(d);
    var t4 := ForksLine(d) + ("\n" + IssuesLine(d));
    var t3 := StarsLine(d) + ("\n" + t4);
    var t2 := DescriptionLine(d) + ("\n" + t3);
    SplitOnNone(IssuesLine(d), '\n');
    SplitOnCons(ForksLine(d), '\n', IssuesLine(d));
    SplitOnCons(StarsLine(d), '\n', t4);
    SplitOnCons(DescriptionLine(d), '\n', t3);
    SplitOnCons(NameLine(d), '\n', t2);
  }

  /** Every reply starts with the final-answer prefix and says something after it. */
  lemma AlwaysFinalAnswer(repoUrl: string, get: string -> Response<RepoData>)
    ensures StartsWith(DescribeRepo(repoUrl, get), FinalAnswer)
    ensures |DescribeRepo(repoUrl, get)| > |FinalAnswer|
  {
    StartsWithConcat(FinalAnswer, Answer(repoUrl, get));
    assert |Answer(repoUrl, get)| > 0 by {
      var m := ExtractOwnerRepo(repoUrl);
      if m.Some? {
        var res := get(RepoApiUrl(m.value.0, m.value.1));
        if res.Reply? && res.status == 200 {
          assert Summary(res.json)[0] == NameLine(res.json)[0];
        }
      }
    }
  }

  /** A repository URL followed by nothing or by a path asks the API for that
      repository. */
  lemma RequestFromGroups(secure: bool, o: string, r: string, rest: string,
                          get: string -> Response<RepoData>)
    requires Segment(o) && Segment(r) && PathOrEnd(rest)
    requires !IsSpace((r + rest)[|r + rest| - 1])
    ensures var res := get(RepoApiUrl(o, r));
            res.Reply? && res.status == 200 ==>
              DescribeRepo(RepoText(secure, o, r, rest), get) == FinalAnswer + Summary(res.json)
  {
    var t := RepoText(secure, o, r, rest);
    RepoTextTrimmed(secure, o, r, rest);
    RepoRefComplete(secure, o, r, rest);
    assert ExtractOwnerRepo(t) == Some((o, r));
  }

  /** An invalid URL is answered without any fetch. */
  lemma InvalidUrlFetchesNothing(repoUrl: string, get1: string -> Response<RepoData>,
                                 get2: string -> Response<RepoData>)
    requires ExtractOwnerRepo(repoUrl).None?
    ensures DescribeRepo(repoUrl, get1) == DescribeRepo(repoUrl, get2) == FinalAnswer + InvalidMessage
  {
  }
}
