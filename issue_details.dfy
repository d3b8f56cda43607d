/** The issue details tool (`github_issue_details`): parses an issue
    reference with the loose issue regex, fetches the issue and renders its
    number, title, the first 1000 characters of its description and its URL.
    Every reply starts with the final-answer prefix, and every failure after
    the parse, a missing key included, comes back as text. */
module IssueDetails {
  import opened Text
  import opened Http
  import opened UrlRefs
  import opened Wrappers

  /** The fields of an issue record the tool reads: `number`, `title` and
      `html_url` with `[]` (a missing key raises), `body` with `.get`. */
  datatype IssueData = IssueData(number: Field<nat>, title: Field<string>,
                                 body: Field<string>, htmlUrl: Field<string>)

  const InvalidMessage := "❌ Invalid format. Use format like https://github.com/owner/repo/issues/123 or https://github.com/owner/repo#123"
  const MaxDescription := 1000

  /** The message of the first exception the reply's f-string raises, in the
      order it reads the record: a `KeyError` for a missing key, a
      `TypeError` for slicing a `null` body. */
  function FirstFailure(d: IssueData): (r: Option<string>)
    ensures r.None? <==>
              !d.number.Missing? && !d.title.Missing? && !d.body.Null? && !d.htmlUrl.Missing?
    ensures d.number.Missing? ==> r == Some("'number'")
    ensures !d.number.Missing? && d.title.Missing? ==> r == Some("'title'")
    ensures !d.number.Missing? && !d.title.Missing? && d.body.Null? ==> r == Some(NoneNotSubscriptable)
    ensures !d.number.Missing? && !d.title.Missing? && !d.body.Null? && d.htmlUrl.Missing? ==>
              r == Some("'html_url'")
  {
    if d.number.Missing? then Some("'number'")
    else if d.title.Missing? then Some("'title'")
    else if d.body.Null? then Some(NoneNotSubscriptable)
    else if d.htmlUrl.Missing? then Some("'html_url'")
    else None
  }

  /** `issue.get('body', 'No description')[:1000]` for a body that is not `null`. */
  function Description(body: Field<string>): (r: string)
    ensures body.Missing? ==> r == "No description"
    ensures body.Present? ==>
              |r| == Min(MaxDescription, |body.value|) && StartsWith(body.value, r)
  {
    if body.Present? then Take(body.value, MaxDescription) else "No description"
  }

  function DetailsText(d: IssueData): string {
    "🧾 Issue #" + (ShowCount(d.number, "") + (": " + (ShowText(d.title, "")
    + ("\n📄 Description: " + (Description(d.body) + ("\n📎 URL: " + ShowText(d.htmlUrl, "")))))))
  }

  /** What follows the final-answer prefix in the reply. */
  function Answer(ref: string, get: string -> Response<IssueData>): (r: string)
    ensures MatchIssueLoose(Strip(ref)).None? ==> r == InvalidMessage
    ensures MatchIssueLoose(Strip(ref)).Some? ==>
              var (o, rp, n) := MatchIssueLoose(Strip(ref)).value;
              var res := get(IssueApiUrl(o, rp, n));
              (res.Raised? ==> r == "❌ Error: " + res.message)
              && (res.Reply? && res.status != 200 ==>
                    r == "❌ Failed to fetch issue details: " + (NatToString(res.status) + (" - " + res.text)))
              && (res.Reply? && res.status == 200 && FirstFailure(res.json).Some? ==>
                    r == "❌ Error: " + FirstFailure(res.json).value)
              && (res.Reply? && res.status == 200 && FirstFailure(res.json).None? ==>
                    r == DetailsText(res.json))
  {
    var m := MatchIssueLoose(Strip(ref));
    if m.None? then InvalidMessage
    else
      var (o, rp, n) := m.value;
      var res := get(IssueApiUrl(o, rp, n));
      if res.Raised? then "❌ Error: " + res.message
      else if res.status != 200 then
        "❌ Failed to fetch issue details: " + (NatToString(res.status) + (" - " + res.text))
      else
        var failure := FirstFailure(res.json);
        if failure.Some? then "❌ Error: " + failure.value
        else DetailsText(res.json)
  }

  /** The tool's reply: every branch writes the final-answer prefix first. */
  function GithubIssueDetails(ref: string, get: string -> Response<IssueData>): string {
    FinalAnswer + Answer(ref, get)
  }

  /** Every reply, whatever the input and the API's answer, starts with the
      final-answer prefix and says something after it. */
  lemma AlwaysFinalAnswer(ref: string, get: string -> Response<IssueData>)
    ensures StartsWith(GithubIssueDetails(ref, get), FinalAnswer)
    ensures |GithubIssueDetails(ref, get)| > |FinalAnswer|
  {
    StartsWithConcat(FinalAnswer, Answer(ref, get));
    assert |Answer(ref, get)| > 0 by {
      var m := MatchIssueLoose(Strip(ref));
      if m.Some? {
        var res := get(IssueApiUrl(m.value.0, m.value.1, m.value.2));
        if res.Reply? && res.status == 200 && FirstFailure(res.json).None? {
          assert DetailsText(res.json)[0] == '🧾';
        }
      }
    }
  }

  /** The description shown is a prefix of at most 1000 characters of the body. */
  lemma DescriptionTruncates(body: string)
    ensures StartsWith(body, Description(Present(body)))
    ensures |Description(Present(body))| <= MaxDescription
    ensures |body| <= MaxDescription ==> Description(Present(body)) == body
  {
  }

  /** The API request is built from the three captured groups: an issue
      reference in either form asks for that repository's issue. */
  lemma RequestFromGroups(secure: bool, o: string, r: string, viaPath: bool, n: string, rest: string,
                          get: string -> Response<IssueData>)
    requires Segment(o) && HashFreeSegment(r) && Number(n) && NoDigitNext(rest)
    requires viaPath || forall k :: 0 <= k < |rest| ==> rest[k] != '#' && rest[k] != '/'
    requires rest == [] || !IsSpace(rest[|rest| - 1])
    ensures var res := get(IssueApiUrl(o, r, n));
            res.Reply? && res.status == 200 && FirstFailure(res.json).None? ==>
              GithubIssueDetails(IssueText(secure, o, r, viaPath, n, rest), get)
              == FinalAnswer + DetailsText(res.json)
  {
    var t := IssueText(secure, o, r, viaPath, n, rest);
    IssueTextTrimmed(secure, o, r, viaPath, n, rest);
    IssueLooseExact(secure, o, r, viaPath, n, rest);
    assert MatchIssueLoose(Strip(t)) == Some((o, r, n));
  }

  /** An invalid reference is answered without any fetch. */
  lemma InvalidRefFetchesNothing(ref: string, get1: string -> Response<IssueData>,
                                 get2: string -> Response<IssueData>)
    requires MatchIssueLoose(Strip(ref)).None?
    ensures GithubIssueDetails(ref, get1) == GithubIssueDetails(ref, get2)
  {
  }
}
