/** The PR details tool (`_github_pr_details`): parses a PR URL, fetches the
    PR and renders its number, title, URL and the first 1000 characters of
    its description. Everything after the parse sits inside a `try`, so every
    failure comes back as text. */
module PrDetails {
  import opened Text
  import opened Http
  import opened UrlRefs
  import opened Wrappers
  import PrReview

  /** The fields of a PR record the tool reads, all with `.get`. */
  datatype PullData = PullData(number: Field<nat>, title: Field<string>,
                               htmlUrl: Field<string>, body: Field<string>)

  const InvalidUrl := "Invalid PR URL format. Use: https://github.com/owner/repo/pull/123"
  const MaxDescription := 1000
  const ErrorPrefix := "Error retrieving PR: "
  const DescriptionTitle := "📝 Description:"

  /** `data.get('body', 'No description')[:1000]`: the first 1000 characters
      of the body, or no value when the body is `null` (a `TypeError`). */
  function Description(body: Field<string>): (r: Option<string>)
    ensures r.None? <==> body.Null?
    ensures body.Missing? ==> r == Some("No description")
    ensures body.Present? ==>
              |r.value| == Min(MaxDescription, |body.value|) && StartsWith(body.value, r.value)
  {
    match body
    case Missing => Some("No description")
    case Null => None
    case Present(b) => Some(Take(b, MaxDescription))
  }

  function HeadLine(d: PullData): string {
    "🔀 PR #" + (ShowCount(d.number, "None") + (": " + ShowText(d.title, "No title")))
  }

  function UrlLine(d: PullData): string {
    "🔗 URL: " + ShowText(d.htmlUrl, "None")
  }

  /** The reply for a fetched PR whose description is `desc`. */
  function DetailsText(d: PullData, desc: string): string {
    HeadLine(d) + ("\n" + (UrlLine(d) + ("\n" + (DescriptionTitle + ("\n" + desc)))))
  }

  function GithubPrDetails(prUrl: string, get: string -> Response<PullData>): (r: string)
    ensures MatchPrRef(Strip(prUrl)).None? ==> r == InvalidUrl
    ensures MatchPrRef(Strip(prUrl)).Some? ==>
              var (o, rp, n) := MatchPrRef(Strip(prUrl)).value;
              var res := get(PrReview.PullApiUrl(o, rp, n));
              (res.Raised? ==> r == ErrorPrefix + res.message)
              && (res.Reply? && res.status != 200 ==> r == "PR fetch failed: " + NatToString(res.status))
              && (res.Reply? && res.status == 200 && res.json.body.Null? ==>
                    r == ErrorPrefix + NoneNotSubscriptable)
              && (res.Reply? && res.status == 200 && !res.json.body.Null? ==>
                    r == DetailsText(res.json, Description(res.json.body).value))
  {
    var m := MatchPrRef(Strip(prUrl));
    if m.None? then InvalidUrl
    else
      var (o, rp, n) := m.value;
      var res := get(PrReview.PullApiUrl(o, rp, n));
      if res.Raised? then ErrorPrefix + res.message
      else if res.status != 200 then "PR fetch failed: " + NatToString(res.status)
      else
        var desc := Description(res.json.body);
        if desc.None? then ErrorPrefix + NoneNotSubscriptable
        else DetailsText(res.json, desc.value)
  }

  /** When the title and URL are one line each, the reply is exactly the
      head line, the URL line, the description title and then the lines of
      the description. */
  lemma DetailsLines(d: PullData, desc: string)
    requires '\n' !in ShowText(d.title, "No title") && '\n' !in ShowText(d.htmlUrl, "None")
    ensures SplitOn(DetailsText(d, desc), '\n')
            == [HeadLine(d), UrlLine(d), DescriptionTitle] + SplitOn(desc, '\n')
  {
    var num := ShowCount(d.number, "None");
    assert '\n' !in num by {
      if d.number.Present? {
        DigitsOneLine(num);
      }
    }
    assert '\n' !in HeadLine(d);
    assert '\n' !in UrlLine(d);
    SplitOnCons(DescriptionTitle, '\n', desc);
    SplitOnCons(UrlLine(d), '\n', DescriptionTitle + ("\n" + desc));
    SplitOnCons(HeadLine(d), '\n', UrlLine(d) + ("\n" + (DescriptionTitle + ("\n" + desc))));
  }

  /** The reply ends with the description, which is at most 1000 characters
      and a prefix of the body. */
  lemma DetailsEndWithDescription(d: PullData)
    requires !d.body.Null?
    ensures EndsWith(DetailsText(d, Description(d.body).value), Description(d.body).value)
    ensures d.body.Present? ==> |Description(d.body).value| <= MaxDescription
  {
    var desc := Description(d.body).value;
    var tail := "\n" + desc;
    EndsWithConcat("\n", desc);
    EndsWithConcat(DescriptionTitle, tail);
    EndsWithTrans(DescriptionTitle + tail, tail, desc);
    var t2 := "\n" + (DescriptionTitle + tail);
    EndsWithConcat("\n", DescriptionTitle + tail);
    EndsWithTrans(t2, DescriptionTitle + tail, desc);
    var t3 := UrlLine(d) + t2;
    EndsWithConcat(UrlLine(d), t2);
    EndsWithTrans(t3, t2, desc);
    var t4 := "\n" + t3;
    EndsWithConcat("\n", t3);
    EndsWithTrans(t4, t3, desc);
    EndsWithConcat(HeadLine(d), t4);
    EndsWithTrans(HeadLine(d) + t4, t4, desc);
  }

  /** An invalid URL is answered without any fetch. */
  lemma InvalidUrlFetchesNothing(prUrl: string, get1: string -> Response<PullData>,
                                 get2: string -> Response<PullData>)
    requires MatchPrRef(Strip(prUrl)).None?
    ensures GithubPrDetails(prUrl, get1) == GithubPrDetails(prUrl, get2) == InvalidUrl
  {
  }
}
