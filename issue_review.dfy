/** The issue fixer tool (`_github_issue_fixer`): parses an issue reference
    with the strict issue regex, fetches the issue, builds a prompt from its
    title and body and returns what the LLM answers. The fetch and the LLM
    sit in separate `try` blocks; the body is normalised between them, so a
    `null` body raises an exception that escapes the tool. */
module IssueReview {
  import opened Text
  import opened Http
  import opened UrlRefs
  import opened Wrappers

  /** The fields of an issue record the tool reads, both with `.get`. */
  datatype IssueRecord = IssueRecord(title: Field<string>, body: Field<string>)

  /** What `llm.invoke` yields: the reply's content or the message of the
      exception it raised. */
  datatype LlmReply = Content(text: string) | LlmError(message: string)

  const InvalidUrl := "Invalid issue URL. Use https://github.com/owner/repo/issues/123 or https://github.com/owner/repo#123"
  const NoTitle := "<no title>"
  const NoDescription := "<no description>"

  /** The body as the prompt shows it: `issue.get("body", "").strip() or
      "<no description>"`; no value when the body is `null`. */
  function ShownBody(body: Field<string>): (r: Option<string>)
    ensures r.None? <==> body.Null?
    ensures body.Missing? ==> r == Some(NoDescription)
  {
    match body
    case Null => None
    case Missing => Some(NoDescription)
    case Present(b) => var shown := Strip(b); if shown == [] then Some(NoDescription) else Some(shown)
  }

  /** Neither end of the text is whitespace, so `.strip()` leaves it alone. */
  predicate Trimmed(s: string) {
    s != [] && !IsSpace(s[0]) && !IsSpace(s[|s| - 1])
  }

  /** The body shown is never empty and has no whitespace border. */
  lemma ShownBodyTrimmed(body: Field<string>)
    requires !body.Null?
    ensures ShownBody(body).Some? && Trimmed(ShownBody(body).value)
  {
    NoDescriptionTrimmed();
  }

  lemma NoDescriptionTrimmed()
    ensures Trimmed(NoDescription)
  {
    assert NoDescription[0] == '<';
  }

  /** The indentation of the prompt's source lines. */
  const Indent := "            "
  const Intro := "You are an experienced software engineer."
                 + " The following GitHub issue describes a bug or missing feature:"
  const BlankLine := "\n            \n            "
  const DescriptionHead := "\n            \n            Issue Description:\n            "
  const Request := "\n            \n            Please suggest 2–3 distinct ways to fix or address this issue. For each suggestion:\n            - Give a brief rationale.\n            - Provide a code snippet or pseudo-code if applicable."

  function TitleLine(title: string): string {
    "Issue Title: " + title
  }

  /** The prompt after `.strip()`. */
  function Prompt(title: string, body: string): string {
    Intro + (BlankLine + (TitleLine(title) + (DescriptionHead + (body + Request))))
  }

  /** The triple-quoted f-string as written, before `.strip()`. */
  function RawPrompt(title: string, body: string): string {
    "\n" + Indent + (Prompt(title, body) + ("\n" + Indent))
  }

  /** `.strip()` removes exactly the newline and indentation around the
      f-string, whatever the title and body. */
  lemma PromptIsStripped(title: string, body: string)
    ensures Strip(RawPrompt(title, body)) == Prompt(title, body)
  {
    var p := Prompt(title, body);
    assert Intro[0] == 'Y';
    assert p[0] == 'Y';
    assert Request[|Request| - 1] == '.';
    assert p[|p| - 1] == '.';
    assert AllSpace("\n" + Indent);
    StripBorder("\n" + Indent, p, "\n" + Indent);
  }

  /** The prompt holds the title line and the body. */
  lemma PromptMentions(title: string, body: string)
    ensures Contains(Prompt(title, body), TitleLine(title))
    ensures Contains(Prompt(title, body), body)
  {
    ContainsPrefix(body, Request);
    ContainsInSuffix(DescriptionHead, body + Request, body);
    ContainsInSuffix(TitleLine(title), DescriptionHead + (body + Request), body);
    ContainsPrefix(TitleLine(title), DescriptionHead + (body + Request));
    var t := TitleLine(title) + (DescriptionHead + (body + Request));
    ContainsInSuffix(BlankLine, t, body);
    ContainsInSuffix(BlankLine, t, TitleLine(title));
    ContainsInSuffix(Intro, BlankLine + t, body);
    ContainsInSuffix(Intro, BlankLine + t, TitleLine(title));
  }

  function GithubIssueFixer(issueUrl: string, get: string -> Response<IssueRecord>,
                            llm: string -> LlmReply): (r: ToolOutput)
    ensures MatchIssueStrict(Strip(issueUrl)).None? ==> r == Returned(InvalidUrl)
    ensures MatchIssueStrict(Strip(issueUrl)).Some? ==>
              var (o, rp, n) := MatchIssueStrict(Strip(issueUrl)).value;
              var res := get(IssueApiUrl(o, rp, n));
              (res.Raised? ==> r == Returned("Error retrieving issue: " + res.message))
              && (res.Reply? && res.status != 200 ==>
                    r == Returned("Failed to fetch issue: " + NatToString(res.status)))
              && (res.Reply? && res.status == 200 && res.json.body.Null? ==>
                    r == Escaped(NoneHasNoStrip))
              && (res.Reply? && res.status == 200 && !res.json.body.Null? ==>
                    var reply := llm(Prompt(ShowText(res.json.title, NoTitle), ShownBody(res.json.body).value));
                    r == Returned(if reply.Content? then reply.text
                                  else "Error generating fix suggestions: " + reply.message))
  {
    var m := MatchIssueStrict(Strip(issueUrl));
    if m.None? then Returned(InvalidUrl)
    else
      var (o, rp, n) := m.value;
      var res := get(IssueApiUrl(o, rp, n));
      if res.Raised? then Returned("Error retrieving issue: " + res.message)
      else if res.status != 200 then Returned("Failed to fetch issue: " + NatToString(res.status))
      else
        var title := ShowText(res.json.title, NoTitle);
        var body := ShownBody(res.json.body);
        if body.None? then Escaped(NoneHasNoStrip)
        else
          var reply := llm(Prompt(title, body.value));
          if reply.Content? then Returned(reply.text)
          else Returned("Error generating fix suggestions: " + reply.message)
  }

  /** An empty or whitespace-only body (or none at all) is shown as
      "<no description>"; any other body is shown stripped. */
  lemma BodyDefault(body: string)
    ensures AllSpace(body) ==> ShownBody(Present(body)) == Some(NoDescription)
    ensures !AllSpace(body) ==> Strip(body) != [] && ShownBody(Present(body)) == Some(Strip(body))
    ensures ShownBody(Missing) == Some(NoDescription)
  {
    StripEmptyIff(body);
  }

  /** The tool raises only on a `null` body: an LLM failure, a transport
      failure and a bad status all come back as text. */
  lemma RaisesOnlyOnNullBody(issueUrl: string, get: string -> Response<IssueRecord>,
                             llm: string -> LlmReply)
    requires GithubIssueFixer(issueUrl, get, llm).Escaped?
    ensures MatchIssueStrict(Strip(issueUrl)).Some?
    ensures var (o, rp, n) := MatchIssueStrict(Strip(issueUrl)).value;
            var res := get(IssueApiUrl(o, rp, n));
            res.Reply? && res.status == 200 && res.json.body.Null?
  {
  }

  /** An invalid reference is answered without a fetch or an LLM call. */
  lemma InvalidUrlFetchesNothing(issueUrl: string, get1: string -> Response<IssueRecord>,
                                 llm1: string -> LlmReply, get2: string -> Response<IssueRecord>,
                                 llm2: string -> LlmReply)
    requires MatchIssueStrict(Strip(issueUrl)).None?
    ensures GithubIssueFixer(issueUrl, get1, llm1) == GithubIssueFixer(issueUrl, get2, llm2)
  {
  }
}
