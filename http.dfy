/** What the tools see of the GitHub REST API: a decoded JSON record whose
    optional keys are `Field`s, a response with a status code, and the text a
    tool hands back to the agent (or the exception it lets escape). */
module Http {
  import opened Text

  /** A JSON key read with `record.get(key, default)`: absent, `null`, or a value. */
  datatype Field<T> = Missing | Null | Present(value: T)

  /** How an f-string shows `record.get(key, default)` for a text field:
      the default when the key is absent, "None" for `null`. */
  function ShowText(f: Field<string>, default: string): (r: string)
    ensures f.Missing? ==> r == default
    ensures f.Null? ==> r == "None"
    ensures f.Present? ==> r == f.value
  {
    match f
    case Missing => default
    case Null => "None"
    case Present(s) => s
  }

  /** The same for a count field, rendered in decimal. */
  function ShowCount(f: Field<nat>, default: string): (r: string)
    ensures f.Missing? ==> r == default
    ensures f.Null? ==> r == "None"
    ensures f.Present? ==> AllDigits(r) && DigitsValue(r) == f.value
  {
    match f
    case Missing => default
    case Null => "None"
    case Present(n) => NatToStringRoundTrip(n); NatToString(n)
  }

  /** A GET request: the URL and its query parameters, in the order given. */
  datatype Request = Request(url: string, params: seq<(string, string)>)

  /** What `requests.get` yields: a reply (status code, raw text, decoded
      JSON) or the message of the exception it raised. */
  datatype Response<T> = Reply(status: nat, text: string, json: T) | Raised(message: string)

  /** A tool's result: its text, or the message of an exception that escapes it. */
  datatype ToolOutput = Returned(text: string) | Escaped(exception: string)

  const ApiRepos := "https://api.github.com/repos"

  function RepoApiUrl(owner: string, repo: string): string {
    ApiRepos + "/" + owner + "/" + repo
  }

  function IssueApiUrl(owner: string, repo: string, number: string): string {
    RepoApiUrl(owner, repo) + "/issues/" + number
  }

  /** The prefix by which the ReAct agent recognises a tool's text as its
      final answer. */
  const FinalAnswer := "Final Answer:\n"

  /** Python's message for `None[:n]`. */
  const NoneNotSubscriptable := "'NoneType' object is not subscriptable"

  /** Python's message for `None.strip()`. */
  const NoneHasNoStrip := "'NoneType' object has no attribute 'strip'"
}
