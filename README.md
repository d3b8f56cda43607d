# GitHub agent core in Dafny

This project models the sequential core of a LangChain GitHub assistant.
The model covers two parts.

The first is `GitHubAgent`. Each chat turn runs two steps:

- The history is compacted when its token total reaches 2000. The node returns only the last five messages and one summary message, and the model stores that list as the thread's new history.
- Exactly one assistant message is appended: the stripped answer, a fallback for an empty answer, or an apology naming the exception.

`get_history` renders the stored messages as `type: content` lines. `chat` returns the reply. The store is modelled as a map from the thread id to the list the last node returned (a replacing store); see "## Left out" for how this differs from the framework.

The second part is the group of GitHub tools. Each tool does three things:

- It recognises a GitHub URL with an anchored regex.
- It asks the REST API for data.
- It formats the reply: defaults, truncation, sorted and de-duplicated `#N` references, totals, numbered listings, the PR review checklist and an LLM prompt.

Everything outside the program is given to the model as a parameter:

- the tokenizer;
- the summariser;
- the agent executor;
- the LLM;
- every `requests.get` call, mapping a URL or request to a status code plus a decoded record, or to an exception message.

JSON keys that the source reads with `.get` are `Http.Field` values (absent, `null` or present). An f-string renders `null` as `None`. A tool whose code lets an exception escape returns `Http.ToolOutput.Escaped`.

Modules:

- `Text`: Python's `strip`, slicing, `in`, `join`, `split`, decimal rendering and string ordering.
- `Http`: records, responses and the API URLs.
- `UrlRefs`: the four URL regexes, each with completeness and soundness lemmas.
- `Agent`: the history policy and the `GitHubAgent` class.
- One module per tool: `PrReview`, `PrDetails`, `IssueDetails`, `IssueReview`, `DescribeRepo`, `TopIssues`, `TopPrs`.

Three behaviours of the code are worth stating outright:

- **The "I don't know" test never fires.** The code lower-cases the answer and then looks for the mixed-case phrase `"I don't know"` in it, so the test can never match. Only an empty answer triggers the fallback. `Agent.WantsFallbackIff` proves this, and `Agent.ExampleDontKnowKept` shows that the answer "I don't know." is kept.
- **A compacted history is not always 6 messages long.** `messages[-5:] + [summary]` keeps `min(n, 5) + 1` messages for a history of n, which is fewer than 6 when n < 5.
- **Two tools can raise.** `_review_pr` has no `try`, and `_github_issue_fixer` calls `.strip()` on a `null` body outside its `try`s, so both can raise, while the other tools turn every error into text.

## Model

| member | source | states |
|---|---|---|
| Text.StripEmptyIff | app/tools/github_issue_review.py:50 | `strip()` gives "" exactly when every character is whitespace |
| Text.StripBorder | app/tools/github_issue_review.py:53-65 | `strip()` removes a whitespace border and nothing else from a text whose inner part has no whitespace at either end |
| Text.LowerNeverContainsCapitalI | app/agent/github_agent.py:103 | a lower-cased text never contains a phrase that starts with a capital I |
| Text.NatToStringRoundTrip | app/tools/list_top_issues.py:35-37 | the decimal rendering of a count reads back as that count |
| Text.SplitJoin | app/tools/github_pr_review.py:78 | splitting `"\n".join(lines)` at newlines gives back `lines` when no line holds a newline |
| Http.ShowText | app/tools/github_pr_details.py:30-32 | `.get(key, default)` in an f-string shows the default when the key is absent, "None" for null, and otherwise the value |
| Http.ShowCount | app/tools/github_describe_repo.py:44-46 | the same for a count; a present count is shown as digits whose value is the count |
| UrlRefs.MatchRepoRef | app/tools/github_describe_repo.py:17 | a match yields slash-free, non-empty owner and repository |
| UrlRefs.ExtractOwnerRepo | app/tools/list_top_issues.py:11-13 | the repository regex applied to the stripped URL; no value stands for `(None, None)` |
| UrlRefs.RepoRefComplete | app/tools/github_describe_repo.py:16-20 | every `http(s)://github.com/o/r` followed by nothing or by `/...` is recognised with groups (o, r) |
| UrlRefs.RepoRefSound | app/tools/github_describe_repo.py:16-20 | whatever is recognised is such a text, and the repository is followed by `/` or by the end |
| UrlRefs.ExampleRepoRef | app/tools/list_top_prs.py:11-13 | `https://github.com/acme/widget` gives (acme, widget) |
| UrlRefs.ExampleNotAUrl | app/tools/list_top_prs.py:11-13 | "not a url" gives nothing |
| UrlRefs.MatchPrRef | app/tools/github_pr_review.py:12-14 | a PR match yields slash-free owner and repository and a digit run |
| UrlRefs.PrRefComplete | app/tools/github_pr_details.py:18-22 | both `/pull/N` and `/pulls/N` are recognised, with the groups (owner, repo, N), whatever non-digit text follows |
| UrlRefs.PrRefSound | app/tools/github_pr_review.py:12-14 | whatever is recognised is such a text, and the number is maximal |
| UrlRefs.MatchIssueStrict | app/tools/github_issue_review.py:24-27 | a strict match yields a repository free of `/` and `#` |
| UrlRefs.IssueStrictComplete | app/tools/github_issue_review.py:24-27 | both `/issues/N` and `#N` after a `#`-free repository are recognised with those groups |
| UrlRefs.IssueStrictSound | app/tools/github_issue_review.py:25 | whatever the strict regex recognises is such a text |
| UrlRefs.MatchIssueLoose | app/tools/github_issue_details.py:12-15 | a loose match yields a slash-free repository, which may hold `#` |
| UrlRefs.IssueLooseSound | app/tools/github_issue_details.py:13 | whatever the loose regex recognises is an issue text built from its groups |
| UrlRefs.IssueLooseLongest | app/tools/github_issue_details.py:13 | backtracking picks the longest repository that still leaves a separator and digits behind |
| UrlRefs.IssueLooseExact | app/tools/github_issue_details.py:12-19 | with a `#`-free repository and no later `#`/`/`, the loose regex yields exactly (owner, repo, N) |
| UrlRefs.IssueReadingUnique | app/tools/github_issue_details.py:13 | two issue texts with a `#`-free repository that are equal have the same groups |
| UrlRefs.IssueRegexesAgree | app/tools/github_issue_review.py:25 | when the loose match's repository has no `#`, the strict regex yields the same groups |
| UrlRefs.ExampleIssuePath | app/tools/github_issue_details.py:13 | `acme/widget/issues/42` gives (acme, widget, 42) |
| UrlRefs.ExampleIssueHash | app/tools/github_issue_review.py:25 | `acme/widget#42` gives (acme, widget, 42) under both regexes |
| UrlRefs.ExampleIssueStrictStops | app/tools/github_issue_review.py:25 | on `o/r#1#2` the strict regex stops the repository at the first `#`: (o, r, 1) |
| UrlRefs.ExampleIssueLooseBacktracks | app/tools/github_issue_details.py:13 | on `o/r#1#2` the loose regex backtracks: (o, r#1, 2) |
| Agent.TotalTokensAppend | app/agent/github_agent.py:80 | the token total of a concatenation is the sum of the parts' totals |
| Agent.SummarizeOldMessages | app/agent/github_agent.py:78-89 | under 2000 tokens the history is returned unchanged; otherwise the last min(n,5) messages in order plus one assistant message holding the summary, at most 6 |
| Agent.SummarizeBounded | app/agent/github_agent.py:83-89 | compaction adds at most one message, and a changed history has at most 6 |
| Agent.CallAgent | app/agent/github_agent.py:91-96 | keeps every prior message and appends one stripped assistant message ("" when the output is absent); a null output or an executor error raises |
| Agent.WantsFallbackIff | app/agent/github_agent.py:101-103 | the fallback test holds exactly when the stripped answer is empty |
| Agent.SafeCallAgent | app/agent/github_agent.py:98-113 | exactly one assistant message is appended: the answer, the fallback for an empty answer, or "⚠️ Oops, something went wrong: " plus the error |
| Agent.AnswerKept | app/agent/github_agent.py:101-108 | an answer with no whitespace border is stored exactly as the agent gave it |
| Agent.BlankAnswerReplaced | app/agent/github_agent.py:101-106 | an empty or all-whitespace answer is replaced by the fallback |
| Agent.ExampleEmptyReply | app/agent/github_agent.py:103-106 | the whitespace-only answer " \n " becomes the fallback |
| Agent.ExampleDontKnowKept | app/agent/github_agent.py:103 | the answer "I don't know." is kept |
| Agent.ExampleReallyDontKnowKept | app/agent/github_agent.py:103 | the answer "I really don't know what to tell you." is kept |
| Agent.TurnUnderBudget | app/agent/github_agent.py:70-84 | under budget a turn keeps the stored history and appends the user message and one assistant message |
| Agent.TurnOverBudget | app/agent/github_agent.py:83-89 | over budget a turn leaves min(n+1,5)+2 (at most 7) messages, ending with the user message, the summary and the reply |
| Agent.ParseRenderLine | app/agent/github_agent.py:120 | a rendered `type: content` line reads back as its message |
| Agent.RenderLineInjective | app/agent/github_agent.py:120 | distinct messages render as distinct lines |
| Agent.GitHubAgent.constructor | app/agent/github_agent.py:33-67 | a new agent has its thread id (by default `Agent.DefaultThreadId`, "default-thread") and tokenizer and an empty store |
| Agent.GitHubAgent.GetHistory | app/agent/github_agent.py:115-120 | [] when nothing is stored; otherwise one line per stored message, in order, each reading back as that message |
| Agent.GitHubAgent.Chat | app/agent/github_agent.py:122-129 | stores this thread's turn result, leaves other threads alone, and returns the content of the last stored message, an assistant message |
| PrReview.IssueRefs | app/tools/github_pr_review.py:15 | `findall(r"#(\d+)")` yields digit runs only |
| PrReview.IssueRefsSound | app/tools/github_pr_review.py:48 | every run findall yields follows a `#` and is maximal |
| PrReview.IssueRefsComplete | app/tools/github_pr_review.py:48 | every `#` followed by a maximal digit run contributes that run |
| PrReview.Insert | app/tools/github_pr_review.py:48 | insertion into a strictly sorted list keeps it strictly sorted and adds exactly the element |
| PrReview.SortedDistinct | app/tools/github_pr_review.py:48 | `sorted(set(xs))` is strictly ascending with exactly the elements of xs |
| PrReview.SortedUnique | app/tools/github_pr_review.py:48 | two strictly sorted lists with the same elements are equal, so `sorted(set(...))` is determined by the set |
| PrReview.LinkedIssues | app/tools/github_pr_review.py:47-48 | the linked issues are strictly ascending and are exactly the digit runs after a `#` in the body |
| Text.Prefixed | app/tools/github_pr_review.py:50 | each part gets the prefix in front, in order (`#` for linked issues, `- ` for checklist items) |
| PrReview.LinkedText | app/tools/github_pr_review.py:49-52 | "None" exactly when there are no linked issues; otherwise starts with the first `#n`, ends with the last, and when no issue holds a comma, splitting at the commas gives back every issue in order: `#n` first, then ` #n` for each later one |
| PrReview.LinkedIssuesCommaFree | app/tools/github_pr_review.py:47-52 | no linked issue holds a comma, so the rendered list always splits back into its issues |
| PrReview.TotalsAppend | app/tools/github_pr_review.py:55-56 | both totals add up over any split of the files; a missing count adds 0 |
| PrReview.TopFileLines | app/tools/github_pr_review.py:59-63 | one line per top file when all have counts; otherwise the KeyError of a file that lacks one |
| PrReview.SummaryLines | app/tools/github_pr_review.py:59-65 | min(n,5) file lines in order, plus one "more" line stating n-5 when n > 5 |
| PrReview.FilesSummaryIsJoin | app/tools/github_pr_review.py:59-65 | the file summary is those lines joined by newlines |
| PrReview.ChecklistItems | app/tools/github_pr_review.py:68-77 | 8 items; the first names the linked issues, the rest are the fixed seven |
| PrReview.FixedItemsOneLine | app/tools/github_pr_review.py:70-76 | no fixed item spans two lines |
| PrReview.ChecklistLines | app/tools/github_pr_review.py:68-78 | the checklist text is exactly 8 lines, the bulleted items |
| PrReview.Description | app/tools/github_pr_review.py:87 | the first 300 characters of the stripped body, or "<no description>" when that is empty |
| PrReview.ReviewTextShape | app/tools/github_pr_review.py:81-93 | the review starts with its title, contains the linked-issues line and ends with the checklist naming the same issues |
| PrReview.ReviewPr | app/tools/github_pr_review.py:22-93 | invalid URL text; "Failed to fetch PR: {code}" before any file fetch; "Failed to fetch PR files: {code}"; escaping errors; otherwise the review |
| PrReview.ReviewInvalidUrlFetchesNothing | app/tools/github_pr_review.py:22-24 | an invalid URL gets the same answer whatever the API would say |
| PrReview.ReviewMetaFailureSkipsFiles | app/tools/github_pr_review.py:33-34 | a failed metadata fetch gets the same answer whatever the files endpoint would say |
| PrDetails.Description | app/tools/github_pr_details.py:32 | a prefix of the body of min(1000, n) characters; "No description" when absent; no value for null |
| PrDetails.GithubPrDetails | app/tools/github_pr_details.py:18-35 | invalid URL text; "PR fetch failed: {code}"; "Error retrieving PR: " plus the error; otherwise the details text |
| PrDetails.DetailsLines | app/tools/github_pr_details.py:29-33 | with one-line title and URL the reply is exactly the head line, the URL line, the description title and the description's lines |
| PrDetails.DetailsEndWithDescription | app/tools/github_pr_details.py:32 | the reply ends with the description, at most 1000 characters |
| PrDetails.InvalidUrlFetchesNothing | app/tools/github_pr_details.py:19-20 | an invalid URL gets the fixed text whatever the API would say |
| IssueDetails.FirstFailure | app/tools/github_issue_details.py:34-38 | the reply fails exactly when a `[]` key is missing or the body is null; the message is that of the first failure in reading order: `'number'`, then `'title'`, then the null body's TypeError, then `'html_url'` |
| IssueDetails.Description | app/tools/github_issue_details.py:36 | a prefix of the body of min(1000, n) characters, or "No description" |
| IssueDetails.Answer | app/tools/github_issue_details.py:12-41 | what follows "Final Answer:\n": invalid text, status and response text, "❌ Error: " plus the error, or the details |
| IssueDetails.AlwaysFinalAnswer | app/tools/github_issue_details.py:16-41 | every reply starts with "Final Answer:\n" and has more after it |
| IssueDetails.DescriptionTruncates | app/tools/github_issue_details.py:36 | the description is a prefix of the body, at most 1000 characters, the whole body when short |
| IssueDetails.RequestFromGroups | app/tools/github_issue_details.py:19-20 | an issue reference in either form fetches `/repos/{owner}/{repo}/issues/{n}` built from its groups |
| IssueDetails.InvalidRefFetchesNothing | app/tools/github_issue_details.py:16-17 | an invalid reference is answered whatever the API would say |
| IssueReview.ShownBody | app/tools/github_issue_review.py:50 | no value exactly for a null body; "<no description>" for an absent one |
| IssueReview.ShownBodyTrimmed | app/tools/github_issue_review.py:50 | the body shown is non-empty with no whitespace at either end |
| IssueReview.BodyDefault | app/tools/github_issue_review.py:49-50 | an all-whitespace body shows "<no description>"; any other shows its stripped text |
| IssueReview.PromptIsStripped | app/tools/github_issue_review.py:53-65 | `.strip()` of the f-string removes only its leading newline and indentation and its trailing ones |
| IssueReview.PromptMentions | app/tools/github_issue_review.py:53-65 | the prompt contains "Issue Title: {title}" and the body |
| IssueReview.GithubIssueFixer | app/tools/github_issue_review.py:24-75 | invalid URL text; "Failed to fetch issue: {code}"; "Error retrieving issue: "; an escaping error for a null body; the LLM's content or "Error generating fix suggestions: " |
| IssueReview.RaisesOnlyOnNullBody | app/tools/github_issue_review.py:37-75 | the tool raises only when a fetched issue has a null body |
| IssueReview.InvalidUrlFetchesNothing | app/tools/github_issue_review.py:28-32 | an invalid URL is answered whatever the API and the LLM would say |
| DescribeRepo.DescriptionText | app/tools/github_describe_repo.py:43 | an absent, null or empty description shows "No description"; any other is shown as is |
| DescribeRepo.Answer | app/tools/github_describe_repo.py:22-51 | what follows "Final Answer:\n": invalid text, status and response text, "❌ Error: ", or the summary |
| DescribeRepo.SummaryFiveLines | app/tools/github_describe_repo.py:41-47 | with one-line name and description the summary is exactly five lines in the fixed order |
| DescribeRepo.AlwaysFinalAnswer | app/tools/github_describe_repo.py:23-51 | every reply starts with "Final Answer:\n" and has more after it |
| DescribeRepo.RequestFromGroups | app/tools/github_describe_repo.py:28 | a repository URL fetches `/repos/{owner}/{repo}` and a 200 reply gives the summary |
| DescribeRepo.InvalidUrlFetchesNothing | app/tools/github_describe_repo.py:23-25 | an invalid URL gets the fixed text whatever the API would say |
| TopIssues.DropPullRequests | app/tools/list_top_issues.py:31 | no pull request survives the filter, and it never lengthens the list |
| TopIssues.DropDistributes | app/tools/list_top_issues.py:31 | the filter distributes over concatenation, so order is kept |
| TopIssues.DropMembership | app/tools/list_top_issues.py:31 | an entry survives exactly when it is in the list and is not a pull request |
| TopIssues.DropKeepsIssues | app/tools/list_top_issues.py:31 | a list without pull requests passes unchanged |
| TopIssues.Lines | app/tools/list_top_issues.py:35-37 | k+1 lines: the header stating k, then line i for the i-th issue |
| TopIssues.ListTopIssues | app/tools/list_top_issues.py:15-41 | the tool returns exactly the reply of `TopIssuesText` in every branch |
| TopIssues.BuildLines | app/tools/list_top_issues.py:35-37 | the counting loop builds exactly `Lines`: the header, then one numbered line per issue |
| TopIssues.ListTopIssuesTool | app/tools/list_top_issues.py:45 | the registered tool uses limit 10 |
| TopIssues.RequestParams | app/tools/list_top_issues.py:21-27 | the request is `/repos/{o}/{r}/issues` with state=open, per\_page=limit, sort=comments, direction=desc |
| TopIssues.ListingLines | app/tools/list_top_issues.py:35-38 | with one-line titles the reply has k+1 lines: the header, then lines starting "i. #number" for i = 1..k in response order |
| TopIssues.OnlyPullRequests | app/tools/list_top_issues.py:31-33 | when every entry is a pull request the reply is "No open issues found." |
| TopIssues.InvalidUrlFetchesNothing | app/tools/list_top_issues.py:16-18 | an invalid URL gets the fixed text whatever the API would say |
| TopPrs.Lines | app/tools/list_top_prs.py:35-37 | k+1 lines: the header stating k, then line i for the i-th PR |
| TopPrs.ListTopPrs | app/tools/list_top_prs.py:15-41 | the tool returns exactly the reply of `TopPrsText` in every branch |
| TopPrs.BuildLines | app/tools/list_top_prs.py:35-37 | the counting loop builds exactly `Lines`: the header, then one numbered line per PR |
| TopPrs.PrLineShape | app/tools/list_top_prs.py:37 | a PR line starts with "i. #number", ends with "(by @login)", and is one line when title and login are |
| TopPrs.ListTopPrsTool | app/tools/list_top_prs.py:45 | the registered tool uses limit 10 |
| TopPrs.RequestParams | app/tools/list_top_prs.py:21-27 | the request is `/repos/{o}/{r}/pulls` with state=open, per\_page=limit, sort=created, direction=desc |
| TopPrs.ListingLines | app/tools/list_top_prs.py:35-38 | k+1 lines: the header, then lines starting "i. #number" and ending "(by @login)" for i = 1..k in order |
| TopPrs.EmptyListing | app/tools/list_top_prs.py:32-33 | an empty listing gives "No open pull requests found." |
| TopPrs.InvalidUrlFetchesNothing | app/tools/list_top_prs.py:16-18 | an invalid URL gets the fixed text whatever the API would say |

## Left out

- Network, timeouts, headers and JSON decoding: each API call is a function parameter from the URL (or request) to a status code plus a decoded record, or to an exception message. A reply whose JSON does not decode is not modelled.
- The LLM, the summarise chain, `AgentExecutor` with its ReAct prompt, and `hub.pull` are foreign calls. They are function parameters. The tokenizer is an abstract `string -> nat` held by the agent.
- Agent.SummarizeOldMessages: assumes the summariser never raises. An exception there would escape `chat`.
- Agent.GitHubAgent.Chat: the LangGraph reducer and checkpointer are framework behaviour. The store keeps whatever the two nodes return for the thread; the merge by message id is not modelled. With `MessagesState`'s `add_messages` reducer, the `messages[-5:] + [summary]` that compaction returns would be merged by id into the stored history, so the framework's history need not shrink. The compaction results (Agent.TurnOverBudget) describe the replacing store of this model.
- Agent.GitHubAgent.GetHistory: reads the store by the bare thread id. The code passes `self.thread_id` to `MemorySaver.get`, which expects a config, so what it returns as written is framework behaviour; the model assumes a string-keyed store.
- Text.Lower: lower-cases ASCII only. Python's full Unicode case folding is not modelled; the proof needs only that no capital I survives.
- Text.IsDigit: ASCII digits only. Python's `\d` also matches other Unicode digits.
- PrReview.ReviewPr: `pr['number']`, `pr['user']['login']`, `pr['html_url']` and each top file's `f['filename']` are taken as present. A KeyError on them is not modelled. A KeyError on a top file's counts is modelled. A `null` count is not modelled (`PrFile` counts are absent or a number): in the code it would make the `sum` raise a TypeError and a file line show "None".
- TopIssues.ListTopIssues: the keys read with `[]` (`number`, `title`, `comments`) are taken as present and of the expected type. The KeyError text the `try` would return is not modelled.
- TopPrs.ListTopPrs: the same for `number`, `title` and `user.login`.
- The `#` that the loose issue regex can leave in the repository group goes into the API URL as text. How `requests` would treat it as a URL fragment is not modelled.
- The web search tool (app/tools/search_github_repo.py), the orchestrator's demo tools (weather constant, wall clock, numexpr with floats), the FastAPI routes, the CLI loop and the OpenAI client are not part of this model: they are I/O or foreign code.
- Logging and per-session concurrency are not modelled. Nothing in the code coordinates concurrent sessions.
