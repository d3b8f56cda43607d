/** The conversation policy of `GitHubAgent`: each turn first compacts the
    history when it has grown past a token budget, then asks the agent for a
    reply and appends exactly one assistant message (the reply, a fallback or
    an apology). The tokenizer, the summariser and the agent executor are
    oracles given as functions; the checkpointer is a map from thread id to
    the stored messages. */
module Agent {
  import opened Text
  import opened Http
  import opened Wrappers

  datatype Role = Human | Ai

  datatype Message = Message(role: Role, content: string)

  /** The `type` LangChain reports for a message. */
  function TypeName(role: Role): string {
    match role
    case Human => "human"
    case Ai => "ai"
  }

  /** History compaction starts at this many tokens. */
  const MaxTokens: nat := 2000

  const Fallback := "\U{1F914} I'm not sure how to help with that yet, but I'm learning every day. Could you rephrase or ask something else?"

  const OopsPrefix := "⚠️ Oops, something went wrong: "

  /** The phrase the reply check looks for. */
  const DontKnow := "I don't know"

  // ---------------------------------------------------------------------------
  // Step 1: compaction

  /** Sum of the per-message token counts. */
  function TotalTokens(msgs: seq<Message>, tokenCount: string -> nat): nat {
    if msgs == [] then 0 else tokenCount(msgs[0].content) + TotalTokens(msgs[1..], tokenCount)
  }

  /** The token total of a concatenation is the sum of the two totals. */
  lemma {:induction false} TotalTokensAppend(a: seq<Message>, b: seq<Message>, tokenCount: string -> nat)
    ensures TotalTokens(a + b, tokenCount) == TotalTokens(a, tokenCount) + TotalTokens(b, tokenCount)
    decreases |a|
  {
    if a != [] {
      assert (a + b)[0] == a[0] && (a + b)[1..] == a[1..] + b;
      TotalTokensAppend(a[1..], b, tokenCount);
    } else {
      assert a + b == b;
    }
  }

  /** Python's `s[-k:]` for k > 0: the last k elements, or all of s when it is shorter. */
  function LastN<T>(s: seq<T>, k: nat): (r: seq<T>)
    ensures |r| == Min(k, |s|) && r == s[|s| - |r|..]
  {
    if |s| <= k then s else s[|s| - k..]
  }

  /** `_summarize_old_messages`: the history as it is when under budget,
      otherwise its last five messages followed by one summary message. */
  function SummarizeOldMessages(msgs: seq<Message>, tokenCount: string -> nat,
                                summarize: seq<Message> -> string): (r: seq<Message>)
    ensures TotalTokens(msgs, tokenCount) < MaxTokens ==> r == msgs
    ensures TotalTokens(msgs, tokenCount) >= MaxTokens ==>
              |r| == Min(|msgs|, 5) + 1 && |r| <= 6
              && (forall i :: 0 <= i < |r| - 1 ==> r[i] == msgs[|msgs| - (|r| - 1) + i])
              && r[|r| - 1] == Message(Ai, summarize(msgs))
  {
    if TotalTokens(msgs, tokenCount) < MaxTokens then msgs
    else LastN(msgs, 5) + [Message(Ai, summarize(msgs))]
  }

  /** Compaction never lengthens a history by more than the summary message,
      and a compacted history is itself at most six messages long. */
  lemma SummarizeBounded(msgs: seq<Message>, tokenCount: string -> nat, summarize: seq<Message> -> string)
    ensures |SummarizeOldMessages(msgs, tokenCount, summarize)| <= |msgs| + 1
    ensures |SummarizeOldMessages(msgs, tokenCount, summarize)| <= 6
            || SummarizeOldMessages(msgs, tokenCount, summarize) == msgs
  {
  }

  // ---------------------------------------------------------------------------
  // Step 2: the agent call

  /** What the agent executor does with a history: a result record whose
      "output" key may be absent, `None` or a text, or an exception. */
  datatype AgentOutcome = Answered(output: Field<string>) | Failed(error: string)

  /** `_call_agent` either returns a new history or raises. */
  datatype CallResult = Called(messages: seq<Message>) | Threw(error: string)

  /** `_call_agent`: the history with the stripped output appended ("" when
      the key is absent); `None.strip()` raises. */
  function CallAgent(msgs: seq<Message>, outcome: AgentOutcome): (r: CallResult)
    ensures r.Called? ==>
              |r.messages| == |msgs| + 1 && r.messages[..|msgs|] == msgs
              && r.messages[|msgs|].role == Ai
              && r.messages[|msgs|].content == Strip(r.messages[|msgs|].content)
    ensures outcome.Answered? && outcome.output.Present? ==>
              r == Called(msgs + [Message(Ai, Strip(outcome.output.value))])
    ensures outcome.Answered? && outcome.output.Missing? ==> r == Called(msgs + [Message(Ai, "")])
    ensures outcome.Answered? && outcome.output.Null? ==> r == Threw(NoneHasNoStrip)
    ensures outcome.Failed? ==> r == Threw(outcome.error)
  {
    match outcome
    case Failed(e) => Threw(e)
    case Answered(Null) => Threw(NoneHasNoStrip)
    case Answered(Missing) => Called(msgs + [Message(Ai, "")])
    case Answered(Present(s)) => StripIdempotent(s); Called(msgs + [Message(Ai, Strip(s))])
  }

  /** The test `_safe_call_agent` applies to the last message's stripped text. */
  predicate WantsFallback(lastMsg: string) {
    lastMsg == [] || Contains(Lower(lastMsg), DontKnow)
  }

  /** The reply test fires exactly on an empty answer: the phrase it looks for
      has a capital I, which a lower-cased text never contains. */
  lemma WantsFallbackIff(lastMsg: string)
    ensures WantsFallback(lastMsg) <==> lastMsg == []
  {
    LowerNeverContainsCapitalI(lastMsg, DontKnow);
  }

  /** `_safe_call_agent`: the history with exactly one assistant message
      appended, which is the answer, the fallback for an empty answer, or an
      apology naming the exception. */
  function SafeCallAgent(msgs: seq<Message>, agent: seq<Message> -> AgentOutcome): (r: seq<Message>)
    ensures |r| == |msgs| + 1 && r[..|msgs|] == msgs && r[|msgs|].role == Ai
    ensures agent(msgs).Failed? ==> r[|msgs|].content == OopsPrefix + agent(msgs).error
    ensures agent(msgs) == Answered(Null) ==> r[|msgs|].content == OopsPrefix + NoneHasNoStrip
    ensures agent(msgs) == Answered(Missing) ==> r[|msgs|].content == Fallback
    ensures agent(msgs).Answered? && agent(msgs).output.Present? ==>
              var answer := Strip(agent(msgs).output.value);
              r[|msgs|].content == (if answer == [] then Fallback else answer)
  {
    var result := CallAgent(msgs, agent(msgs));
    match result
    case Threw(e) => msgs + [Message(Ai, OopsPrefix + e)]
    case Called(next) =>
      var lastMsg := Strip(next[|next| - 1].content);
      WantsFallbackIff(lastMsg);
      if WantsFallback(lastMsg) then msgs + [Message(Ai, Fallback)] else next
  }

  /** A non-empty answer without a whitespace border is kept exactly as the
      agent gave it. */
  lemma AnswerKept(msgs: seq<Message>, agent: seq<Message> -> AgentOutcome, answer: string)
    requires agent(msgs) == Answered(Present(answer))
    requires answer != [] && !IsSpace(answer[0]) && !IsSpace(answer[|answer| - 1])
    ensures SafeCallAgent(msgs, agent)[|msgs|].content == answer
  {
    StripTrimmed(answer);
  }

  /** An empty or all-whitespace answer is replaced by the fallback. */
  lemma BlankAnswerReplaced(msgs: seq<Message>, agent: seq<Message> -> AgentOutcome, answer: string)
    requires agent(msgs) == Answered(Present(answer)) && AllSpace(answer)
    ensures SafeCallAgent(msgs, agent)[|msgs|].content == Fallback
  {
    StripEmptyIff(answer);
  }

  lemma ExampleEmptyReply(msgs: seq<Message>, agent: seq<Message> -> AgentOutcome)
    requires agent(msgs) == Answered(Present(" \n "))
    ensures SafeCallAgent(msgs, agent)[|msgs|].content == Fallback
  {
    BlankAnswerReplaced(msgs, agent, " \n ");
  }

  /** The reply check keeps answers that say "I don't know": the phrase is
      searched for in the lower-cased answer, where its capital I cannot occur. */
  lemma ExampleDontKnowKept(msgs: seq<Message>, agent: seq<Message> -> AgentOutcome)
    requires agent(msgs) == Answered(Present("I don't know."))
    ensures SafeCallAgent(msgs, agent)[|msgs|].content == "I don't know."
  {
    AnswerKept(msgs, agent, "I don't know.");
  }

  lemma ExampleReallyDontKnowKept(msgs: seq<Message>, agent: seq<Message> -> AgentOutcome)
    requires agent(msgs) == Answered(Present("I really don't know what to tell you."))
    ensures SafeCallAgent(msgs, agent)[|msgs|].content == "I really don't know what to tell you."
  {
    AnswerKept(msgs, agent, "I really don't know what to tell you.");
  }

  // ---------------------------------------------------------------------------
  // One turn and the stored history

  /** A chat turn: the stored history plus the user's message, compacted,
      then answered. */
  function Turn(stored: seq<Message>, userInput: string, tokenCount: string -> nat,
                summarize: seq<Message> -> string, agent: seq<Message> -> AgentOutcome): seq<Message>
  {
    SafeCallAgent(SummarizeOldMessages(stored + [Message(Human, userInput)], tokenCount, summarize), agent)
  }

  /** Under the token budget a turn keeps every earlier message and appends
      exactly the user's message and one assistant message. */
  lemma TurnUnderBudget(stored: seq<Message>, userInput: string, tokenCount: string -> nat,
                        summarize: seq<Message> -> string, agent: seq<Message> -> AgentOutcome)
    requires TotalTokens(stored, tokenCount) + tokenCount(userInput) < MaxTokens
    ensures var t := Turn(stored, userInput, tokenCount, summarize, agent);
            |t| == |stored| + 2 && t[..|stored|] == stored
            && t[|stored|] == Message(Human, userInput) && t[|stored| + 1].role == Ai
  {
    var msgs := stored + [Message(Human, userInput)];
    TotalTokensAppend(stored, [Message(Human, userInput)], tokenCount);
    assert TotalTokens([Message(Human, userInput)], tokenCount) == tokenCount(userInput);
    var t := Turn(stored, userInput, tokenCount, summarize, agent);
    assert t[..|msgs|] == msgs;
    assert t[..|stored|] == msgs[..|stored|];
  }

  /** At or over the budget a turn leaves at most seven messages: five kept,
      the summary, and the reply. */
  lemma TurnOverBudget(stored: seq<Message>, userInput: string, tokenCount: string -> nat,
                       summarize: seq<Message> -> string, agent: seq<Message> -> AgentOutcome)
    requires TotalTokens(stored, tokenCount) + tokenCount(userInput) >= MaxTokens
    ensures var t := Turn(stored, userInput, tokenCount, summarize, agent);
            |t| == Min(|stored| + 1, 5) + 2 && |t| <= 7
            && t[|t| - 3] == Message(Human, userInput)
            && t[|t| - 2] == Message(Ai, summarize(stored + [Message(Human, userInput)]))
  {
    var msgs := stored + [Message(Human, userInput)];
    TotalTokensAppend(stored, [Message(Human, userInput)], tokenCount);
    assert TotalTokens([Message(Human, userInput)], tokenCount) == tokenCount(userInput);
    var s := SummarizeOldMessages(msgs, tokenCount, summarize);
    assert s[|s| - 2] == msgs[|msgs| - 1];
  }

  /** How `get_history` renders one message. */
  function RenderLine(m: Message): string {
    TypeName(m.role) + (": " + m.content)
  }

  /** Reads a rendered line back. */
  function ParseLine(line: string): Option<Message> {
    if StartsWith(line, "human: ") then Some(Message(Human, line[7..]))
    else if StartsWith(line, "ai: ") then Some(Message(Ai, line[4..]))
    else None
  }

  lemma ParseRenderLine(m: Message)
    ensures ParseLine(RenderLine(m)) == Some(m)
  {
    var line := RenderLine(m);
    var p := TypeName(m.role) + ": ";
    assert line == p + m.content;
    assert line[..|p|] == p;
    if m.role == Ai {
      assert line[0] == 'a';
    }
  }

  /** The rendered history determines the stored messages. */
  lemma RenderLineInjective(a: Message, b: Message)
    requires RenderLine(a) == RenderLine(b)
    ensures a == b
  {
    ParseRenderLine(a);
    ParseRenderLine(b);
  }

  /** The thread id an agent gets when none is given. */
  const DefaultThreadId := "default-thread"

  class GitHubAgent {
    const threadId: string
    const tokenCount: string -> nat
    /** The checkpointer: thread id to its stored messages. */
    var memory: map<string, seq<Message>>

    constructor(tokenCount: string -> nat, threadId: string := DefaultThreadId)
      ensures this.threadId == threadId && this.tokenCount == tokenCount
      ensures memory == map[]
    {
      this.threadId := threadId;
      this.tokenCount := tokenCount;
      memory := map[];
    }

    /** This thread's stored messages, none before the first turn. */
    function Stored(): seq<Message>
      reads this
    {
      if threadId in memory then memory[threadId] else []
    }

    /** `get_history`: one "type: content" line per stored message, in order;
        none when nothing is stored. */
    function GetHistory(): (h: seq<string>)
      reads this
      ensures threadId !in memory ==> h == []
      ensures |h| == |Stored()|
      ensures forall i :: 0 <= i < |h| ==> ParseLine(h[i]) == Some(Stored()[i])
    {
      var msgs := Stored();
      var h := seq(|msgs|, i requires 0 <= i < |msgs| => RenderLine(msgs[i]));
      assert forall i :: 0 <= i < |h| ==> h[i] == RenderLine(msgs[i]);
      forall i | 0 <= i < |h|
        ensures ParseLine(h[i]) == Some(msgs[i])
      {
        ParseRenderLine(msgs[i]);
      }
      h
    }

    /** `chat`: runs one turn on this thread's history, stores the result and
        returns the content of its last message, the reply. Other threads'
        histories are untouched. */
    method Chat(userInput: string, summarize: seq<Message> -> string,
                agent: seq<Message> -> AgentOutcome) returns (reply: string)
      modifies this
      ensures memory == old(memory)[threadId := Turn(old(Stored()), userInput, tokenCount, summarize, agent)]
      ensures |Stored()| > 0 && reply == Stored()[|Stored()| - 1].content
      ensures Stored()[|Stored()| - 1].role == Ai
    {
      var next := Turn(Stored(), userInput, tokenCount, summarize, agent);
      memory := memory[threadId := next];
      reply := next[|next| - 1].content;
    }
  }
}
