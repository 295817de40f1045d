/**
 The tool loop of one turn of the chat agent (api/src/chat/agent.ts). Replies, tool
 results and quota answers are inputs, so the contracts hold whatever other turns
 do in between.
 */
module ChatAgent {
  import opened Wrappers
  import opened ChatQuota

  datatype ToolRequest = ToolRequest(id: string, name: string, input: string)

  /**
   A reply of the model. `offTopic` is the classifier's verdict on a first reply,
   `remaining` its text without the classifier's prefix.
   */
  datatype ModelReply = ModelReply(text: Option<string>, offTopic: bool, remaining: string,
                                   stopReason: string, toolCalls: seq<ToolRequest>)

  datatype LoopEnd = Answered(text: string, budgetExhausted: bool) | OutOfScope

  datatype LoopResult = LoopResult(end: LoopEnd, llmCalls: nat, toolCalls: nat, messages: seq<Message>)

  // ---------- the tool loop ----------

  /** The conversation after the first `n` replies each led to a tool call. */
  function Trace(opening: seq<Message>, reply: nat -> ModelReply, toolResult: nat -> string, n: nat): seq<Message> {
    if n == 0 then opening
    else
      var before := Trace(opening, reply, toolResult, n - 1);
      if reply(n - 1).toolCalls == [] then before
      else
        var tu := reply(n - 1).toolCalls[0];
        before + [ToolUse(tu.id, tu.name, tu.input), ToolResult(tu.id, toolResult(n - 1))]
  }

  /** The text the first `n` replies leave: that of the last one that has any. */
  function FinalText(reply: nat -> ModelReply, n: nat): string {
    if n == 0 then ""
    else
      var m := reply(n - 1);
      if m.text.None? then FinalText(reply, n - 1)
      else if n == 1 && m.text.value != "" then m.remaining
      else m.text.value
  }

  /** In the trace each tool use is followed at once by the result with its id. */
  lemma {:induction false} TraceIsPaired(opening: seq<Message>, reply: nat -> ModelReply, toolResult: nat -> string,
                                         n: nat)
    requires AllText(opening) && forall k :: 0 <= k < n ==> UsesTool(reply(k))
    ensures Paired(Trace(opening, reply, toolResult, n))
    ensures ToolResults(Trace(opening, reply, toolResult, n)) == n
  {
    if n == 0 {
      NoToolResults(opening);
    } else {
      TraceIsPaired(opening, reply, toolResult, n - 1);
      var tu := reply(n - 1).toolCalls[0];
      PairAppended(Trace(opening, reply, toolResult, n - 1), ToolUse(tu.id, tu.name, tu.input),
                   ToolResult(tu.id, toolResult(n - 1)));
    }
  }

  /**
   `refused(k)` answers the k-th quota request, `reply(k)` is the k-th reply and
   `toolResult(k)` the outcome of the k-th tool call.
   */
  method RunLoop(opening: seq<Message>, refused: nat -> bool, reply: nat -> ModelReply, toolResult: nat -> string)
    returns (r: LoopResult)
    requires AllText(opening)
    ensures r.messages == Trace(opening, reply, toolResult, r.toolCalls)
    ensures Paired(r.messages) && ToolResults(r.messages) == r.toolCalls
    ensures r.end.Answered? ==> r.end.text == FinalText(reply, r.llmCalls)
    ensures r.llmCalls <= 5 && r.toolCalls <= r.llmCalls <= r.toolCalls + 1
    // every call but the last led to a tool call, and each was granted by the quota
    ensures forall k :: 0 <= k < r.llmCalls ==> !refused(k)
    ensures forall k :: 0 <= k < r.toolCalls ==> reply(k).stopReason == "tool_use" && reply(k).toolCalls != []
    ensures r.end.OutOfScope? ==> r.llmCalls == 1 && r.toolCalls == 0
    // the first reply refuses when it has a text and the classifier puts the question outside the scope
    ensures r.end.OutOfScope? <==>
              r.llmCalls > 0 && reply(0).text.Some? && reply(0).text.value != "" && reply(0).offTopic
    // the budget is reported exhausted exactly when the quota refused a call or the last allowed tool call was made
    ensures r.end.Answered? ==>
              (r.end.budgetExhausted <==>
               r.toolCalls == 5 || (r.llmCalls == r.toolCalls && refused(r.llmCalls)))
    ensures r.end.Answered? && !r.end.budgetExhausted ==>
              && r.llmCalls == r.toolCalls + 1
              && (reply(r.toolCalls).stopReason == "tool_use" ==> reply(r.toolCalls).toolCalls == [])
  {
    var messages, toolCalls, llmCalls := opening, 0, 0;
    var finalText, stopReason, budgetExhausted := "", "end_turn", false;
    while toolCalls < MAX_TOOL_CALLS_PER_TURN
      invariant toolCalls == llmCalls <= MAX_TOOL_CALLS_PER_TURN
      invariant messages == Trace(opening, reply, toolResult, toolCalls) && finalText == FinalText(reply, llmCalls)
      invariant forall k :: 0 <= k < llmCalls ==> !refused(k)
      invariant forall k :: 0 <= k < toolCalls ==> UsesTool(reply(k))
      invariant llmCalls > 0 ==> !RefusesFirst(reply(0)) && stopReason == "tool_use"
      invariant !budgetExhausted
      decreases MAX_TOOL_CALLS_PER_TURN - toolCalls
    {
      if refused(llmCalls) {
        budgetExhausted := true;
        break;
      }
      var turn := reply(llmCalls);
      llmCalls := llmCalls + 1;
      if llmCalls == 1 && turn.text.Some? && turn.text.value != "" {
        if turn.offTopic {
          TraceIsPaired(opening, reply, toolResult, toolCalls);
          return LoopResult(OutOfScope, llmCalls, toolCalls, messages);
        }
        finalText := turn.remaining;
      } else if turn.text.Some? {
        finalText := turn.text.value;
      }
      stopReason := turn.stopReason;
      if turn.stopReason != "tool_use" || |turn.toolCalls| == 0 {
        break;
      }
      var tu, result := turn.toolCalls[0], toolResult(toolCalls);
      toolCalls := toolCalls + 1;
      messages := messages + [ToolUse(tu.id, tu.name, tu.input), ToolResult(tu.id, result)];
    }
    TraceIsPaired(opening, reply, toolResult, toolCalls);
    if toolCalls >= MAX_TOOL_CALLS_PER_TURN && stopReason == "tool_use" {
      budgetExhausted := true;
    }
    r := LoopResult(Answered(finalText, budgetExhausted), llmCalls, toolCalls, messages);
  }

  predicate UsesTool(m: ModelReply) {
    m.stopReason == "tool_use" && m.toolCalls != []
  }

  /** A first reply with text that the classifier puts outside the scope. */
  predicate RefusesFirst(m: ModelReply) {
    m.text.Some? && m.text.value != "" && m.offTopic
  }

  // ---------- what the loop leaves ----------

  /** The `k`-th of the first `n` replies is the last one with a text. */
  ghost predicate SpeaksLast(reply: nat -> ModelReply, n: nat, k: nat) {
    k < n && reply(k).text.Some? && forall j :: k < j < n ==> reply(j).text.None?
  }

  /** The last text wins; the very first reply loses the classifier's prefix. */
  lemma {:induction false} LastTextWins(reply: nat -> ModelReply, n: nat)
    ensures (forall k :: 0 <= k < n ==> reply(k).text.None?) ==> FinalText(reply, n) == ""
    ensures forall k: nat :: SpeaksLast(reply, n, k) && k > 0 ==> FinalText(reply, n) == reply(k).text.value
    ensures SpeaksLast(reply, n, 0) ==>
              FinalText(reply, n) == if reply(0).text.value == "" then "" else reply(0).remaining
  {
    if n > 0 {
      LastTextWins(reply, n - 1);
      forall k: nat | SpeaksLast(reply, n, k) && k < n - 1
        ensures SpeaksLast(reply, n - 1, k) && reply(n - 1).text.None?
      {
      }
    }
  }

  /** The messages are the opening, and then the first tool of each reply with its outcome, reply by reply. */
  lemma {:induction false} TraceIs(opening: seq<Message>, reply: nat -> ModelReply, toolResult: nat -> string, n: nat)
    requires forall k :: 0 <= k < n ==> UsesTool(reply(k))
    ensures var t := Trace(opening, reply, toolResult, n);
            && |t| == |opening| + 2 * n && t[..|opening|] == opening
            && forall k :: 0 <= k < n ==>
                 && UsesTool(reply(k))
                 && var tu := reply(k).toolCalls[0];
                 && t[|opening| + 2 * k] == ToolUse(tu.id, tu.name, tu.input)
                 && t[|opening| + 2 * k + 1] == ToolResult(tu.id, toolResult(k))
  {
    if n > 0 {
      TraceIs(opening, reply, toolResult, n - 1);
    }
  }
}
