/**
 The LLM-call quota of api/src/chat/quota.ts and the turn loop of
 api/src/chat/agent.ts as a state machine: any number of turns, interleaved at
 every await.
 */
module ChatQuota {
  import opened Paths

  const CONV_CAP := 50
  const DAY_CAP := 500
  const MAX_TOOL_CALLS_PER_TURN := 5

  /** The two kinds of rows of the quota table; their text keys carry different prefixes. */
  datatype ScopeKey = Conv(id: string) | Day(date: string)

  type Table = map<ScopeKey, nat>

  function Count(table: Table, key: ScopeKey): nat {
    if key in table then table[key] else 0
  }

  function Exhausted(table: Table, conv: string, today: string): bool {
    Count(table, Conv(conv)) >= CONV_CAP || Count(table, Day(today)) >= DAY_CAP
  }

  function Incremented(table: Table, conv: string, today: string): Table {
    table[Conv(conv) := Count(table, Conv(conv)) + 1][Day(today) := Count(table, Day(today)) + 1]
  }

  class Quota {
    var table: Table

    constructor ()
      ensures table == map[]
    {
      table := map[];
    }

    method Upsert(key: ScopeKey)
      modifies this
      ensures table == old(table)[key := Count(old(table), key) + 1]
    {
      table := table[key := Count(table, key) + 1];
    }

    /** Reading never changes the table. */
    method IsQuotaExhausted(conv: string, today: string) returns (exhausted: bool)
      ensures exhausted <==> Count(table, Conv(conv)) >= 50 || Count(table, Day(today)) >= 500
      ensures exhausted == Exhausted(table, conv, today)
    {
      var convCount, dayCount := Count(table, Conv(conv)), Count(table, Day(today));
      return convCount >= CONV_CAP || dayCount >= DAY_CAP;
    }

    /** The transaction: either both counts go up by one, or nothing changes. */
    method IncrementQuotaOrFail(conv: string, today: string) returns (exhausted: bool)
      modifies this
      ensures exhausted <==> Count(old(table), Conv(conv)) >= 50 || Count(old(table), Day(today)) >= 500
      ensures forall key :: Count(table, key) ==
                Count(old(table), key) + if !exhausted && (key == Conv(conv) || key == Day(today)) then 1 else 0
      ensures exhausted == Exhausted(old(table), conv, today)
      ensures table == if exhausted then old(table) else Incremented(old(table), conv, today)
    {
      var convCount, dayCount := Count(table, Conv(conv)), Count(table, Day(today));
      if convCount >= CONV_CAP || dayCount >= DAY_CAP {
        return true;
      }
      Upsert(Conv(conv));
      Upsert(Day(today));
      return false;
    }
  }

  // ---------- turns ----------

  datatype Message =
    | Text(content: string)
    | ToolUse(id: string, name: string, input: string)
    | ToolResult(id: string, content: string)

  /** What a reply of the model makes the loop do. */
  datatype Reply = CallsTool(id: string, name: string, input: string, result: string) | Ends

  datatype Phase = Ready | Awaiting | Done

  datatype Turn = Turn(conv: string, phase: Phase, toolCalls: nat, started: nat, messages: seq<Message>)

  /** A started LLM call: whose it is and on which day it was counted. */
  datatype Call = Call(conv: string, day: string)

  datatype System = System(table: Table, turns: seq<Turn>, calls: seq<Call>)

  datatype Event =
    | Begin(conv: string, today: string, opening: seq<Message>)
    | Iterate(turn: nat, today: string)
    | Receive(turn: nat, reply: Reply)

  /** One iteration of the loop up to the model call. */
  function Iterated(s: System, i: nat, today: string): System
    requires i < |s.turns|
  {
    var t := s.turns[i];
    if t.toolCalls >= MAX_TOOL_CALLS_PER_TURN || Exhausted(s.table, t.conv, today) then
      s.(turns := s.turns[i := t.(phase := Done)])
    else
      System(Incremented(s.table, t.conv, today),
             s.turns[i := t.(phase := Awaiting, started := t.started + 1)],
             s.calls + [Call(t.conv, today)])
  }

  /** The rest of the iteration, once the model has replied and the tool, if any, has run. */
  function Received(t: Turn, reply: Reply): Turn {
    match reply
    case Ends => t.(phase := Done)
    case CallsTool(id, name, input, result) =>
      t.(phase := Ready, toolCalls := t.toolCalls + 1,
         messages := t.messages + [ToolUse(id, name, input), ToolResult(id, result)])
  }

  /** An event that cannot happen in a state changes nothing. */
  function Step(s: System, e: Event): System {
    match e
    case Begin(conv, today, opening) =>
      var phase := if Exhausted(s.table, conv, today) then Done else Ready;
      s.(turns := s.turns + [Turn(conv, phase, 0, 0, opening)])
    case Iterate(i, today) =>
      if i < |s.turns| && s.turns[i].phase == Ready then Iterated(s, i, today) else s
    case Receive(i, reply) =>
      if i < |s.turns| && s.turns[i].phase == Awaiting then s.(turns := s.turns[i := Received(s.turns[i], reply)])
      else s
  }

  function After(run: seq<Event>): System {
    if run == [] then System(map[], [], []) else Step(After(run[..|run| - 1]), run[|run| - 1])
  }

  /** Openings are plain text: history and the user's message. */
  predicate PlainOpenings(run: seq<Event>) {
    forall i :: 0 <= i < |run| && run[i].Begin? ==> AllText(run[i].opening)
  }

  predicate AllText(messages: seq<Message>) {
    forall i :: 0 <= i < |messages| ==> messages[i].Text?
  }

  // ---------- what every interleaving keeps ----------

  function CallsOf(calls: seq<Call>, conv: string): nat {
    if calls == [] then 0
    else CallsOf(calls[..|calls| - 1], conv) + if calls[|calls| - 1].conv == conv then 1 else 0
  }

  function CallsOn(calls: seq<Call>, day: string): nat {
    if calls == [] then 0
    else CallsOn(calls[..|calls| - 1], day) + if calls[|calls| - 1].day == day then 1 else 0
  }

  /** Every count is the number of calls it stands for, and none exceeds its cap. */
  ghost predicate Accounted(s: System) {
    && (forall conv :: Count(s.table, Conv(conv)) == CallsOf(s.calls, conv) <= 50)
    && (forall day :: Count(s.table, Day(day)) == CallsOn(s.calls, day) <= 500)
  }

  /** Each tool use is followed at once by the result with the same id, and no result stands alone. */
  ghost predicate Paired(messages: seq<Message>) {
    && (forall i :: 0 <= i < |messages| && messages[i].ToolUse? ==>
          i + 1 < |messages| && messages[i + 1].ToolResult? && messages[i + 1].id == messages[i].id)
    && (forall i :: 0 <= i < |messages| && messages[i].ToolResult? ==>
          i > 0 && messages[i - 1].ToolUse? && messages[i - 1].id == messages[i].id)
  }

  function ToolResults(messages: seq<Message>): nat {
    if messages == [] then 0
    else ToolResults(messages[..|messages| - 1]) + if messages[|messages| - 1].ToolResult? then 1 else 0
  }

  ghost predicate TurnOk(t: Turn) {
    && t.started <= 5
    && (t.phase == Awaiting ==> t.started == t.toolCalls + 1)
    && (t.phase == Ready ==> t.started == t.toolCalls)
    && t.toolCalls <= t.started
    && Paired(t.messages) && ToolResults(t.messages) == t.toolCalls
  }

  ghost predicate Inv(s: System) {
    Accounted(s) && forall i :: 0 <= i < |s.turns| ==> TurnOk(s.turns[i])
  }

  lemma {:induction false} NoToolResults(messages: seq<Message>)
    requires AllText(messages)
    ensures ToolResults(messages) == 0 && Paired(messages)
  {
    if messages != [] {
      NoToolResults(messages[..|messages| - 1]);
    }
  }

  lemma {:induction false} ToolResultsSnoc(messages: seq<Message>, m: Message)
    ensures ToolResults(messages + [m]) == ToolResults(messages) + if m.ToolResult? then 1 else 0
  {
  }

  lemma {:induction false} PairAppended(messages: seq<Message>, use: Message, result: Message)
    requires Paired(messages) && use.ToolUse? && result.ToolResult? && use.id == result.id
    ensures Paired(messages + [use, result])
    ensures ToolResults(messages + [use, result]) == ToolResults(messages) + 1
  {
    var longer, n := messages + [use, result], |messages|;
    ToolResultsSnoc(messages, use);
    ToolResultsSnoc(messages + [use], result);
    assert longer == messages + [use] + [result];
    assert longer[n] == use && longer[n + 1] == result;
    assert forall i :: 0 <= i < n ==> longer[i] == messages[i];
  }

  lemma {:induction false} CallAccounted(s: System, conv: string, today: string)
    requires Accounted(s) && !Exhausted(s.table, conv, today)
    ensures Accounted(s.(table := Incremented(s.table, conv, today), calls := s.calls + [Call(conv, today)]))
  {
  }

  lemma {:induction false} IterateKeepsInv(s: System, i: nat, today: string)
    requires Inv(s) && i < |s.turns| && s.turns[i].phase == Ready
    ensures Inv(Iterated(s, i, today))
  {
    if !Exhausted(s.table, s.turns[i].conv, today) {
      CallAccounted(s, s.turns[i].conv, today);
    }
  }

  lemma {:induction false} ReceiveKeepsTurn(t: Turn, reply: Reply)
    requires TurnOk(t) && t.phase == Awaiting
    ensures TurnOk(Received(t, reply))
  {
    if reply.CallsTool? {
      PairAppended(t.messages, ToolUse(reply.id, reply.name, reply.input), ToolResult(reply.id, reply.result));
    }
  }

  lemma {:induction false} StepKeepsInv(s: System, e: Event)
    requires Inv(s) && (e.Begin? ==> AllText(e.opening))
    ensures Inv(Step(s, e))
  {
    match e
    case Begin(conv, today, opening) =>
      NoToolResults(opening);
    case Iterate(i, today) =>
      if i < |s.turns| && s.turns[i].phase == Ready {
        IterateKeepsInv(s, i, today);
      }
    case Receive(i, reply) =>
      if i < |s.turns| && s.turns[i].phase == Awaiting {
        ReceiveKeepsTurn(s.turns[i], reply);
      }
  }

  /** In every interleaving: exact accounts within the caps, at most five calls a turn, paired tool messages. */
  lemma {:induction false} EveryRunKeepsInv(run: seq<Event>)
    requires PlainOpenings(run)
    ensures Inv(After(run))
  {
    if run != [] {
      var before := run[..|run| - 1];
      assert PlainOpenings(before);
      EveryRunKeepsInv(before);
      StepKeepsInv(After(before), run[|run| - 1]);
    }
  }

  // ---------- when a call is granted ----------

  ghost function PlacesOf(calls: seq<Call>, conv: string): set<int> {
    set i | 0 <= i < |calls| && calls[i].conv == conv
  }

  ghost function PlacesOn(calls: seq<Call>, day: string): set<int> {
    set i | 0 <= i < |calls| && calls[i].day == day
  }

  /** How many of the calls were made in a conversation, */
  lemma {:induction false} CallsOfIs(calls: seq<Call>, conv: string)
    ensures CallsOf(calls, conv) == |PlacesOf(calls, conv)|
  {
    if calls == [] {
      assert PlacesOf(calls, conv) == {};
    } else {
      var n := |calls| - 1;
      CallsOfIs(calls[..n], conv);
      assert PlacesOf(calls, conv) == PlacesOf(calls[..n], conv) + if calls[n].conv == conv then {n} else {};
    }
  }

  /** and how many on a day. */
  lemma {:induction false} CallsOnIs(calls: seq<Call>, day: string)
    ensures CallsOn(calls, day) == |PlacesOn(calls, day)|
  {
    if calls == [] {
      assert PlacesOn(calls, day) == {};
    } else {
      var n := |calls| - 1;
      CallsOnIs(calls[..n], day);
      assert PlacesOn(calls, day) == PlacesOn(calls[..n], day) + if calls[n].day == day then {n} else {};
    }
  }

  /** Fewer than 50 calls of the conversation and fewer than 500 of the day have been made. */
  predicate WithinCaps(calls: seq<Call>, conv: string, today: string) {
    CallsOf(calls, conv) < 50 && CallsOn(calls, today) < 500
  }

  /**
   After every run, a turn that is ready starts a call exactly when it has made
   fewer than five tool calls and the caps are not reached; otherwise it ends.
   */
  lemma {:induction false} CallGrantedIff(run: seq<Event>, i: nat, today: string)
    requires PlainOpenings(run) && i < |After(run).turns| && After(run).turns[i].phase == Ready
    ensures var s, s' := After(run), After(run + [Iterate(i, today)]);
            var t := s.turns[i];
            if t.toolCalls < 5 && WithinCaps(s.calls, t.conv, today) then
              && s'.calls == s.calls + [Call(t.conv, today)]
              && s'.turns[i].phase == Awaiting && s'.turns[i].started == t.started + 1
            else s'.calls == s.calls && s'.turns[i].phase == Done && s'.table == s.table
  {
    EveryRunKeepsInv(run);
    assert (run + [Iterate(i, today)])[..|run|] == run;
    assert Accounted(After(run));
  }

  /** A new turn is declined exactly when one of the caps is reached. */
  lemma {:induction false} TurnDeclinedIff(run: seq<Event>, conv: string, today: string, opening: seq<Message>)
    requires PlainOpenings(run)
    ensures var s, s' := After(run), After(run + [Begin(conv, today, opening)]);
            && s'.calls == s.calls && |s'.turns| == |s.turns| + 1
            && var t := s'.turns[|s.turns|];
               && t.conv == conv && t.messages == opening && t.toolCalls == t.started == 0
               && t.phase == if WithinCaps(s.calls, conv, today) then Ready else Done
  {
    EveryRunKeepsInv(run);
    assert (run + [Begin(conv, today, opening)])[..|run|] == run;
  }

  /** A reply that calls a tool leads on to another iteration with the tool's result; any other ends the turn. */
  lemma {:induction false} ReplyGoesOn(run: seq<Event>, i: nat, reply: Reply)
    requires i < |After(run).turns| && After(run).turns[i].phase == Awaiting
    ensures var s, s' := After(run), After(run + [Receive(i, reply)]);
            var t, t' := s.turns[i], s'.turns[i];
            && s'.calls == s.calls && s'.table == s.table && t'.conv == t.conv && t'.started == t.started
            && (reply.Ends? ==> t'.phase == Done && t'.messages == t.messages)
            && (reply.CallsTool? ==>
                  && t'.phase == Ready && t'.toolCalls == t.toolCalls + 1
                  && t'.messages == t.messages
                       + [ToolUse(reply.id, reply.name, reply.input), ToolResult(reply.id, reply.result)])
  {
    assert (run + [Receive(i, reply)])[..|run|] == run;
  }

  // ---------- conservation ----------

  function ConvTotal(table: Table, convs: seq<string>): nat {
    if convs == [] then 0 else ConvTotal(table, convs[..|convs| - 1]) + Count(table, Conv(convs[|convs| - 1]))
  }

  function DayTotal(table: Table, days: seq<string>): nat {
    if days == [] then 0 else DayTotal(table, days[..|days| - 1]) + Count(table, Day(days[|days| - 1]))
  }

  function CallsOfAll(calls: seq<Call>, convs: seq<string>): nat {
    if convs == [] then 0 else CallsOfAll(calls, convs[..|convs| - 1]) + CallsOf(calls, convs[|convs| - 1])
  }

  function CallsOnAll(calls: seq<Call>, days: seq<string>): nat {
    if days == [] then 0 else CallsOnAll(calls, days[..|days| - 1]) + CallsOn(calls, days[|days| - 1])
  }

  lemma {:induction false} TotalsAreCalls(s: System, convs: seq<string>, days: seq<string>)
    requires Accounted(s)
    ensures ConvTotal(s.table, convs) == CallsOfAll(s.calls, convs)
    ensures DayTotal(s.table, days) == CallsOnAll(s.calls, days)
    decreases |convs| + |days|
  {
    if convs != [] {
      TotalsAreCalls(s, convs[..|convs| - 1], []);
    }
    if days != [] {
      TotalsAreCalls(s, [], days[..|days| - 1]);
    }
  }

  lemma {:induction false} OneMoreCall(calls: seq<Call>, c: Call, convs: seq<string>, days: seq<string>)
    requires Distinct(convs) && Distinct(days)
    ensures CallsOfAll(calls + [c], convs) == CallsOfAll(calls, convs) + if c.conv in convs then 1 else 0
    ensures CallsOnAll(calls + [c], days) == CallsOnAll(calls, days) + if c.day in days then 1 else 0
    decreases |convs| + |days|
  {
    assert (calls + [c])[..|calls|] == calls;
    if convs != [] {
      OneMoreCall(calls, c, convs[..|convs| - 1], []);
      assert convs == convs[..|convs| - 1] + [convs[|convs| - 1]];
    }
    if days != [] {
      OneMoreCall(calls, c, [], days[..|days| - 1]);
      assert days == days[..|days| - 1] + [days[|days| - 1]];
    }
  }

  lemma {:induction false} NoCalls(convs: seq<string>, days: seq<string>)
    ensures CallsOfAll([], convs) == 0 && CallsOnAll([], days) == 0
    decreases |convs| + |days|
  {
    if convs != [] {
      NoCalls(convs[..|convs| - 1], []);
    }
    if days != [] {
      NoCalls([], days[..|days| - 1]);
    }
  }

  lemma {:induction false} EveryCallCounted(calls: seq<Call>, convs: seq<string>, days: seq<string>)
    requires Distinct(convs) && Distinct(days)
    requires forall i :: 0 <= i < |calls| ==> calls[i].conv in convs && calls[i].day in days
    ensures CallsOfAll(calls, convs) == |calls| == CallsOnAll(calls, days)
  {
    if calls == [] {
      NoCalls(convs, days);
    } else {
      var front, last := calls[..|calls| - 1], calls[|calls| - 1];
      EveryCallCounted(front, convs, days);
      OneMoreCall(front, last, convs, days);
      assert calls == front + [last];
    }
  }

  lemma {:induction false} CallHasRow(s: System, i: nat)
    requires Accounted(s) && i < |s.calls|
    ensures Conv(s.calls[i].conv) in s.table && Day(s.calls[i].day) in s.table
  {
    CallsCount(s.calls, i);
  }

  lemma {:induction false} CallsCount(calls: seq<Call>, i: nat)
    requires i < |calls|
    ensures CallsOf(calls, calls[i].conv) > 0 && CallsOn(calls, calls[i].day) > 0
  {
    if i < |calls| - 1 {
      CallsCount(calls[..|calls| - 1], i);
    }
  }

  /**
   In every interleaving, the conversation counts and the day counts of the table
   each sum to the number of LLM calls started.
   */
  lemma {:induction false} CountsSumToCalls(run: seq<Event>, convs: seq<string>, days: seq<string>)
    requires PlainOpenings(run) && Distinct(convs) && Distinct(days)
    requires forall id :: id in convs <==> Conv(id) in After(run).table
    requires forall date :: date in days <==> Day(date) in After(run).table
    ensures ConvTotal(After(run).table, convs) == |After(run).calls| == DayTotal(After(run).table, days)
  {
    var s := After(run);
    EveryRunKeepsInv(run);
    forall i | 0 <= i < |s.calls|
      ensures s.calls[i].conv in convs && s.calls[i].day in days
    {
      CallHasRow(s, i);
    }
    EveryCallCounted(s.calls, convs, days);
    TotalsAreCalls(s, convs, days);
  }

  // ---------- a refusal is final for the day ----------

  /** Once a conversation is refused on a day it stays refused, and no call of it on that day is started any more. */
  lemma {:induction false} RefusalIsFinal(run: seq<Event>, more: seq<Event>, conv: string, today: string)
    requires Exhausted(After(run).table, conv, today)
    ensures Exhausted(After(run + more).table, conv, today)
    ensures After(run).calls <= After(run + more).calls
    ensures forall i :: |After(run).calls| <= i < |After(run + more).calls| ==>
              After(run + more).calls[i] != Call(conv, today)
  {
    if more == [] {
      assert run + more == run;
    } else {
      var front, e := more[..|more| - 1], more[|more| - 1];
      RefusalIsFinal(run, front, conv, today);
      assert (run + more)[..|run + more| - 1] == run + front;
      StepKeepsRefusal(After(run + front), e, conv, today);
    }
  }

  lemma {:induction false} StepKeepsRefusal(s: System, e: Event, conv: string, today: string)
    requires Exhausted(s.table, conv, today)
    ensures Exhausted(Step(s, e).table, conv, today)
    ensures Step(s, e).calls == s.calls ||
            exists c :: c != Call(conv, today) && Step(s, e).calls == s.calls + [c]
  {
  }
}
