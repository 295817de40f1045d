/**
 Overlapping turns of one conversation (api/src/chat/agent.ts): a turn loads the
 history, stores the user's message and stores the answer in three steps, and any
 steps of other turns may come between them. No lock keeps them apart.
 */
module ChatInterleaving {
  import opened Wrappers
  import opened ChatHistory
  import opened ChatTurns

  /** How far a turn is, with the index its next message goes to. */
  datatype Phase =
    | Loaded(index: nat)
    | Answering(index: nat)
    | Finished
    | Refused  // by the unique index
    | Failed

  datatype System = System(rows: seq<Row>, turns: seq<Phase>)

  /** What happens between two awaits; `turn` counts from the first turn begun. */
  datatype Event =
    | Load
    | Decline(answer: string)
    | StoreUser(turn: nat, message: string)
    | StoreAnswer(turn: nat, answer: string)
    | Throw(turn: nat)

  /** The index a turn computes when it loads the history. */
  function LoadedIndex(rows: seq<Row>, estimate: string -> nat): nat {
    if NewestFits(rows, estimate) then |rows| else 0
  }

  function Stored(rows: seq<Row>, r: Row): seq<Row> {
    if r.turnIndex == |rows| then rows + [r] else rows
  }

  function Next(rows: seq<Row>, index: nat, phase: Phase): Phase {
    if index == |rows| then phase else Refused
  }

  predicate In(s: System, t: nat) {
    t < |s.turns|
  }

  /** An event that cannot happen in a state changes nothing. */
  function Step(s: System, e: Event, estimate: string -> nat): (s': System)
    ensures |s.turns| <= |s'.turns| && (e.Load? || e.Decline? ==> |s'.turns| == |s.turns| + 1)
  {
    match e
    case Load => s.(turns := s.turns + [Loaded(LoadedIndex(s.rows, estimate))])
    case Decline(answer) =>
      var i := LoadedIndex(s.rows, estimate);
      System(Stored(s.rows, Row(i, Assistant, answer)), s.turns + [Next(s.rows, i, Finished)])
    case StoreUser(t, message) =>
      if In(s, t) && s.turns[t].Loaded? then
        var i := s.turns[t].index;
        System(Stored(s.rows, Row(i, User, message)), s.turns[t := Next(s.rows, i, Answering(i + 1))])
      else s
    case StoreAnswer(t, answer) =>
      if In(s, t) && s.turns[t].Answering? then
        var i := s.turns[t].index;
        System(Stored(s.rows, Row(i, Assistant, answer)), s.turns[t := Next(s.rows, i, Finished)])
      else s
    case Throw(t) =>
      if In(s, t) && (s.turns[t].Loaded? || s.turns[t].Answering?) then s.(turns := s.turns[t := Failed]) else s
  }

  /** No turn aims beyond the next free index. */
  ghost predicate Valid(s: System) {
    && Contiguous(s.rows)
    && forall t :: 0 <= t < |s.turns| && (s.turns[t].Loaded? || s.turns[t].Answering?) ==> s.turns[t].index <= |s.rows|
  }

  // ---------- the steps as the program takes them ----------

  /** A conversation and, for every turn begun, the index its local variables hold. */
  class OpenTurns {
    const conversation: Conversation
    const estimate: string -> nat
    var turns: seq<Phase>

    constructor (estimate: string -> nat)
      ensures this.estimate == estimate && fresh(conversation) && State() == System([], [])
    {
      this.estimate, turns := estimate, [];
      conversation := new Conversation();
    }

    ghost function State(): System
      reads this, conversation
    {
      System(conversation.rows, turns)
    }

    /** Loads the history of a new turn; a turn beyond the quota stores its refusal before anything else runs. */
    method Begin(refusal: Option<string>)
      requires Valid(State())
      modifies this, conversation
      ensures Valid(State())
      ensures State() == Step(old(State()), if refusal.Some? then Decline(refusal.value) else Load, estimate)
    {
      var index := conversation.NextIndex(estimate);
      if refusal.Some? {
        var result := conversation.AppendNext(Row(index, Assistant, refusal.value));
        turns := turns + [if result.Success? then Finished else Refused];
      } else {
        turns := turns + [Loaded(index)];
      }
    }

    method StoreMessage(t: nat, message: string)
      requires Valid(State())
      modifies this, conversation
      ensures Valid(State()) && State() == Step(old(State()), StoreUser(t, message), estimate)
    {
      if t < |turns| && turns[t].Loaded? {
        var index := turns[t].index;
        var result := conversation.AppendNext(Row(index, User, message));
        turns := turns[t := if result.Success? then Answering(index + 1) else Refused];
      }
    }

    method StoreReply(t: nat, answer: string)
      requires Valid(State())
      modifies this, conversation
      ensures Valid(State()) && State() == Step(old(State()), StoreAnswer(t, answer), estimate)
    {
      if t < |turns| && turns[t].Answering? {
        var index := turns[t].index;
        var result := conversation.AppendNext(Row(index, Assistant, answer));
        turns := turns[t := if result.Success? then Finished else Refused];
      }
    }

    /** A step of the turn throws: it stores nothing more. */
    method Abandon(t: nat)
      requires Valid(State())
      modifies this
      ensures Valid(State()) && State() == Step(old(State()), Throw(t), estimate)
    {
      if t < |turns| && (turns[t].Loaded? || turns[t].Answering?) {
        turns := turns[t := Failed];
      }
    }
  }

  // ---------- runs ----------

  function Run(s: System, run: seq<Event>, estimate: string -> nat): (s': System)
    ensures |s.turns| <= |s'.turns|
  {
    if run == [] then s else Step(Run(s, run[..|run| - 1], estimate), run[|run| - 1], estimate)
  }

  function After(run: seq<Event>, estimate: string -> nat): System {
    Run(System([], []), run, estimate)
  }

  lemma {:induction false} RunSnoc(s: System, run: seq<Event>, e: Event, estimate: string -> nat)
    ensures Run(s, run + [e], estimate) == Step(Run(s, run, estimate), e, estimate)
  {
    assert (run + [e])[..|run|] == run;
  }

  lemma {:induction false} RunOfOne(s: System, e: Event, estimate: string -> nat)
    ensures Run(s, [e], estimate) == Step(s, e, estimate)
  {
    RunSnoc(s, [], e, estimate);
  }

  lemma {:induction false} RunOfTwo(s: System, e: Event, f: Event, estimate: string -> nat)
    ensures Run(s, [e, f], estimate) == Step(Step(s, e, estimate), f, estimate)
  {
    RunOfOne(s, e, estimate);
    RunSnoc(s, [e], f, estimate);
    assert [e] + [f] == [e, f];
  }

  lemma {:induction false} RunOfThree(s: System, e: Event, f: Event, g: Event, estimate: string -> nat)
    ensures Run(s, [e, f, g], estimate) == Step(Step(Step(s, e, estimate), f, estimate), g, estimate)
  {
    RunOfTwo(s, e, f, estimate);
    RunSnoc(s, [e, f], g, estimate);
    assert [e, f] + [g] == [e, f, g];
  }

  lemma {:induction false} RunConcat(s: System, a: seq<Event>, b: seq<Event>, estimate: string -> nat)
    ensures Run(s, a + b, estimate) == Run(Run(s, a, estimate), b, estimate)
  {
    if b == [] {
      assert a + b == a;
    } else {
      RunConcat(s, a, b[..|b| - 1], estimate);
      assert (a + b)[..|a + b| - 1] == a + b[..|b| - 1];
    }
  }

  lemma {:induction false} StepKeepsValid(s: System, e: Event, estimate: string -> nat)
    requires Valid(s)
    ensures Valid(Step(s, e, estimate)) && s.rows <= Step(s, e, estimate).rows
  {
  }

  lemma {:induction false} RunKeepsValid(s: System, run: seq<Event>, estimate: string -> nat)
    requires Valid(s)
    ensures Valid(Run(s, run, estimate)) && s.rows <= Run(s, run, estimate).rows
  {
    if run != [] {
      RunKeepsValid(s, run[..|run| - 1], estimate);
      StepKeepsValid(Run(s, run[..|run| - 1], estimate), run[|run| - 1], estimate);
    }
  }

  /** However turns overlap, the stored indices are exactly 0..n-1. */
  lemma {:induction false} IndicesStayContiguous(run: seq<Event>, estimate: string -> nat)
    ensures Contiguous(After(run, estimate).rows)
  {
    RunKeepsValid(System([], []), run, estimate);
  }

  // ---------- when the unique index refuses a message ----------

  /** A refusal beyond the quota is stored at once, unless the newest row does not fit the history. */
  lemma {:induction false} RefusalStoredIff(s: System, answer: string, estimate: string -> nat)
    requires Valid(s)
    ensures Step(s, Decline(answer), estimate)
         == if NewestFits(s.rows, estimate)
            then System(s.rows + [Row(|s.rows|, Assistant, answer)], s.turns + [Finished])
            else System(s.rows, s.turns + [Refused])
  {
    if !NewestFits(s.rows, estimate) {
      assert s.rows != [];
    }
  }

  /** A turn that throws while it is open stores nothing more, whatever else happens; nor does one that has ended. */
  lemma {:induction false} EndedTurnsStay(s: System, t: nat, run: seq<Event>, estimate: string -> nat)
    requires In(s, t)
    ensures var thrown := Run(Step(s, Throw(t), estimate), run, estimate).turns[t];
            thrown == if s.turns[t].Loaded? || s.turns[t].Answering? then Failed else s.turns[t]
    ensures forall text ::
              var s' := Run(Step(s, Throw(t), estimate), run, estimate);
              Step(s', StoreUser(t, text), estimate) == s' == Step(s', StoreAnswer(t, text), estimate)
    ensures Step(s, Throw(t), estimate).rows == s.rows
  {
    if run != [] {
      EndedTurnsStay(s, t, run[..|run| - 1], estimate);
    }
  }

  /** A turn that is still waiting to store its message, or its answer, aims at the same index. */
  lemma {:induction false} PhaseKept(s: System, t: nat, run: seq<Event>, estimate: string -> nat)
    requires In(s, t)
    ensures var s' := Run(s, run, estimate);
            && (s'.turns[t].Loaded? ==> s'.turns[t] == s.turns[t])
            && (s'.turns[t].Answering? && !s.turns[t].Loaded? ==> s'.turns[t] == s.turns[t])
  {
    if run != [] {
      PhaseKept(s, t, run[..|run| - 1], estimate);
    }
  }

  /**
   A user's message is refused exactly when another row was stored since its turn
   loaded the history, or the newest row did not fit when it did.
   */
  lemma {:induction false} MessageRefusedIff(s: System, between: seq<Event>, message: string, estimate: string -> nat)
    requires Valid(s)
    requires Run(Step(s, Load, estimate), between, estimate).turns[|s.turns|].Loaded?
    ensures
      var t, s' := |s.turns|, Run(Step(s, Load, estimate), between, estimate);
      var stored := Step(s', StoreUser(t, message), estimate);
      && (stored.turns[t] == Refused <==> s'.rows != s.rows || !NewestFits(s.rows, estimate))
      && stored.rows == if stored.turns[t] == Refused then s'.rows else s'.rows + [Row(|s.rows|, User, message)]
  {
    PhaseKept(Step(s, Load, estimate), |s.turns|, between, estimate);
    RunKeepsValid(Step(s, Load, estimate), between, estimate);
  }

  /** An answer is refused exactly when another row was stored since the message of its turn. */
  lemma {:induction false} AnswerRefusedIff(
    s: System, t: nat, message: string, between: seq<Event>, answer: string, estimate: string -> nat)
    requires Valid(s) && In(s, t) && s.turns[t] == Loaded(|s.rows|)
    requires Run(Step(s, StoreUser(t, message), estimate), between, estimate).turns[t].Answering?
    ensures
      var s' := Run(Step(s, StoreUser(t, message), estimate), between, estimate);
      var stored := Step(s', StoreAnswer(t, answer), estimate);
      && (stored.turns[t] == Refused <==> s'.rows != s.rows + [Row(|s.rows|, User, message)])
      && stored.rows == if stored.turns[t] == Refused then s'.rows else s'.rows + [Row(|s.rows| + 1, Assistant, answer)]
  {
    var after := Step(s, StoreUser(t, message), estimate);
    PhaseKept(after, t, between, estimate);
    RunKeepsValid(after, between, estimate);
  }

  // ---------- within the shipped limits ----------

  /** The text an event stores fits the history budget. */
  predicate EventFits(e: Event, estimate: string -> nat) {
    match e
    case Decline(answer) => Fits(answer, estimate)
    case StoreUser(_, message) => Fits(message, estimate)
    case StoreAnswer(_, answer) => Fits(answer, estimate)
    case _ => true
  }

  predicate AllRowsFit(rows: seq<Row>, estimate: string -> nat) {
    forall i :: 0 <= i < |rows| ==> Fits(rows[i].content, estimate)
  }

  /** Where every text fits, every turn loads the next free index, so only overlap makes the index refuse anything. */
  lemma {:induction false} FittingRowsStay(s: System, run: seq<Event>, estimate: string -> nat)
    requires AllRowsFit(s.rows, estimate) && forall i :: 0 <= i < |run| ==> EventFits(run[i], estimate)
    ensures AllRowsFit(Run(s, run, estimate).rows, estimate)
    ensures LoadedIndex(Run(s, run, estimate).rows, estimate) == |Run(s, run, estimate).rows|
  {
    if run != [] {
      FittingRowsStay(s, run[..|run| - 1], estimate);
    }
  }

  /** Two overlapping turns: the second stores its message where the first one's answer was to go. */
  function Overlap(a: string, b: string, answer: string): seq<Event> {
    [Load, StoreUser(0, a), Load, StoreUser(1, b), StoreAnswer(0, answer)]
  }

  lemma {:induction false} SecondTurnLoads(a: string, estimate: string -> nat)
    requires Fits(a, estimate)
    ensures Run(System([], []), [Load, StoreUser(0, a), Load], estimate)
         == System([Row(0, User, a)], [Answering(1), Loaded(1)])
  {
    RunOfThree(System([], []), Load, StoreUser(0, a), Load, estimate);
  }

  lemma {:induction false} SecondTurnStores(a: string, b: string, answer: string, estimate: string -> nat)
    ensures Run(System([Row(0, User, a)], [Answering(1), Loaded(1)]),
                [StoreUser(1, b), StoreAnswer(0, answer)], estimate)
         == System([Row(0, User, a), Row(1, User, b)], [Refused, Answering(2)])
  {
    RunOfTwo(System([Row(0, User, a)], [Answering(1), Loaded(1)]), StoreUser(1, b), StoreAnswer(0, answer), estimate);
  }

  /** However short the texts are, the first answer is lost. */
  lemma {:induction false} AnswerIsLost(a: string, b: string, answer: string, estimate: string -> nat)
    requires Fits(a, estimate)
    ensures After(Overlap(a, b, answer), estimate)
         == System([Row(0, User, a), Row(1, User, b)], [Refused, Answering(2)])
  {
    var first, second := [Load, StoreUser(0, a), Load], [StoreUser(1, b), StoreAnswer(0, answer)];
    SecondTurnLoads(a, estimate);
    SecondTurnStores(a, b, answer, estimate);
    RunConcat(System([], []), first, second, estimate);
    assert first + second == Overlap(a, b, answer);
  }

  // ---------- turns one after the other ----------

  /** The events of a turn that nothing overlaps, when `t` turns were begun before it. */
  function EventsOf(t: nat, input: TurnInput): seq<Event> {
    match input.outcome
    case QuotaRefused(answer) => [Decline(answer)]
    case Replied(answer) => [Load, StoreUser(t, input.message), StoreAnswer(t, answer)]
    case Interrupted => [Load, StoreUser(t, input.message), Throw(t)]
    case Aborted => [Load, Throw(t)]
  }

  function Serial(inputs: seq<TurnInput>): seq<Event> {
    if inputs == [] then []
    else Serial(inputs[..|inputs| - 1]) + EventsOf(|inputs| - 1, inputs[|inputs| - 1])
  }

  lemma {:induction false} TurnAlone(s: System, input: TurnInput, estimate: string -> nat)
    requires Valid(s)
    ensures var s' := Run(s, EventsOf(|s.turns|, input), estimate);
            s'.rows == AfterTurn(s.rows, input, estimate) && |s'.turns| == |s.turns| + 1
  {
    var t := |s.turns|;
    match input.outcome
    case QuotaRefused(answer) =>
      RunOfOne(s, Decline(answer), estimate);
    case Replied(answer) =>
      RunOfThree(s, Load, StoreUser(t, input.message), StoreAnswer(t, answer), estimate);
    case Interrupted =>
      RunOfThree(s, Load, StoreUser(t, input.message), Throw(t), estimate);
    case Aborted =>
      RunOfTwo(s, Load, Throw(t), estimate);
  }

  /** Turns that do not overlap store what the turns of `ChatTurns` do. */
  lemma {:induction false} SerialTurns(inputs: seq<TurnInput>, estimate: string -> nat)
    ensures After(Serial(inputs), estimate).rows == AfterTurns(inputs, estimate)
    ensures |After(Serial(inputs), estimate).turns| == |inputs|
  {
    if inputs != [] {
      var front, last := inputs[..|inputs| - 1], inputs[|inputs| - 1];
      SerialTurns(front, estimate);
      RunKeepsValid(System([], []), Serial(front), estimate);
      RunConcat(System([], []), Serial(front), EventsOf(|front|, last), estimate);
      TurnAlone(After(Serial(front), estimate), last, estimate);
    }
  }
}
