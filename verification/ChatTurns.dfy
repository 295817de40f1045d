/**
 The persisted messages of a conversation over turns that run one after the other
 (api/src/chat/agent.ts, api/src/chat/persistence.ts): the turn-index arithmetic,
 what each kind of turn stores, and when a turn can no longer be stored.
 ChatInterleaving lets turns overlap.
 */
module ChatTurns {
  import opened Wrappers
  import opened Text
  import opened ChatHistory

  const MAX_HISTORY_MESSAGES := 20
  const MAX_HISTORY_TOKENS_EST := 120000

  /** Where the user's message goes: after the newest message of the history. */
  function NextTurnIndex(history: seq<Row>): int {
    if history == [] then 0 else history[|history| - 1].turnIndex + 1
  }

  /** The indices are exactly 0, 1, ..., n - 1. */
  ghost predicate Contiguous(rows: seq<Row>) {
    forall i :: 0 <= i < |rows| ==> rows[i].turnIndex == i
  }

  predicate Fits(text: string, estimate: string -> nat) {
    estimate(text) <= MAX_HISTORY_TOKENS_EST
  }

  /** There is no message yet, or the newest fits the history budget on its own. */
  predicate NewestFits(rows: seq<Row>, estimate: string -> nat) {
    rows == [] || Fits(rows[|rows| - 1].content, estimate)
  }

  datatype TurnError = UniqueConstraint | Thrown

  /**
   How a turn goes on after the history is loaded: refused for the quota, answered,
   or ended by an exception before or after the user's message is stored.
   */
  datatype Outcome =
    | QuotaRefused(answer: string)
    | Replied(answer: string)
    | Aborted
    | Interrupted

  class Conversation {
    var rows: seq<Row>

    constructor ()
      ensures rows == []
    {
      rows := [];
    }

    /** The unique index refuses a second row with the same turn index. */
    method AppendMessage(r: Row) returns (result: Result<(), TurnError>)
      requires Ascending(rows)
      modifies this
      ensures Ascending(rows)
      ensures result == if HasIndex(old(rows), r.turnIndex) then Failure(UniqueConstraint) else Success(())
      ensures rows == if result.Failure? then old(rows) else Inserted(old(rows), r)
    {
      if HasIndex(rows, r.turnIndex) {
        return Failure(UniqueConstraint);
      }
      InsertedIs(rows, r);
      rows := Inserted(rows, r);
      return Success(());
    }

    /**
     Persists one turn that no other overlaps. A quota refusal stores the assistant's message alone, an
     answered turn, also an out-of-scope one, the user's and then the assistant's,
     and a turn whose model call or tool throws leaves the user's message alone.
     */
    method PersistTurn(message: string, outcome: Outcome, estimate: string -> nat)
      returns (result: Result<(), TurnError>)
      requires Contiguous(rows)
      modifies this
      ensures Contiguous(rows)
      ensures rows == AfterTurn(old(rows), TurnInput(message, outcome), estimate)
      ensures result.Success? <==> NewestFits(old(rows), estimate) && !outcome.Aborted? && !outcome.Interrupted?
      ensures result == Failure(UniqueConstraint) <==> !NewestFits(old(rows), estimate) && !outcome.Aborted?
      // what is stored: whose message, which text, and where
      ensures var n := |old(rows)|;
              if result == Failure(UniqueConstraint) then rows == old(rows)
              else match outcome
                   case QuotaRefused(answer) => rows == old(rows) + [Row(n, Assistant, answer)]
                   case Replied(answer) => rows == old(rows) + [Row(n, User, message), Row(n + 1, Assistant, answer)]
                   case Interrupted => rows == old(rows) + [Row(n, User, message)]
                   case Aborted => rows == old(rows)
    {
      var next := NextIndex(estimate);
      match outcome
      case QuotaRefused(answer) =>
        result := AppendNext(Row(next, Assistant, answer));
      case Aborted =>
        result := Failure(Thrown);
      case Interrupted =>
        result := AppendNext(Row(next, User, message));
        if result.Success? {
          result := Failure(Thrown);
        }
      case Replied(answer) =>
        result := AppendNext(Row(next, User, message));
        if result.Failure? {
          return;
        }
        result := AppendNext(Row(next + 1, Assistant, answer));
    }

    /** The next index is the number of rows, or 0 again when the newest row is too large to be loaded. */
    method NextIndex(estimate: string -> nat) returns (next: int)
      requires Contiguous(rows)
      ensures next == if NewestFits(rows, estimate) then |rows| else 0
    {
      var history := LoadConversationHistory(rows, MAX_HISTORY_MESSAGES, MAX_HISTORY_TOKENS_EST, estimate);
      EmptyHistory(rows, MAX_HISTORY_MESSAGES, MAX_HISTORY_TOKENS_EST, estimate, history);
      next := NextTurnIndex(history);
    }

    /** Appending to contiguous rows works exactly at the end. */
    method AppendNext(r: Row) returns (result: Result<(), TurnError>)
      requires Contiguous(rows) && 0 <= r.turnIndex <= |rows|
      modifies this
      ensures Contiguous(rows)
      ensures result == if r.turnIndex == |old(rows)| then Success(()) else Failure(UniqueConstraint)
      ensures rows == if result.Success? then old(rows) + [r] else old(rows)
    {
      if r.turnIndex < |rows| {
        assert rows[r.turnIndex].turnIndex == r.turnIndex;
      }
      result := AppendMessage(r);
    }
  }

  // ---------- turns one after the other ----------

  datatype TurnInput = TurnInput(message: string, outcome: Outcome)

  /** What a turn stores when the first free index is `n`. */
  function TurnRows(n: nat, t: TurnInput): seq<Row> {
    match t.outcome
    case QuotaRefused(answer) => [Row(n, Assistant, answer)]
    case Replied(answer) => [Row(n, User, t.message), Row(n + 1, Assistant, answer)]
    case Interrupted => [Row(n, User, t.message)]
    case Aborted => []
  }

  /** The rows after one more turn: `PersistTurn` on values. */
  function AfterTurn(rows: seq<Row>, t: TurnInput, estimate: string -> nat): seq<Row> {
    if NewestFits(rows, estimate) then rows + TurnRows(|rows|, t) else rows
  }

  function AfterTurns(turns: seq<TurnInput>, estimate: string -> nat): seq<Row> {
    if turns == [] then [] else AfterTurn(AfterTurns(turns[..|turns| - 1], estimate), turns[|turns| - 1], estimate)
  }

  lemma {:induction false} TurnContiguous(rows: seq<Row>, t: TurnInput)
    requires Contiguous(rows)
    ensures Contiguous(rows + TurnRows(|rows|, t))
  {
  }

  /** After any sequence of turns, however they end, the persisted indices are exactly 0..n-1. */
  lemma {:induction false} IndicesStayContiguous(turns: seq<TurnInput>, estimate: string -> nat)
    ensures Contiguous(AfterTurns(turns, estimate))
  {
    if turns != [] {
      IndicesStayContiguous(turns[..|turns| - 1], estimate);
      TurnContiguous(AfterTurns(turns[..|turns| - 1], estimate), turns[|turns| - 1]);
    }
  }

  /** How many messages the turns mean to store. */
  function MessageCount(turns: seq<TurnInput>): nat {
    if turns == [] then 0 else MessageCount(turns[..|turns| - 1]) + |TurnRows(0, turns[|turns| - 1])|
  }

  predicate Stores(t: TurnInput) {
    !t.outcome.Aborted?
  }

  /** The newest text a turn stores. */
  function LastText(t: TurnInput): string
    requires Stores(t)
  {
    if t.outcome.Interrupted? then t.message else t.outcome.answer
  }

  /** What every turn stores last fits the history budget on its own, if a later turn has something to store. */
  predicate EarlierFit(turns: seq<TurnInput>, estimate: string -> nat) {
    forall i, j :: 0 <= i < j < |turns| && Stores(turns[i]) && Stores(turns[j]) ==> Fits(LastText(turns[i]), estimate)
  }

  predicate AllFit(turns: seq<TurnInput>, estimate: string -> nat) {
    forall i :: 0 <= i < |turns| && Stores(turns[i]) ==> Fits(LastText(turns[i]), estimate)
  }

  /**
   Over any sequence of turns nothing is lost exactly when the last text of every
   turn that another storing turn follows fits the history budget.
   */
  lemma {:induction false} AllPersistedIffEarlierFit(turns: seq<TurnInput>, estimate: string -> nat)
    ensures |AfterTurns(turns, estimate)| <= MessageCount(turns)
    ensures |AfterTurns(turns, estimate)| == MessageCount(turns) <==> EarlierFit(turns, estimate)
    ensures EarlierFit(turns, estimate) ==>
              (NewestFits(AfterTurns(turns, estimate), estimate) <==> AllFit(turns, estimate))
  {
    if turns != [] {
      var front, last := turns[..|turns| - 1], turns[|turns| - 1];
      AllPersistedIffEarlierFit(front, estimate);
      TurnStored(AfterTurns(front, estimate), last, estimate);
      assert turns == front + [last];
      OneMoreTurn(front, last, estimate);
    }
  }

  /** A turn that can be stored is stored whole, and its last text is then the newest. */
  lemma {:induction false} TurnStored(rows: seq<Row>, t: TurnInput, estimate: string -> nat)
    ensures |AfterTurn(rows, t, estimate)| == |rows| + if NewestFits(rows, estimate) then |TurnRows(0, t)| else 0
    ensures |TurnRows(0, t)| > 0 <==> Stores(t)
    ensures NewestFits(AfterTurn(rows, t, estimate), estimate) <==>
              NewestFits(rows, estimate) && (Stores(t) ==> Fits(LastText(t), estimate))
  {
    if NewestFits(rows, estimate) && Stores(t) {
      var after := AfterTurn(rows, t, estimate);
      assert after[|after| - 1].content == LastText(t);
    }
  }

  lemma {:induction false} OneMoreTurn(front: seq<TurnInput>, last: TurnInput, estimate: string -> nat)
    ensures EarlierFit(front + [last], estimate) <==>
              EarlierFit(front, estimate) && (Stores(last) ==> AllFit(front, estimate))
    ensures AllFit(front + [last], estimate) <==>
              AllFit(front, estimate) && (Stores(last) ==> Fits(LastText(last), estimate))
  {
    var turns, n := front + [last], |front|;
    assert turns[n] == last && forall i :: 0 <= i < n ==> turns[i] == front[i];
    if AllFit(turns, estimate) {
      forall i | 0 <= i < n && Stores(front[i])
        ensures Fits(LastText(front[i]), estimate)
      {
        assert Stores(turns[i]);
      }
    }
    if EarlierFit(turns, estimate) {
      forall i, j | 0 <= i < j < n && Stores(front[i]) && Stores(front[j])
        ensures Fits(LastText(front[i]), estimate)
      {
        assert Stores(turns[i]) && Stores(turns[j]);
      }
      if Stores(last) {
        forall i | 0 <= i < n && Stores(front[i])
          ensures Fits(LastText(front[i]), estimate)
        {
          assert Stores(turns[i]) && Stores(turns[n]);
        }
      }
    }
  }

  /** Once the newest message does not fit, every later turn stores nothing. */
  lemma {:induction false} StuckForever(turns: seq<TurnInput>, more: seq<TurnInput>, estimate: string -> nat)
    requires !NewestFits(AfterTurns(turns, estimate), estimate)
    ensures AfterTurns(turns + more, estimate) == AfterTurns(turns, estimate)
  {
    if more == [] {
      assert turns + more == turns;
    } else {
      var front := more[..|more| - 1];
      StuckForever(turns, front, estimate);
      assert (turns + more)[..|turns + more| - 1] == turns + front;
    }
  }

  // ---------- within the shipped limits ----------

  /** The source's estimate: 1.3 tokens a word, rounded up. */
  function EstimateTokens(text: string): nat {
    (13 * Words(text) + 9) / 10
  }

  /** A text fits exactly up to this many words. */
  const MAX_FITTING_WORDS := 92307

  lemma {:induction false} FitsIff(text: string)
    ensures Fits(text, EstimateTokens) <==> Words(text) <= MAX_FITTING_WORDS
  {
  }

  /** A turn sees at most twenty rows, the newest ones, and at most 120000 tokens of them. */
  lemma {:induction false} ShippedWindow(rows: seq<Row>, estimate: string -> nat, h: seq<Row>)
    requires IsLongestFitting(Newest(rows, MAX_HISTORY_MESSAGES), estimate, MAX_HISTORY_TOKENS_EST, h)
    ensures |h| <= 20 && |h| <= |rows| && h == rows[|rows| - |h|..] && Total(h, estimate) <= 120000
    ensures |h| < 20 && |h| < |rows| ==> Total(rows[|rows| - |h| - 1..], estimate) > 120000
  {
    WindowIs(rows, MAX_HISTORY_MESSAGES, MAX_HISTORY_TOKENS_EST, estimate, h);
    if |h| < 20 && |h| < |rows| {
      WindowFits(rows, MAX_HISTORY_MESSAGES, MAX_HISTORY_TOKENS_EST, estimate, h, |h| + 1);
    }
    if h != [] {
      WindowFits(rows, MAX_HISTORY_MESSAGES, MAX_HISTORY_TOKENS_EST, estimate, h, |h|);
    }
  }

  /**
   With messages of at most 4000 characters, as the request schema has it, and
   answers of at most that many words, every turn is stored whole when turns do not overlap: no conversation gets stuck.
   */
  lemma {:induction false} ShippedLimitsSuffice(turns: seq<TurnInput>)
    requires forall i :: 0 <= i < |turns| ==> |turns[i].message| <= 4000
    requires forall i :: 0 <= i < |turns| && (turns[i].outcome.QuotaRefused? || turns[i].outcome.Replied?) ==>
               Words(turns[i].outcome.answer) <= MAX_FITTING_WORDS
    ensures |AfterTurns(turns, EstimateTokens)| == MessageCount(turns)
    ensures NewestFits(AfterTurns(turns, EstimateTokens), EstimateTokens)
  {
    forall i | 0 <= i < |turns| && Stores(turns[i])
      ensures Fits(LastText(turns[i]), EstimateTokens)
    {
      WordsBound(turns[i].message);
      FitsIff(LastText(turns[i]));
    }
    assert EarlierFit(turns, EstimateTokens);
    AllPersistedIffEarlierFit(turns, EstimateTokens);
  }

  /** The estimate is the least whole number that is 1.3 times the words or more. */
  lemma {:induction false} EstimateIs(text: string)
    ensures 10 * EstimateTokens(text) >= 13 * |WordStarts(text)| > 10 * (EstimateTokens(text) - 1)
  {
    WordsAre(text);
  }
}
