/**
 The circuit breaker of api/src/resilience.ts. `execute` awaits the protected
 call, so calls overlap: its part before the await and its two continuations are
 separate atomic steps, and a run is any sequence of them.
 */
module Resilience {
  import opened Wrappers

  datatype CircuitState = CLOSED | OPEN | HALF_OPEN

  datatype Config = Config(failureThreshold: int, recoveryTimeout: int)

  datatype Breaker = Breaker(
    state: CircuitState, failureCount: nat, lastFailureTime: int,
    successCount: nat, halfOpenSuccesses: nat)

  const INITIAL := Breaker(CLOSED, 0, 0, 0, 0)

  /** A call is admitted unless the circuit is open and the recovery time is not over. */
  function Admits(config: Config, b: Breaker, now: int): bool {
    b.state != OPEN || now - b.lastFailureTime > config.recoveryTimeout
  }

  function AfterStart(config: Config, b: Breaker, now: int): Breaker {
    if b.state == OPEN && Admits(config, b, now) then b.(state := HALF_OPEN, halfOpenSuccesses := 0) else b
  }

  function AfterSuccess(b: Breaker): Breaker {
    var counted := b.(successCount := b.successCount + 1, failureCount := 0);
    if b.state != HALF_OPEN then counted
    else counted.(halfOpenSuccesses := b.halfOpenSuccesses + 1,
                  state := if b.halfOpenSuccesses + 1 >= 3 then CLOSED else HALF_OPEN)
  }

  function AfterFailure(config: Config, b: Breaker, now: int): Breaker {
    var counted := b.(failureCount := b.failureCount + 1, lastFailureTime := now);
    if counted.failureCount >= config.failureThreshold then counted.(state := OPEN) else counted
  }

  class CircuitBreaker {
    const config: Config
    var state: CircuitState
    var failureCount: nat
    var lastFailureTime: int
    var successCount: nat
    var halfOpenSuccesses: nat

    constructor (config: Config)
      ensures this.config == config && Value() == INITIAL
    {
      this.config := config;
      state, failureCount, lastFailureTime, successCount, halfOpenSuccesses := CLOSED, 0, 0, 0, 0;
    }

    function Value(): Breaker
      reads this
    {
      Breaker(state, failureCount, lastFailureTime, successCount, halfOpenSuccesses)
    }

    /** The part of `execute` before the await. */
    method Start(now: int) returns (admitted: bool)
      modifies this
      ensures admitted == Admits(config, old(Value()), now)
      ensures Value() == AfterStart(config, old(Value()), now)
    {
      if state == OPEN {
        if now - lastFailureTime > config.recoveryTimeout {
          state := HALF_OPEN;
          halfOpenSuccesses := 0;
        } else {
          return false;
        }
      }
      return true;
    }

    method OnSuccess()
      modifies this
      ensures Value() == AfterSuccess(old(Value()))
    {
      successCount := successCount + 1;
      failureCount := 0;
      if state == HALF_OPEN {
        halfOpenSuccesses := halfOpenSuccesses + 1;
        if halfOpenSuccesses >= 3 {
          state := CLOSED;
        }
      }
    }

    method OnFailure(now: int)
      modifies this
      ensures Value() == AfterFailure(config, old(Value()), now)
    {
      failureCount := failureCount + 1;
      lastFailureTime := now;
      if failureCount >= config.failureThreshold {
        state := OPEN;
      }
    }
  }

  // ---------- runs ----------

  /** A call asks to start, or an admitted call completes. */
  datatype Event = Start(now: int) | Succeeded | Failed(now: int)

  function Step(config: Config, b: Breaker, e: Event): Breaker {
    match e
    case Start(now) => AfterStart(config, b, now)
    case Succeeded => AfterSuccess(b)
    case Failed(now) => AfterFailure(config, b, now)
  }

  function After(config: Config, run: seq<Event>): Breaker {
    if run == [] then INITIAL else Step(config, After(config, run[..|run| - 1]), run[|run| - 1])
  }

  // What the counters are to mean, read off the run alone.

  function FailuresSinceSuccess(run: seq<Event>): nat {
    if run == [] || run[|run| - 1] == Succeeded then 0
    else FailuresSinceSuccess(run[..|run| - 1]) + if run[|run| - 1].Failed? then 1 else 0
  }

  function Successes(run: seq<Event>): nat {
    if run == [] then 0
    else Successes(run[..|run| - 1]) + if run[|run| - 1] == Succeeded then 1 else 0
  }

  function LastFailure(run: seq<Event>): Option<int> {
    if run == [] then None
    else if run[|run| - 1].Failed? then Some(run[|run| - 1].now)
    else LastFailure(run[..|run| - 1])
  }

  /** The last event let a call through an open circuit. */
  predicate EntersHalfOpen(config: Config, run: seq<Event>) {
    run != [] && After(config, run[..|run| - 1]).state == OPEN && After(config, run).state == HALF_OPEN
  }

  function SuccessesSinceEntry(config: Config, run: seq<Event>): nat {
    if run == [] || EntersHalfOpen(config, run) then 0
    else SuccessesSinceEntry(config, run[..|run| - 1]) + if run[|run| - 1] == Succeeded then 1 else 0
  }

  function FailuresSinceEntry(config: Config, run: seq<Event>): nat {
    if run == [] || EntersHalfOpen(config, run) then 0
    else FailuresSinceEntry(config, run[..|run| - 1]) + if run[|run| - 1].Failed? then 1 else 0
  }

  /** Every counter is the quantity it is named after, after every run. */
  lemma {:induction false} CountersAreExact(config: Config, run: seq<Event>)
    ensures var b := After(config, run);
            && b.failureCount == FailuresSinceSuccess(run)
            && b.successCount == Successes(run)
            && b.lastFailureTime == (if LastFailure(run).Some? then LastFailure(run).value else 0)
            && (b.state == OPEN ==> LastFailure(run).Some?)
            && (b.state == HALF_OPEN ==> b.halfOpenSuccesses == SuccessesSinceEntry(config, run) < 3)
  {
    if run != [] {
      CountersAreExact(config, run[..|run| - 1]);
    }
  }

  // ---------- runs that overlapping calls can produce ----------

  /** Admitted calls that have not completed. */
  function InFlight(config: Config, run: seq<Event>): int {
    if run == [] then 0
    else
      InFlight(config, run[..|run| - 1]) +
      match run[|run| - 1]
      case Start(now) => if Admits(config, After(config, run[..|run| - 1]), now) then 1 else 0
      case _ => -1
  }

  /** Only a call in flight completes. */
  predicate Feasible(config: Config, run: seq<Event>) {
    run == [] ||
    (Feasible(config, run[..|run| - 1]) && (run[|run| - 1].Start? || InFlight(config, run[..|run| - 1]) > 0))
  }

  /**
   A closed circuit has seen fewer failures in a row than the threshold, in every
   run, exactly for thresholds from 1.
   */
  lemma {:induction false} ClosedMeansBelowThreshold(config: Config)
    ensures (forall run :: Feasible(config, run) && After(config, run).state == CLOSED ==>
               FailuresSinceSuccess(run) < config.failureThreshold)
            <==> config.failureThreshold >= 1
  {
    if config.failureThreshold >= 1 {
      forall run | After(config, run).state == CLOSED
        ensures FailuresSinceSuccess(run) < config.failureThreshold
      {
        ClosedRun(config, run);
        CountersAreExact(config, run);
      }
    } else {
      assert Feasible(config, []) && After(config, []).state == CLOSED && FailuresSinceSuccess([]) == 0;
    }
  }

  lemma {:induction false} ClosedRun(config: Config, run: seq<Event>)
    requires config.failureThreshold >= 1
    ensures After(config, run).state == CLOSED ==> After(config, run).failureCount < config.failureThreshold
  {
    if run != [] {
      ClosedRun(config, run[..|run| - 1]);
    }
  }

  /**
   From an open circuit a call is admitted exactly when more than the recovery time
   has passed since the last failure of the run.
   */
  lemma {:induction false} OpenAdmission(config: Config, run: seq<Event>, now: int)
    requires After(config, run).state == OPEN
    ensures LastFailure(run).Some?
    ensures Admits(config, After(config, run), now) <==> now - LastFailure(run).value > config.recoveryTimeout
    ensures Admits(config, After(config, run), now) <==> EntersHalfOpen(config, run + [Start(now)])
  {
    CountersAreExact(config, run);
    assert (run + [Start(now)])[..|run|] == run;
  }

  /** The circuit closes again only by the third success since it last became half open. */
  lemma {:induction false} ClosesByThirdSuccess(config: Config, run: seq<Event>, e: Event)
    requires After(config, run).state != CLOSED && After(config, run + [e]).state == CLOSED
    ensures e == Succeeded && After(config, run).state == HALF_OPEN
    ensures SuccessesSinceEntry(config, run + [e]) == 3
  {
    CountersAreExact(config, run);
    assert (run + [e])[..|run|] == run;
  }

  /** It opens only by a failure that brings the failures since the last success to the threshold. */
  lemma {:induction false} OpensByThreshold(config: Config, run: seq<Event>, e: Event)
    requires After(config, run).state != OPEN
    ensures After(config, run + [e]).state == OPEN <==>
              e.Failed? && FailuresSinceSuccess(run + [e]) >= config.failureThreshold
  {
    CountersAreExact(config, run);
    assert (run + [e])[..|run|] == run;
  }

  // ---------- the three successes need not be consecutive ----------

  /** No run closes the circuit with a failure since it last became half open. */
  ghost predicate ClosesConsecutively(config: Config) {
    forall run, e :: Feasible(config, run + [e]) && After(config, run).state == HALF_OPEN &&
                     After(config, run + [e]).state == CLOSED ==>
      FailuresSinceEntry(config, run) == 0
  }

  lemma {:induction false} FailureIsFatal(config: Config, run: seq<Event>)
    requires config.failureThreshold <= 1
    ensures After(config, run).state == HALF_OPEN ==> FailuresSinceEntry(config, run) == 0
  {
    if run != [] {
      FailureIsFatal(config, run[..|run| - 1]);
    }
  }

  /**
   The source's comment lets only consecutive successes close the circuit. They are
   consecutive exactly when a single failure opens the circuit: otherwise one
   success resets the failure count, and a failure after it is forgiven.
   */
  lemma {:induction false} ConsecutiveIffThresholdOne(config: Config)
    ensures ClosesConsecutively(config) <==> config.failureThreshold <= 1
  {
    if config.failureThreshold <= 1 {
      forall run | After(config, run).state == HALF_OPEN
        ensures FailuresSinceEntry(config, run) == 0
      {
        FailureIsFatal(config, run);
      }
    } else {
      ForgivenFailure(config);
    }
  }

  /** The state a feasible run leads to, the calls it leaves in flight, and its failures since half open. */
  ghost predicate LeadsTo(config: Config, run: seq<Event>, b: Breaker, inFlight: int, failures: nat) {
    && Feasible(config, run) && After(config, run) == b
    && InFlight(config, run) == inFlight && FailuresSinceEntry(config, run) == failures
  }

  lemma {:induction false} Continue(config: Config, run: seq<Event>, b: Breaker, inFlight: int, failures: nat, e: Event)
    requires LeadsTo(config, run, b, inFlight, failures) && (e.Start? || inFlight > 0)
    ensures var b' := Step(config, b, e);
            LeadsTo(config, run + [e], b',
                    inFlight + (if !e.Start? then -1 else if Admits(config, b, e.now) then 1 else 0),
                    if b.state == OPEN && b'.state == HALF_OPEN then 0 else failures + if e.Failed? then 1 else 0)
  {
    assert (run + [e])[..|run|] == run;
  }

  /** `n` calls that fail one after the other. */
  function FailingCalls(n: nat): seq<Event> {
    if n == 0 then [] else FailingCalls(n - 1) + [Start(0)] + [Failed(0)]
  }

  /** As many failing calls as the threshold open the circuit, fewer do not. */
  lemma {:induction false} FailingCallsOpen(config: Config, n: nat)
    requires n <= config.failureThreshold
    ensures LeadsTo(config, FailingCalls(n),
                    Breaker(if n > 0 && n == config.failureThreshold then OPEN else CLOSED, n, 0, 0, 0), 0, n)
  {
    if n > 0 {
      FailingCallsOpen(config, n - 1);
      var run, b := FailingCalls(n - 1), Breaker(CLOSED, n - 1, 0, 0, 0);
      Continue(config, run, b, 0, n - 1, Start(0));
      Continue(config, run + [Start(0)], b, 1, n - 1, Failed(0));
    }
  }

  /**
   A run that closes the circuit with a failure among its probes: enough failures
   to open it, then four overlapping probes of which the second fails.
   */
  lemma {:induction false} ForgivenFailure(config: Config)
    requires config.failureThreshold >= 2
    ensures !ClosesConsecutively(config)
  {
    var later := if config.recoveryTimeout < 0 then 1 else config.recoveryTimeout + 1;
    var run := ProbesBegin(config, later);
    var k := config.failureThreshold;
    Continue(config, run, Breaker(HALF_OPEN, k, 0, 0, 0), 4, 0, Succeeded);
    var run1 := run + [Succeeded];
    Continue(config, run1, Breaker(HALF_OPEN, 0, 0, 1, 1), 3, 0, Failed(later));
    var run2 := run1 + [Failed(later)];
    Continue(config, run2, Breaker(HALF_OPEN, 1, later, 1, 1), 2, 1, Succeeded);
    var run3 := run2 + [Succeeded];
    Continue(config, run3, Breaker(HALF_OPEN, 0, later, 2, 2), 1, 1, Succeeded);
    assert After(config, run3 + [Succeeded]).state == CLOSED;
  }

  /** Four calls that start once the recovery time of an opened circuit is over. */
  lemma {:induction false} ProbesBegin(config: Config, later: int) returns (run: seq<Event>)
    requires config.failureThreshold >= 2 && later > config.recoveryTimeout
    ensures LeadsTo(config, run, Breaker(HALF_OPEN, config.failureThreshold, 0, 0, 0), 4, 0)
  {
    var k := config.failureThreshold;
    run := FailingCalls(k);
    FailingCallsOpen(config, k);
    Continue(config, run, Breaker(OPEN, k, 0, 0, 0), 0, k, Start(later));
    run := run + [Start(later)];
    var b := Breaker(HALF_OPEN, k, 0, 0, 0);
    Continue(config, run, b, 1, 0, Start(later));
    run := run + [Start(later)];
    Continue(config, run, b, 2, 0, Start(later));
    run := run + [Start(later)];
    Continue(config, run, b, 3, 0, Start(later));
    run := run + [Start(later)];
  }

  // ---------- the whole transition table ----------

  /** A closed or half-open circuit admits every call. */
  lemma {:induction false} AdmissionIff(config: Config, run: seq<Event>, now: int)
    ensures Admits(config, After(config, run), now) <==>
              After(config, run).state == OPEN ==>
                LastFailure(run).Some? && now - LastFailure(run).value > config.recoveryTimeout
  {
    CountersAreExact(config, run);
  }

  /** The next state, from what has happened in the run so far. */
  lemma {:induction false} NextState(config: Config, run: seq<Event>, e: Event)
    ensures var state, next := After(config, run).state, After(config, run + [e]).state;
            match e
            case Start(now) =>
              next ==
                if state == OPEN && LastFailure(run).Some? && now - LastFailure(run).value > config.recoveryTimeout
                then HALF_OPEN else state
            case Succeeded =>
              next == if state == HALF_OPEN && SuccessesSinceEntry(config, run) >= 2 then CLOSED else state
            case Failed(_) =>
              next == if FailuresSinceSuccess(run) + 1 >= config.failureThreshold then OPEN else state
  {
    CountersAreExact(config, run);
    assert (run + [e])[..|run|] == run;
  }
}
