/**
 The fixed-window rate limiter of api/src/middleware/rate-limit.ts: the
 module-level store, its two operations, and guarantees over whole runs.
 */
module RateLimit {

  datatype Entry = Entry(count: nat, resetTime: int)

  datatype Config = Config(windowMs: int, maxRequests: int)

  datatype Answer = Answer(allowed: bool, remaining: int, resetTime: int)

  type Store = map<string, Entry>

  /** The new store and the answer of one request. */
  function Checked(store: Store, id: string, config: Config, now: int): (Store, Answer) {
    if id !in store || now > store[id].resetTime then
      var reset := now + config.windowMs;
      (store[id := Entry(1, reset)], Answer(true, config.maxRequests - 1, reset))
    else if store[id].count >= config.maxRequests then
      (store, Answer(false, 0, store[id].resetTime))
    else
      var n := store[id].count + 1;
      (store[id := Entry(n, store[id].resetTime)], Answer(true, config.maxRequests - n, store[id].resetTime))
  }

  function Cleaned(store: Store, now: int): Store {
    map id | id in store && now <= store[id].resetTime :: store[id]
  }

  class RateLimiter {
    var store: Store

    constructor ()
      ensures store == map[]
    {
      store := map[];
    }

    method CheckRateLimit(identifier: string, config: Config, now: int) returns (answer: Answer)
      modifies this
      ensures (store, answer) == Checked(old(store), identifier, config, now)
    {
      if identifier !in store || now > store[identifier].resetTime {
        var newEntry := Entry(1, now + config.windowMs);
        store := store[identifier := newEntry];
        return Answer(true, config.maxRequests - 1, newEntry.resetTime);
      }
      var entry := store[identifier];
      if entry.count >= config.maxRequests {
        return Answer(false, 0, entry.resetTime);
      }
      entry := entry.(count := entry.count + 1);
      store := store[identifier := entry];
      return Answer(true, config.maxRequests - entry.count, entry.resetTime);
    }

    /** Deletes the expired entries one by one. */
    method CleanupExpiredEntries(now: int)
      modifies this
      ensures store == Cleaned(old(store), now)
    {
      var todo := store.Keys;
      while todo != {}
        invariant todo <= old(store).Keys
        invariant forall id :: id in store <==> id in old(store) && (id in todo || now <= old(store)[id].resetTime)
        invariant forall id :: id in store ==> store[id] == old(store)[id]
        decreases todo
      {
        var id :| id in todo;
        todo := todo - {id};
        if now > store[id].resetTime {
          store := store - {id};
        }
      }
    }
  }

  // ---------- runs ----------

  datatype Event =
    | Check(id: string, now: int)
    | Cleanup(now: int)

  /** The clock never goes back. */
  ghost predicate Ordered(events: seq<Event>) {
    forall i, j :: 0 <= i < j < |events| ==> events[i].now <= events[j].now
  }

  function StoreAfter(config: Config, events: seq<Event>): Store {
    if events == [] then map[]
    else
      var store := StoreAfter(config, events[..|events| - 1]);
      match events[|events| - 1]
      case Check(id, now) => Checked(store, id, config, now).0
      case Cleanup(now) => Cleaned(store, now)
  }

  /** The answer to a request that comes after `before`. */
  function AnswerAfter(config: Config, before: seq<Event>, id: string, now: int): Answer {
    Checked(StoreAfter(config, before), id, config, now).1
  }

  /** A window always admits the request that opens it, so a limit below 1 acts like 1. */
  function Limit(config: Config): nat {
    if config.maxRequests < 1 then 1 else config.maxRequests
  }

  /** How many requests of `id` were admitted into the window that ends at `reset`. */
  function AdmittedInto(config: Config, events: seq<Event>, id: string, reset: int): nat {
    if events == [] then 0
    else
      var before, e := events[..|events| - 1], events[|events| - 1];
      AdmittedInto(config, before, id, reset) +
      if e.Check? && e.id == id &&
         var a := AnswerAfter(config, before, id, e.now); a.allowed && a.resetTime == reset
      then 1 else 0
  }

  /** How many requests of `id` were admitted between two times, both included. */
  function AdmittedBetween(config: Config, events: seq<Event>, id: string, lo: int, hi: int): nat {
    if events == [] then 0
    else
      var before, e := events[..|events| - 1], events[|events| - 1];
      AdmittedBetween(config, before, id, lo, hi) +
      if e.Check? && e.id == id && lo <= e.now <= hi && AnswerAfter(config, before, id, e.now).allowed then 1 else 0
  }

  lemma {:induction false} OrderedPrefix(events: seq<Event>)
    requires Ordered(events) && events != []
    ensures Ordered(events[..|events| - 1])
    ensures forall i :: 0 <= i < |events| ==> events[i].now <= events[|events| - 1].now
  {
  }

  // ---------- the store is an exact account of the open windows ----------

  /** Every entry counts the requests admitted into its window, and no open window lacks its entry. */
  ghost predicate Exact(config: Config, events: seq<Event>, now: int) {
    var store := StoreAfter(config, events);
    && (forall id :: id in store ==>
          && 1 <= store[id].count <= Limit(config)
          && store[id].count == AdmittedInto(config, events, id, store[id].resetTime))
    && (forall id, reset :: AdmittedInto(config, events, id, reset) <= Limit(config))
    && (forall id, reset :: reset >= now && AdmittedInto(config, events, id, reset) > 0 ==>
          id in store && store[id].resetTime == reset)
  }

  lemma {:induction false} RunIsExact(config: Config, events: seq<Event>, now: int)
    requires config.windowMs >= 0 && Ordered(events)
    requires forall i :: 0 <= i < |events| ==> events[i].now <= now
    ensures Exact(config, events, now)
  {
    if events != [] {
      var before, e := events[..|events| - 1], events[|events| - 1];
      OrderedPrefix(events);
      RunIsExact(config, before, e.now);
      StepIsExact(config, before, e, now);
      assert events == before + [e];
    }
  }

  lemma {:induction false} StepIsExact(config: Config, before: seq<Event>, e: Event, now: int)
    requires config.windowMs >= 0 && Exact(config, before, e.now) && e.now <= now
    ensures Exact(config, before + [e], now)
  {
    var events := before + [e];
    assert events[..|events| - 1] == before;
    var store, store' := StoreAfter(config, before), StoreAfter(config, events);
    forall id, reset
      ensures AdmittedInto(config, events, id, reset) <= Limit(config)
      ensures reset >= now && AdmittedInto(config, events, id, reset) > 0 ==>
                id in store' && store'[id].resetTime == reset
    {
      assert AdmittedInto(config, before, id, reset) <= Limit(config);
    }
  }

  lemma {:induction false} ResetWithinWindow(config: Config, events: seq<Event>, now: int, id: string)
    requires Ordered(events) && forall i :: 0 <= i < |events| ==> events[i].now <= now
    ensures id in StoreAfter(config, events) ==> StoreAfter(config, events)[id].resetTime <= now + config.windowMs
  {
    if events != [] {
      OrderedPrefix(events);
      ResetWithinWindow(config, events[..|events| - 1], events[|events| - 1].now, id);
    }
  }

  lemma {:induction false} AdmittedWithinWindow(config: Config, events: seq<Event>, now: int, id: string, reset: int)
    requires Ordered(events) && forall i :: 0 <= i < |events| ==> events[i].now <= now
    ensures AdmittedInto(config, events, id, reset) > 0 ==> reset <= now + config.windowMs
  {
    if events != [] {
      var before, e := events[..|events| - 1], events[|events| - 1];
      OrderedPrefix(events);
      AdmittedWithinWindow(config, before, e.now, id, reset);
      ResetWithinWindow(config, before, e.now, id);
    }
  }

  /**
   Whatever the configuration, a window that is still open has an entry exactly when
   a request was admitted into it, and the entry counts those that were.
   */
  lemma {:induction false} LiveWindowsAreExact(config: Config, events: seq<Event>, now: int, id: string, reset: int)
    requires Ordered(events) && forall i :: 0 <= i < |events| ==> events[i].now <= now
    requires now <= reset
    ensures var store := StoreAfter(config, events);
            && (id in store && store[id].resetTime == reset <==> AdmittedInto(config, events, id, reset) > 0)
            && (id in store && store[id].resetTime == reset ==>
                  store[id].count == AdmittedInto(config, events, id, reset))
  {
    if config.windowMs >= 0 {
      RunIsExact(config, events, now);
    } else {
      ResetWithinWindow(config, events, now, id);
      AdmittedWithinWindow(config, events, now, id, reset);
    }
  }

  /**
   A request is refused exactly when its window, still open, has already admitted
   the limit; otherwise the answer says how many remain. With a negative window
   length no window is ever open, and every request is admitted as the first of one.
   */
  lemma {:induction false} AnswersAreExact(config: Config, before: seq<Event>, id: string, now: int)
    requires Ordered(before + [Check(id, now)])
    ensures var a := AnswerAfter(config, before, id, now);
            var n := if config.windowMs < 0 then 0 else AdmittedInto(config, before, id, a.resetTime);
            && (if config.windowMs < 0 then a.resetTime == now + config.windowMs
                else now <= a.resetTime <= now + config.windowMs)
            && (a.allowed <==> n < Limit(config))
            && (a.allowed ==> a.remaining == config.maxRequests - (n + 1))
            && (!a.allowed ==> a.remaining == 0)
  {
    var events := before + [Check(id, now)];
    OrderedPrefix(events);
    assert events[..|events| - 1] == before;
    assert forall i :: 0 <= i < |before| ==> events[i] == before[i];
    ResetWithinWindow(config, before, now, id);
    if config.windowMs >= 0 {
      RunIsExact(config, before, now);
      if id !in StoreAfter(config, before) || now > StoreAfter(config, before)[id].resetTime {
        assert AdmittedInto(config, before, id, now + config.windowMs) == 0;
      }
    }
  }

  /** No window admits more than the limit. */
  lemma {:induction false} WindowBound(config: Config, events: seq<Event>, id: string, reset: int)
    requires config.windowMs >= 0 && Ordered(events)
    ensures AdmittedInto(config, events, id, reset) <= Limit(config)
  {
    if events != [] {
      OrderedPrefix(events);
      RunIsExact(config, events, events[|events| - 1].now);
    }
  }

  // ---------- any interval of one window length ----------

  /**
   While the clock is inside the interval, either no window has been opened in it
   and everything admitted in it belongs to one window, or one has, and that
   window lasts beyond the interval.
   */
  ghost predicate AtMostTwo(config: Config, events: seq<Event>, id: string, lo: int) {
    var store := StoreAfter(config, events);
    var n := AdmittedBetween(config, events, id, lo, lo + config.windowMs);
    if id !in store then n < Limit(config)
    else if store[id].resetTime - config.windowMs < lo then n < store[id].count
    else n < Limit(config) + store[id].count
  }

  lemma {:induction false} InsideInterval(config: Config, events: seq<Event>, id: string, lo: int)
    requires config.windowMs >= 0 && Ordered(events)
    requires forall i :: 0 <= i < |events| ==> events[i].now <= lo + config.windowMs
    ensures AtMostTwo(config, events, id, lo)
    ensures events != [] && events[|events| - 1].now < lo ==>
              AdmittedBetween(config, events, id, lo, lo + config.windowMs) == 0
  {
    if events != [] {
      var before, e := events[..|events| - 1], events[|events| - 1];
      OrderedPrefix(events);
      InsideInterval(config, before, id, lo);
      RunIsExact(config, before, e.now);
      if before != [] && e.now < lo {
        assert before[|before| - 1] == events[|before| - 1];
      }
    }
  }

  /**
   Any closed interval of one window length admits fewer than twice the limit: it
   meets at most two windows, and the first of two was opened before it.
   */
  lemma {:induction false} IntervalBound(config: Config, events: seq<Event>, id: string, lo: int)
    requires Ordered(events)
    ensures AdmittedBetween(config, events, id, lo, lo + config.windowMs) < 2 * Limit(config)
  {
    if config.windowMs < 0 {
      NothingBetween(config, events, id, lo, lo + config.windowMs);
    } else if events != [] {
      var before, e := events[..|events| - 1], events[|events| - 1];
      OrderedPrefix(events);
      if e.now <= lo + config.windowMs {
        InsideInterval(config, events, id, lo);
        RunIsExact(config, events, e.now);
      } else {
        IntervalBound(config, before, id, lo);
      }
    }
  }

  lemma {:induction false} NothingBetween(config: Config, events: seq<Event>, id: string, lo: int, hi: int)
    requires hi < lo
    ensures AdmittedBetween(config, events, id, lo, hi) == 0
  {
    if events != [] {
      NothingBetween(config, events[..|events| - 1], id, lo, hi);
    }
  }

  // ---------- the bounds are the best ----------

  /** `n` requests of one identifier at the same time. */
  function Burst(n: nat, id: string, now: int): seq<Event> {
    if n == 0 then [] else Burst(n - 1, id, now) + [Check(id, now)]
  }

  /** A run that ends by `now`. */
  ghost predicate OrderedUntil(events: seq<Event>, now: int) {
    Ordered(events) && forall i :: 0 <= i < |events| ==> events[i].now <= now
  }

  lemma {:induction false} BurstKeepsOrder(before: seq<Event>, n: nat, id: string, now: int)
    requires OrderedUntil(before, now)
    ensures OrderedUntil(before + Burst(n, id, now), now)
  {
    if n == 0 {
      assert before + Burst(n, id, now) == before;
    } else {
      BurstKeepsOrder(before, n - 1, id, now);
      assert before + Burst(n, id, now) == before + Burst(n - 1, id, now) + [Check(id, now)];
    }
  }

  /** The identifier's entry after a run, and how many of its requests were admitted in the interval. */
  ghost predicate Stands(config: Config, events: seq<Event>, id: string, e: Entry, lo: int, hi: int, n: nat) {
    && id in StoreAfter(config, events) && StoreAfter(config, events)[id] == e
    && AdmittedBetween(config, events, id, lo, hi) == n
  }

  lemma {:induction false} Admitted(config: Config, before: seq<Event>, id: string, e: Entry, lo: int, hi: int,
                                    n: nat, now: int)
    requires Stands(config, before, id, e, lo, hi, n)
    requires now <= e.resetTime && 1 <= e.count < Limit(config) && lo <= now <= hi
    ensures Stands(config, before + [Check(id, now)], id, Entry(e.count + 1, e.resetTime), lo, hi, n + 1)
  {
  }

  /** A burst that its open window still has room for is admitted whole. */
  lemma {:induction false} BurstAdmitted(config: Config, before: seq<Event>, id: string, e: Entry, lo: int, hi: int,
                                         n: nat,
                                         now: int, k: nat)
    requires Stands(config, before, id, e, lo, hi, n)
    requires now <= e.resetTime && 1 <= e.count && e.count + k <= Limit(config) && lo <= now <= hi
    ensures Stands(config, before + Burst(k, id, now), id, Entry(e.count + k, e.resetTime), lo, hi, n + k)
  {
    if k == 0 {
      assert before + Burst(k, id, now) == before;
    } else {
      var shorter := before + Burst(k - 1, id, now);
      BurstAdmitted(config, before, id, e, lo, hi, n, now, k - 1);
      Admitted(config, shorter, id, Entry(e.count + k - 1, e.resetTime), lo, hi, n + k - 1, now);
      assert before + Burst(k, id, now) == shorter + [Check(id, now)];
    }
  }

  /** One request that opens a window. */
  lemma {:induction false} Opens(config: Config, before: seq<Event>, id: string, lo: int, hi: int, n: nat, now: int)
    requires id in StoreAfter(config, before) ==> now > StoreAfter(config, before)[id].resetTime
    requires AdmittedBetween(config, before, id, lo, hi) == n
    ensures Stands(config, before + [Check(id, now)], id, Entry(1, now + config.windowMs), lo, hi,
                   n + if lo <= now <= hi then 1 else 0)
  {
  }

  /** One request, and then the rest of its window's limit at the window's last moment. */
  function FirstBurst(config: Config, id: string): seq<Event> {
    [] + [Check(id, 0)] + Burst(Limit(config) - 1, id, config.windowMs)
  }

  /** The same, and a full limit right after that window. */
  function TwoBursts(config: Config, id: string): seq<Event> {
    FirstBurst(config, id) + [Check(id, config.windowMs + 1)] + Burst(Limit(config) - 1, id, config.windowMs + 1)
  }

  lemma {:induction false} TwoBurstsOrdered(config: Config, id: string)
    requires config.windowMs >= 1
    ensures Ordered(TwoBursts(config, id))
  {
    var w, k := config.windowMs, Limit(config) - 1;
    BurstKeepsOrder([] + [Check(id, 0)], k, id, w);
    var first := FirstBurst(config, id);
    assert OrderedUntil(first + [Check(id, w + 1)], w + 1);
    BurstKeepsOrder(first + [Check(id, w + 1)], k, id, w + 1);
  }

  /** How many requests were admitted in the closed interval of one window length from `lo`. */
  function AdmittedWithin(config: Config, events: seq<Event>, id: string, lo: int): nat {
    AdmittedBetween(config, events, id, lo, lo + config.windowMs)
  }

  /** Whatever the limit and the window, some interval of one window length admits one less than twice the limit. */
  lemma {:induction false} BoundIsReached(config: Config, id: string)
    requires config.windowMs >= 1
    ensures Ordered(TwoBursts(config, id))
    ensures AdmittedWithin(config, TwoBursts(config, id), id, config.windowMs) == 2 * Limit(config) - 1
  {
    var w, k := config.windowMs, Limit(config) - 1;
    TwoBurstsOrdered(config, id);
    Opens(config, [], id, w, w + w, 0, 0);
    BurstAdmitted(config, [] + [Check(id, 0)], id, Entry(1, w), w, w + w, 0, w, k);
    var first := FirstBurst(config, id);
    Opens(config, first, id, w, w + w, k, w + 1);
    BurstAdmitted(config, first + [Check(id, w + 1)], id, Entry(1, w + 1 + w), w, w + w, k + 1, w + 1, k);
  }

  ghost predicate IntervalsKeepLimit(config: Config) {
    forall events, id, lo :: Ordered(events) ==> AdmittedWithin(config, events, id, lo) <= Limit(config)
  }

  /** One window length admits at most the limit only where an interval is a moment at most, or the limit is one. */
  lemma {:induction false} IntervalsKeepLimitIff(config: Config)
    ensures IntervalsKeepLimit(config) <==> config.windowMs <= 0 || Limit(config) == 1
  {
    if config.windowMs <= 0 || Limit(config) == 1 {
      forall events, id, lo | Ordered(events)
        ensures AdmittedWithin(config, events, id, lo) <= Limit(config)
      {
        IntervalBound(config, events, id, lo);
        if config.windowMs == 0 {
          MomentIsWindow(config, events, id, lo);
          WindowBound(config, events, id, lo);
        } else if config.windowMs < 0 {
          NothingBetween(config, events, id, lo, lo + config.windowMs);
        }
      }
    } else {
      BoundIsReached(config, "a");
    }
  }

  /** With windows of length zero, what is admitted at a moment is admitted into that moment's window. */
  lemma {:induction false} MomentIsWindow(config: Config, events: seq<Event>, id: string, t: int)
    requires config.windowMs == 0 && Ordered(events)
    ensures AdmittedBetween(config, events, id, t, t) == AdmittedInto(config, events, id, t)
  {
    if events != [] {
      var before, e := events[..|events| - 1], events[|events| - 1];
      OrderedPrefix(events);
      MomentIsWindow(config, before, id, t);
      if e.Check? && e.id == id {
        assert events == before + [Check(id, e.now)];
        AnswersAreExact(config, before, id, e.now);
      }
    }
  }

  ghost predicate WindowsKeepLimit(config: Config) {
    forall events, id, reset :: Ordered(events) ==> AdmittedInto(config, events, id, reset) <= Limit(config)
  }

  /** A window that ends before it begins is opened anew by every request. */
  lemma {:induction false} ReopenedBurst(config: Config, n: nat, id: string)
    requires config.windowMs < 0
    ensures AdmittedInto(config, [] + Burst(n, id, 0), id, config.windowMs) == n
    ensures id in StoreAfter(config, [] + Burst(n, id, 0)) ==>
              StoreAfter(config, [] + Burst(n, id, 0))[id].resetTime == config.windowMs
  {
    if n > 0 {
      ReopenedBurst(config, n - 1, id);
      assert [] + Burst(n, id, 0) == [] + Burst(n - 1, id, 0) + [Check(id, 0)];
      Reopened(config, [] + Burst(n - 1, id, 0), id);
    }
  }

  lemma {:induction false} Reopened(config: Config, before: seq<Event>, id: string)
    requires config.windowMs < 0
    requires id in StoreAfter(config, before) ==> StoreAfter(config, before)[id].resetTime == config.windowMs
    ensures AdmittedInto(config, before + [Check(id, 0)], id, config.windowMs) ==
            AdmittedInto(config, before, id, config.windowMs) + 1
    ensures id in StoreAfter(config, before + [Check(id, 0)]) &&
            StoreAfter(config, before + [Check(id, 0)])[id].resetTime == config.windowMs
  {
  }

  /** In every run every window keeps the limit, exactly when the window length is not negative. */
  lemma {:induction false} WindowsKeepLimitIff(config: Config)
    ensures WindowsKeepLimit(config) <==> config.windowMs >= 0
  {
    if config.windowMs >= 0 {
      forall events, id, reset | Ordered(events)
        ensures AdmittedInto(config, events, id, reset) <= Limit(config)
      {
        WindowBound(config, events, id, reset);
      }
    } else {
      var n := Limit(config) + 1;
      BurstKeepsOrder([], n, "a", 0);
      ReopenedBurst(config, n, "a");
    }
  }

  // ---------- cleaning up changes no answer ----------

  function OnlyChecks(events: seq<Event>): seq<Event> {
    if events == [] then []
    else
      OnlyChecks(events[..|events| - 1]) + if events[|events| - 1].Check? then [events[|events| - 1]] else []
  }

  /** The answers to the requests of a run, in order. */
  function Answers(config: Config, events: seq<Event>): seq<Answer> {
    if events == [] then []
    else
      var before, e := events[..|events| - 1], events[|events| - 1];
      Answers(config, before) + if e.Check? then [AnswerAfter(config, before, e.id, e.now)] else []
  }

  /** The stores differ at most in entries that have expired. */
  ghost predicate SameLive(store: Store, store': Store, now: int) {
    forall id ::
      || (id in store && id in store' && store[id] == store'[id])
      || ((id !in store || store[id].resetTime < now) && (id !in store' || store'[id].resetTime < now))
  }

  lemma {:induction false} CleanupInvisible(config: Config, events: seq<Event>, now: int)
    requires Ordered(events) && forall i :: 0 <= i < |events| ==> events[i].now <= now
    ensures Answers(config, events) == Answers(config, OnlyChecks(events))
    ensures SameLive(StoreAfter(config, events), StoreAfter(config, OnlyChecks(events)), now)
  {
    if events != [] {
      var before, e := events[..|events| - 1], events[|events| - 1];
      OrderedPrefix(events);
      CleanupInvisible(config, before, e.now);
      if e.Check? {
        assert OnlyChecks(events)[..|OnlyChecks(before)|] == OnlyChecks(before);
      } else {
        assert OnlyChecks(events) == OnlyChecks(before);
      }
    }
  }

  // ---------- what a cleanup and a request leave behind ----------

  /** A cleanup deletes exactly the entries whose window is over, and leaves the others as they are. */
  lemma {:induction false} CleanupRemovesExpired(config: Config, events: seq<Event>, now: int, id: string)
    ensures var before, after := StoreAfter(config, events), StoreAfter(config, events + [Cleanup(now)]);
            && (id in after <==> id in before && before[id].resetTime >= now)
            && (id in after ==> after[id] == before[id])
  {
    assert (events + [Cleanup(now)])[..|events|] == events;
  }

  /** A request goes into the window that is still open, and opens one of full length when none is. */
  lemma {:induction false} WindowOfRequest(config: Config, before: seq<Event>, id: string, now: int)
    requires Ordered(before + [Check(id, now)])
    ensures var a := AnswerAfter(config, before, id, now);
            if exists reset :: reset >= now && AdmittedInto(config, before, id, reset) > 0 then
              a.resetTime >= now && AdmittedInto(config, before, id, a.resetTime) > 0
            else a == Answer(true, config.maxRequests - 1, now + config.windowMs)
  {
    var events := before + [Check(id, now)];
    OrderedPrefix(events);
    assert events[..|events| - 1] == before;
    assert forall i :: 0 <= i < |before| ==> events[i] == before[i];
    var store := StoreAfter(config, before);
    if reset :| reset >= now && AdmittedInto(config, before, id, reset) > 0 {
      LiveWindowsAreExact(config, before, now, id, reset);
    } else if id in store && store[id].resetTime >= now {
      LiveWindowsAreExact(config, before, now, id, store[id].resetTime);
    }
  }
}
