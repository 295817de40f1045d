/** The critical path of one journey: the search run from every member activity. */
module CriticalPath {
  import opened Wrappers
  import opened Paths
  import opened CriticalPathSearch

  lemma {:induction false} EveryStartCovers(members: set<Id>, g: Graph, n: nat, cycle: bool)
    requires AllCovered(members, g, members, n, cycle)
    ensures Longest(members, g) <= n
    ensures HasCycle(members, g) ==> cycle
  {
    forall p | SimplePath(members, g, p)
      ensures |p| <= n && (Closes(g, p) ==> cycle)
    {
      assert [p[0]] <= p;
    }
    LongestIs(members, g);
    CycleIffSomePathCloses(members, g);
  }

  /**
   The chain is the best one the budgets allow, for every graph and every clock.
   `entries` counts the searches entered and `ticks'` the clock readings taken.
   */
  method LongestChainForJourney(activityIds: seq<Id>, successors: Graph, budgets: Budgets,
                                clock: nat -> int, ticks: nat, startedAt: int)
    returns (r: JourneyDfsResult, ticks': nat, ghost entries: nat)
    requires Closed(Elements(activityIds), successors)
    ensures r.chain == [] <==> activityIds == []
    ensures r.chain != [] ==> SimplePath(Elements(activityIds), successors, r.chain)
    ensures |r.chain| <= EffectiveCap(budgets.depthCap)
    ensures r.hasCycle ==> HasCycle(Elements(activityIds), successors)
    // without truncation the answer is exact
    ensures !r.Truncated() ==> |r.chain| == Longest(Elements(activityIds), successors)
    ensures !r.Truncated() ==> (r.hasCycle <==> HasCycle(Elements(activityIds), successors))
    ensures !r.Truncated() || r.truncationReason == Some(DepthCap) ==>
              |r.chain| == CappedLongest(Elements(activityIds), successors, budgets.depthCap)
    ensures |r.chain| <= CappedLongest(Elements(activityIds), successors, budgets.depthCap)
    ensures budgets.pathBudget <= 0 && budgets.wallClockMs <= 0 ==>
              (r.Truncated() <==> Longest(Elements(activityIds), successors) > EffectiveCap(budgets.depthCap))
    // a truncation names a budget that was really spent
    ensures r.truncationReason == Some(DepthCap) ==>
              |r.chain| == EffectiveCap(budgets.depthCap) < Longest(Elements(activityIds), successors)
    ensures r.truncationReason == Some(PathBudget) ==> 0 < budgets.pathBudget < entries
    ensures budgets.pathBudget > 0 ==> entries <= |activityIds| + budgets.pathBudget
    ensures ticks <= ticks' && (budgets.wallClockMs <= 0 ==> ticks' == ticks)
    ensures r.truncationReason == Some(WallClock) <==>
              budgets.wallClockMs > 0 &&
              exists k :: ticks <= k < ticks' && clock(k) - startedAt >= budgets.wallClockMs
  {
    ghost var members := Elements(activityIds);
    var s := new ChainSearch(successors, members, budgets, clock, ticks, startedAt);
    s.SearchAll(activityIds);
    r := JourneyDfsResult(s.best, s.hasCycle, s.truncationReason);
    ticks' := s.ticks;
    entries := s.entries;
    LongestIs(members, successors);
    if !r.Truncated() {
      EveryStartCovers(members, successors, |s.best|, s.hasCycle);
    } else if r.truncationReason == Some(DepthCap) {
      ghost var p :| SimplePath(members, successors, p) && |p| == |s.best| + 1;
    } else {
      assert r.truncationReason.value == PathBudget || r.truncationReason.value == WallClock;
    }
  }
}
