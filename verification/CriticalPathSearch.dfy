/**
 The budgeted depth-first search of the critical-path report
 (api/src/analytics/critical-path.ts). The locals that the recursive closure
 mutates are the fields of `ChainSearch`. The clock is an arbitrary sequence of
 readings, so nothing below assumes that time advances.
 */
module CriticalPathSearch {
  import opened Wrappers
  import opened Paths

  datatype JourneyDfsResult = JourneyDfsResult(
    chain: seq<Id>,
    hasCycle: bool,
    truncationReason: Option<TruncationReason>)
  {
    predicate Truncated() { truncationReason.Some? }
  }

  /** The three budgets; a path or clock budget that is not positive is switched off. */
  datatype Budgets = Budgets(depthCap: int, pathBudget: int, wallClockMs: int)

  /** Every simple path that extends `s` is accounted for by a best length `n` and a cycle flag. */
  ghost predicate Covered(members: set<Id>, g: Graph, s: seq<Id>, n: nat, cycle: bool) {
    forall p :: SimplePath(members, g, p) && s <= p ==> |p| <= n && (Closes(g, p) ==> cycle)
  }

  /** The first `i` successors of the top of the stack `s` have been dealt with. */
  ghost predicate Handled(members: set<Id>, g: Graph, s: seq<Id>, succs: seq<Id>, i: nat, n: nat, cycle: bool)
    requires i <= |succs|
  {
    forall j :: 0 <= j < i ==> if succs[j] in s then cycle else Covered(members, g, s + [succs[j]], n, cycle)
  }

  lemma {:induction false} CoveredGrows(members: set<Id>, g: Graph, s: seq<Id>, n: nat, cycle: bool, n': nat,
                                        cycle': bool)
    requires Covered(members, g, s, n, cycle) && n <= n' && (cycle ==> cycle')
    ensures Covered(members, g, s, n', cycle')
  {
  }

  /** Every simple path from one of the starts is accounted for. */
  ghost predicate AllCovered(members: set<Id>, g: Graph, starts: set<Id>, n: nat, cycle: bool) {
    forall start :: start in starts ==> Covered(members, g, [start], n, cycle)
  }

  lemma {:induction false} AllCoveredGrows(members: set<Id>, g: Graph, starts: set<Id>, start: Id,
                                           n: nat, cycle: bool, n': nat, cycle': bool)
    requires AllCovered(members, g, starts, n, cycle) && n <= n' && (cycle ==> cycle')
    requires Covered(members, g, [start], n', cycle')
    ensures AllCovered(members, g, starts + {start}, n', cycle')
  {
  }

  lemma {:induction false} HandledNext(members: set<Id>, g: Graph, s: seq<Id>, succs: seq<Id>, i: nat,
                    n: nat, cycle: bool, n': nat, cycle': bool)
    requires i < |succs| && Handled(members, g, s, succs, i, n, cycle)
    requires n <= n' && (cycle ==> cycle')
    requires if succs[i] in s then cycle' else Covered(members, g, s + [succs[i]], n', cycle')
    ensures Handled(members, g, s, succs, i + 1, n', cycle')
  {
    forall j | 0 <= j < i && succs[j] !in s
      ensures Covered(members, g, s + [succs[j]], n', cycle')
    {
      CoveredGrows(members, g, s + [succs[j]], n, cycle, n', cycle');
    }
  }

  /** Dealing with every successor of the top of the stack covers the stack. */
  lemma {:induction false} AllHandledCovers(members: set<Id>, g: Graph, s: seq<Id>, n: nat, cycle: bool)
    requires SimplePath(members, g, s) && |s| <= n
    requires Handled(members, g, s, Succs(g, Last(s)), |Succs(g, Last(s))|, n, cycle)
    ensures Covered(members, g, s, n, cycle)
  {
    forall p | SimplePath(members, g, p) && s <= p
      ensures |p| <= n && (Closes(g, p) ==> cycle)
    {
      if |s| < |p| {
        StepOfExtension(members, g, s, p);
        assert Covered(members, g, s + [p[|s|]], n, cycle);
      } else {
        assert p == s;
      }
    }
  }

  class ChainSearch {
    const graph: Graph
    ghost const members: set<Id>
    const budgets: Budgets
    const clock: nat -> int
    const startedAt: int
    ghost const firstTick: nat

    var best: seq<Id>
    var hasCycle: bool
    var truncated: bool
    var truncationReason: Option<TruncationReason>
    var pathsExplored: nat
    var onPath: set<Id>
    var stack: seq<Id>
    /** How many clock readings have been taken. */
    var ticks: nat
    /** How often Dfs was entered while no budget had fired. */
    ghost var entries: nat

    constructor (graph: Graph, ghost members: set<Id>, budgets: Budgets,
                 clock: nat -> int, ticks: nat, startedAt: int)
      requires Closed(members, graph)
      ensures this.graph == graph && this.members == members && this.budgets == budgets
      ensures this.clock == clock && this.startedAt == startedAt
      ensures this.firstTick == ticks == this.ticks
      ensures best == [] && !hasCycle && stack == [] && !truncated && pathsExplored == entries == 0
      ensures Sound()
    {
      this.graph, this.members, this.budgets := graph, members, budgets;
      this.clock, this.startedAt := clock, startedAt;
      this.firstTick, this.ticks := ticks, ticks;
      best, hasCycle, truncated, truncationReason := [], false, false, None;
      pathsExplored, onPath, stack, entries := 0, {}, [], 0;
    }

    ghost predicate Simple(p: seq<Id>) {
      SimplePath(members, graph, p)
    }

    /** What holds in every state of every run, whichever budget has fired. */
    ghost predicate Sound()
      reads this
    {
      SoundPaths() && truncated == truncationReason.Some? && Spent(truncationReason)
    }

    ghost predicate SoundPaths()
      reads this`best, this`hasCycle, this`stack, this`onPath, this`ticks
    {
      && Closed(members, graph)
      && onPath == Elements(stack)
      && (best != [] ==> Simple(best))
      && |best| <= EffectiveCap(budgets.depthCap)
      && (hasCycle ==> HasCycle(members, graph))
      && firstTick <= ticks
    }

    /** The budget that the reason names, and no other, is spent. */
    ghost predicate Spent(reason: Option<TruncationReason>)
      reads this`best, this`ticks, this`pathsExplored
    {
      && (reason == Some(DepthCap) ==>
            |best| == EffectiveCap(budgets.depthCap) && SomePathOfLength(members, graph, |best| + 1))
      && (reason == Some(WallClock) ==>
            budgets.wallClockMs > 0 && firstTick < ticks && clock(ticks - 1) - startedAt >= budgets.wallClockMs)
      && (reason != Some(WallClock) && budgets.wallClockMs > 0 ==>
            forall k :: firstTick <= k < ticks ==> clock(k) - startedAt < budgets.wallClockMs)
      && (budgets.wallClockMs <= 0 ==> ticks == firstTick)
      && (reason == Some(PathBudget) ==>
            budgets.pathBudget > 0 && pathsExplored == budgets.pathBudget + 1)
      && (reason != Some(PathBudget) && budgets.pathBudget > 0 ==>
            pathsExplored <= budgets.pathBudget)
    }

    /** The path that a spent path budget refuses is counted but never entered. */
    ghost function Refused(): nat
      reads this`truncationReason
    {
      if truncationReason == Some(PathBudget) then 1 else 0
    }

    /** Every simple path that extends `s` has been taken into account. */
    ghost predicate Explored(s: seq<Id>)
      reads this`best, this`hasCycle
    {
      Covered(members, graph, s, |best|, hasCycle)
    }

    method Record()
      requires Sound() && Simple(stack) && |stack| <= EffectiveCap(budgets.depthCap) && !truncated
      modifies this`best
      ensures Sound() && best == if |stack| > |old(best)| then stack else old(best)
    {
      if |stack| > |best| {
        best := stack;
      }
    }

    method Push(n: Id)
      requires onPath == Elements(stack)
      modifies this`stack, this`onPath
      ensures stack == old(stack) + [n] && onPath == old(onPath) + {n} == Elements(stack)
    {
      stack := stack + [n];
      onPath := onPath + {n};
    }

    /** The node on top must not occur below it, or the set would lose it. */
    method Pop()
      requires onPath == Elements(stack) && stack != [] && Distinct(stack)
      modifies this`stack, this`onPath
      ensures stack == old(stack)[..|old(stack)| - 1] && onPath == Elements(stack)
    {
      onPath := onPath - {Last(stack)};
      stack := stack[..|stack| - 1];
    }

    /** Stopping for a budget that is spent restores the invariant the spending broke. */
    method Truncate(reason: TruncationReason)
      requires SoundPaths() && Spent(Some(reason))
      modifies this`truncated, this`truncationReason
      ensures Sound() && truncated && truncationReason == Some(reason)
    {
      truncated := true;
      truncationReason := Some(reason);
    }

    /** The three budget checks made before an edge is followed, in the source's order. */
    method SpendBudget(next: Id)
      requires Sound() && !truncated && stack != [] && Simple(stack + [next])
      requires |stack| <= |best| && |stack| <= EffectiveCap(budgets.depthCap)
      modifies this`truncated, this`truncationReason, this`pathsExplored, this`ticks
      ensures Sound() && Refused() + (if truncated then 0 else 1) == pathsExplored - old(pathsExplored)
      ensures !truncated ==> |stack| < EffectiveCap(budgets.depthCap)
    {
      if |stack| >= budgets.depthCap {
        assert |stack + [next]| == |stack| + 1;
        Truncate(DepthCap);
        return;
      }
      if budgets.wallClockMs > 0 {
        var now := clock(ticks);
        ticks := ticks + 1;
        if now - startedAt >= budgets.wallClockMs {
          Truncate(WallClock);
          return;
        }
      }
      pathsExplored := pathsExplored + 1;
      if budgets.pathBudget > 0 && pathsExplored > budgets.pathBudget {
        Truncate(PathBudget);
      }
    }

    /** Follows an edge to a successor that is not on the path, budgets permitting, and backtracks. */
    method Follow(next: Id)
      requires Sound() && !truncated && Simple(stack) && |stack| <= |best|
      requires |stack| <= EffectiveCap(budgets.depthCap)
      requires next !in stack && Edge(graph, Last(stack), next)
      modifies this
      ensures Sound() && stack == old(stack)
      ensures |old(best)| <= |best| && (old(hasCycle) ==> hasCycle)
      ensures entries - old(entries) + Refused() == pathsExplored - old(pathsExplored)
      ensures !truncated ==> Explored(stack + [next])
      decreases members - onPath, 0
    {
      PushSimple(members, graph, stack, next);
      SpendBudget(next);
      if truncated {
        return;
      }
      Push(next);
      assert next in members - old(onPath);
      Dfs(next);
      Pop();
    }

    /** One turn of the loop over the successors of the top of the stack. */
    method Visit(succs: seq<Id>, i: nat)
      requires Sound() && !truncated && Simple(stack) && |stack| <= |best|
      requires |stack| <= EffectiveCap(budgets.depthCap)
      requires i < |succs| && succs == Succs(graph, Last(stack))
      requires Handled(members, graph, stack, succs, i, |best|, hasCycle)
      modifies this
      ensures Sound() && stack == old(stack)
      ensures |old(best)| <= |best| && (old(hasCycle) ==> hasCycle)
      ensures entries - old(entries) + Refused() == pathsExplored - old(pathsExplored)
      ensures !truncated ==> Handled(members, graph, stack, succs, i + 1, |best|, hasCycle)
      decreases members - onPath, 1
    {
      var next := succs[i];
      ghost var n, cycle := |best|, hasCycle;
      assert Edge(graph, Last(stack), next);
      if next in onPath {
        ClosingPathGivesCycle(members, graph, stack);
        hasCycle := true;
      } else {
        Follow(next);
        if truncated {
          return;
        }
      }
      HandledNext(members, graph, stack, succs, i, n, cycle, |best|, hasCycle);
    }

    method Dfs(node: Id)
      requires Sound() && Simple(stack) && Last(stack) == node
      requires |stack| <= EffectiveCap(budgets.depthCap)
      modifies this
      ensures Sound() && stack == old(stack)
      ensures |old(best)| <= |best| && (old(hasCycle) ==> hasCycle)
      ensures old(truncated) ==> unchanged(this)
      ensures !old(truncated) ==> |stack| <= |best|
      ensures !old(truncated) ==> entries - old(entries) + Refused() == 1 + pathsExplored - old(pathsExplored)
      ensures !truncated ==> Explored(stack)
      decreases members - onPath, 2
    {
      if truncated {
        return;
      }
      entries := entries + 1;
      Record();
      var succs := Succs(graph, node);
      for i := 0 to |succs|
        invariant Sound() && stack == old(stack) && !truncated
        invariant |old(best)| <= |best| && |stack| <= |best| && (old(hasCycle) ==> hasCycle)
        invariant entries - old(entries) == 1 + pathsExplored - old(pathsExplored)
        invariant Handled(members, graph, stack, succs, i, |best|, hasCycle)
      {
        Visit(succs, i);
        if truncated {
          return;
        }
      }
      AllHandledCovers(members, graph, stack, |best|, hasCycle);
    }

    /** Searches from one start activity; the stack is empty before and after. */
    method SearchFrom(start: Id)
      requires Sound() && stack == [] && !truncated && start in members
      modifies this
      ensures Sound() && stack == [] && best != []
      ensures |old(best)| <= |best| && (old(hasCycle) ==> hasCycle)
      ensures entries - old(entries) + Refused() == 1 + pathsExplored - old(pathsExplored)
      ensures !truncated ==> Explored([start])
    {
      Push(start);
      assert stack == [start];
      assert Simple([start]);
      Dfs(start);
      assert !truncated ==> Explored([start]);
      Pop();
    }

    /** Searches from every start in turn until a budget fires. */
    method SearchAll(startIds: seq<Id>)
      requires Sound() && stack == [] && best == [] && !truncated && Elements(startIds) == members
      requires pathsExplored == entries == 0
      modifies this
      ensures Sound() && stack == [] && (best == [] <==> startIds == [])
      ensures 0 <= entries + Refused() - pathsExplored <= |startIds|
      ensures truncated ==> entries + Refused() > pathsExplored
      ensures !truncated ==> AllCovered(members, graph, members, |best|, hasCycle)
    {
      var i := 0;
      while i < |startIds| && !truncated
        invariant i <= |startIds| && Sound() && stack == []
        invariant entries + Refused() == i + pathsExplored
        invariant (best == [] <==> i == 0) && (truncated ==> i > 0)
        invariant !truncated ==> AllCovered(members, graph, Elements(startIds[..i]), |best|, hasCycle)
      {
        ghost var n, cycle := |best|, hasCycle;
        SearchFrom(startIds[i]);
        assert startIds[..i + 1] == startIds[..i] + [startIds[i]];
        if !truncated {
          AllCoveredGrows(members, graph, Elements(startIds[..i]), startIds[i], n, cycle, |best|, hasCycle);
        }
        i := i + 1;
      }
      assert startIds[..|startIds|] == startIds;
    }
  }
}
