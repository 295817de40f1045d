/**
 The search of the key-activity scorer (api/src/derive/key-activity-score.ts):
 it records only paths it cannot extend, and keeps for every node the longest
 recorded path through it. The locals of the closure are the fields of
 `ChainScorer`.
 */
module KeyActivitySearch {
  import opened Wrappers
  import opened Paths

  const DEPTH_CAP := 20
  const PATH_BUDGET := 1000
  const WALL_CLOCK_MS := 4000

  type Through = map<Id, nat>

  /** A recorded path; while nothing has been truncated it is a maximal one. */
  ghost predicate Chain(members: set<Id>, g: Graph, roots: set<Id>, complete: bool, p: seq<Id>) {
    && SimplePath(members, g, p)
    && p[0] in roots
    && |p| >= 2
    && (complete ==> Maximal(members, g, p))
  }

  ghost predicate Attained(members: set<Id>, g: Graph, roots: set<Id>, complete: bool, n: Id, k: nat) {
    exists p :: Chain(members, g, roots, complete, p) && n in p && |p| == k
  }

  /** Every entry is the length of a chain through that node from one of the roots. */
  ghost predicate AllAttained(members: set<Id>, g: Graph, roots: set<Id>, complete: bool, lt: Through) {
    forall n :: n in lt ==> Attained(members, g, roots, complete, n, lt[n])
  }

  /** `best` is as long as the largest entry, and every node on it has that entry. */
  ghost predicate BestIsLargest(lt: Through, best: seq<Id>) {
    && (best == [] ==> lt == map[])
    && (best != [] ==> |best| >= 2)
    && (forall n :: n in best ==> n in lt && lt[n] == |best|)
    && (forall n :: n in lt ==> lt[n] <= |best|)
  }

  ghost predicate Accounted(lt: Through, p: seq<Id>) {
    |p| >= 2 ==> forall n :: n in p ==> n in lt && |p| <= lt[n]
  }

  /** Everything a complete search below `s` must have taken into account. */
  ghost predicate Covered(members: set<Id>, g: Graph, s: seq<Id>, lt: Through, cycle: bool) {
    forall p :: SimplePath(members, g, p) && s <= p ==>
      (Maximal(members, g, p) ==> Accounted(lt, p)) && (Closes(g, p) ==> cycle)
  }

  ghost predicate Handled(members: set<Id>, g: Graph, s: seq<Id>, succs: seq<Id>, i: nat, lt: Through, cycle: bool)
    requires i <= |succs|
  {
    forall j :: 0 <= j < i ==> if succs[j] in s then cycle else Covered(members, g, s + [succs[j]], lt, cycle)
  }

  ghost predicate Grows(lt: Through, lt': Through) {
    forall n :: n in lt ==> n in lt' && lt[n] <= lt'[n]
  }

  /** Whether one of the first `i` successors extends the path. */
  ghost predicate Extended(s: seq<Id>, succs: seq<Id>, i: nat)
    requires i <= |succs|
  {
    exists j :: 0 <= j < i && succs[j] !in s
  }

  lemma {:induction false} ExtendedNext(s: seq<Id>, succs: seq<Id>, i: nat)
    requires i < |succs|
    ensures Extended(s, succs, i + 1) <==> Extended(s, succs, i) || succs[i] !in s
  {
  }

  lemma {:induction false} CoveredGrows(members: set<Id>, g: Graph, s: seq<Id>, lt: Through, cycle: bool,
                                        lt': Through, cycle': bool)
    requires Covered(members, g, s, lt, cycle) && Grows(lt, lt') && (cycle ==> cycle')
    ensures Covered(members, g, s, lt', cycle')
  {
    forall p | SimplePath(members, g, p) && s <= p && Maximal(members, g, p)
      ensures Accounted(lt', p)
    {
      assert Accounted(lt, p);
    }
  }

  lemma {:induction false} HandledGrows(members: set<Id>, g: Graph, s: seq<Id>, succs: seq<Id>, i: nat,
                     lt: Through, lt': Through, cycle: bool)
    requires i <= |succs| && Handled(members, g, s, succs, i, lt, cycle) && Grows(lt, lt')
    ensures Handled(members, g, s, succs, i, lt', cycle)
  {
    forall j | 0 <= j < i && succs[j] !in s
      ensures Covered(members, g, s + [succs[j]], lt', cycle)
    {
      CoveredGrows(members, g, s + [succs[j]], lt, cycle, lt', cycle);
    }
  }

  lemma {:induction false} HandledNext(members: set<Id>, g: Graph, s: seq<Id>, succs: seq<Id>, i: nat,
                    lt: Through, cycle: bool, lt': Through, cycle': bool)
    requires i < |succs| && Handled(members, g, s, succs, i, lt, cycle)
    requires Grows(lt, lt') && (cycle ==> cycle')
    requires if succs[i] in s then cycle' else Covered(members, g, s + [succs[i]], lt', cycle')
    ensures Handled(members, g, s, succs, i + 1, lt', cycle')
  {
    forall j | 0 <= j < i && succs[j] !in s
      ensures Covered(members, g, s + [succs[j]], lt', cycle')
    {
      CoveredGrows(members, g, s + [succs[j]], lt, cycle, lt', cycle');
    }
  }

  lemma {:induction false} AllHandledCovers(members: set<Id>, g: Graph, s: seq<Id>, lt: Through, cycle: bool)
    requires SimplePath(members, g, s)
    requires Handled(members, g, s, Succs(g, Last(s)), |Succs(g, Last(s))|, lt, cycle)
    requires Extended(s, Succs(g, Last(s)), |Succs(g, Last(s))|) || Accounted(lt, s)
    ensures Covered(members, g, s, lt, cycle)
  {
    forall p | SimplePath(members, g, p) && s <= p
      ensures (Maximal(members, g, p) ==> Accounted(lt, p)) && (Closes(g, p) ==> cycle)
    {
      if |s| < |p| {
        StepOfExtension(members, g, s, p);
        assert Covered(members, g, s + [p[|s|]], lt, cycle);
      } else {
        assert p == s;
      }
    }
  }

  /** The table with every node of `p` raised to at least `k`. */
  function Raised(lt: Through, p: seq<Id>, k: nat): Through {
    map n | n in lt.Keys + Elements(p) :: if n in p && (n !in lt || lt[n] < k) then k else lt[n]
  }

  lemma {:induction false} RaisedKeeps(members: set<Id>, g: Graph, roots: set<Id>, complete: bool,
                    lt: Through, best: seq<Id>, p: seq<Id>)
    requires AllAttained(members, g, roots, complete, lt) && BestIsLargest(lt, best)
    requires Chain(members, g, roots, complete, p)
    ensures AllAttained(members, g, roots, complete, Raised(lt, p, |p|))
    ensures BestIsLargest(Raised(lt, p, |p|), if |p| > |best| then p else best)
    ensures Grows(lt, Raised(lt, p, |p|)) && Accounted(Raised(lt, p, |p|), p)
  {
  }

  /** Some chain from the roots goes through `n`. */
  ghost predicate Reached(ids: set<Id>, g: Graph, roots: set<Id>, n: Id) {
    exists k :: Attained(ids, g, roots, true, n, k)
  }

  /** The sweep adds as roots, in order, the nodes no chain has gone through yet. */
  ghost function SweepRoots(ids: set<Id>, g: Graph, roots: set<Id>, todo: seq<Id>): set<Id>
    decreases |todo|
  {
    if todo == [] then roots
    else SweepRoots(ids, g, if Reached(ids, g, roots, todo[0]) then roots else roots + {todo[0]}, todo[1..])
  }

  lemma {:induction false} SweepKeepsRoots(ids: set<Id>, g: Graph, roots: set<Id>, todo: seq<Id>)
    ensures roots <= SweepRoots(ids, g, roots, todo)
    decreases |todo|
  {
    if todo != [] {
      SweepKeepsRoots(ids, g, if Reached(ids, g, roots, todo[0]) then roots else roots + {todo[0]}, todo[1..]);
    }
  }

  /** While nothing is truncated, having an entry means being on some chain from the roots. */
  lemma {:induction false} ReachedIffInTable(members: set<Id>, g: Graph, roots: set<Id>, lt: Through, cycle: bool,
                                             n: Id)
    requires AllAttained(members, g, roots, true, lt)
    requires AllCovered(members, g, roots, lt, cycle)
    ensures Reached(members, g, roots, n) <==> n in lt
  {
    if Reached(members, g, roots, n) {
      var k :| Attained(members, g, roots, true, n, k);
      var p :| Chain(members, g, roots, true, p) && n in p && |p| == k;
      assert [p[0]] <= p;
      assert Accounted(lt, p);
    }
  }

  lemma {:induction false} RootsGrow(members: set<Id>, g: Graph, roots: set<Id>, roots': set<Id>, complete: bool,
                                     lt: Through)
    requires AllAttained(members, g, roots, complete, lt) && roots <= roots'
    ensures AllAttained(members, g, roots', complete, lt)
  {
    forall n | n in lt
      ensures Attained(members, g, roots', complete, n, lt[n])
    {
      var p :| Chain(members, g, roots, complete, p) && n in p && |p| == lt[n];
      assert Chain(members, g, roots', complete, p);
    }
  }

  ghost predicate AllCovered(members: set<Id>, g: Graph, roots: set<Id>, lt: Through, cycle: bool) {
    forall r :: r in roots ==> Covered(members, g, [r], lt, cycle)
  }

  lemma {:induction false} AllCoveredGrows(members: set<Id>, g: Graph, roots: set<Id>, src: Id,
                                           lt: Through, cycle: bool, lt': Through, cycle': bool)
    requires AllCovered(members, g, roots, lt, cycle) && Grows(lt, lt') && (cycle ==> cycle')
    requires Covered(members, g, [src], lt', cycle')
    ensures AllCovered(members, g, roots + {src}, lt', cycle')
  {
    forall r | r in roots
      ensures Covered(members, g, [r], lt', cycle')
    {
      CoveredGrows(members, g, [r], lt, cycle, lt', cycle');
    }
  }

  // ---------- which paths are recorded ----------

  /** How many paths there are at most after one more start: the budget is checked behind every path but the first. */
  function MostPaths(before: nat): nat {
    if before < PATH_BUDGET then PATH_BUDGET else before + 1
  }

  /** No node is listed twice as a successor of another. */
  ghost predicate Tidy(g: Graph) {
    forall n :: n in g ==> Distinct(g[n])
  }

  /** The paths recorded from `start` on all extend `s`. */
  ghost predicate Branch(recorded: seq<seq<Id>>, start: nat, s: seq<Id>) {
    forall i :: start <= i < |recorded| ==> s <= recorded[i]
  }

  /** They go on, after `s`, with one of the first `k` successors. */
  ghost predicate Branches(recorded: seq<seq<Id>>, start: nat, s: seq<Id>, succs: seq<Id>, k: nat)
    requires k <= |succs|
  {
    forall i :: start <= i < |recorded| ==> |s| < |recorded[i]| && s <= recorded[i] && recorded[i][|s|] in succs[..k]
  }

  /** No path is recorded twice from `start` on. */
  ghost predicate Different(recorded: seq<seq<Id>>, start: nat) {
    forall i, j :: start <= i < j < |recorded| ==> recorded[i] != recorded[j]
  }

  /** Only single nodes are recorded twice, by the search that starts there again. */
  ghost predicate OnlySinglesRepeat(recorded: seq<seq<Id>>) {
    forall i, j :: 0 <= i < j < |recorded| && recorded[i] == recorded[j] ==> |recorded[i]| == 1
  }

  lemma {:induction false} OneMoreBranch(before: seq<seq<Id>>, after: seq<seq<Id>>, start: nat, s: seq<Id>,
                                         succs: seq<Id>, k: nat, tidy: bool)
    requires k < |succs| && start <= |before| && before <= after && (tidy ==> Distinct(succs))
    requires Branches(before, start, s, succs, k) && (tidy ==> Different(before, start))
    requires Branch(after, |before|, s + [succs[k]]) && (tidy ==> Different(after, |before|))
    ensures Branches(after, start, s, succs, k + 1) && (tidy ==> Different(after, start))
  {
    var n := |before|;
    assert succs[..k + 1] == succs[..k] + [succs[k]];
    forall i | start <= i < |after|
      ensures |s| < |after[i]| && s <= after[i] && after[i][|s|] in succs[..k + 1]
      ensures i >= n ==> after[i][|s|] == succs[k]
    {
      if i >= n {
        assert (s + [succs[k]])[|s|] == succs[k];
      } else {
        assert after[i] == before[i];
      }
    }
    if tidy {
      forall i, j | start <= i < j < |after|
        ensures after[i] != after[j]
      {
        if i < n {
          assert after[i] == before[i] && after[i][|s|] in succs[..k];
        }
        if j < n {
          assert after[j] == before[j];
        }
      }
    }
  }

  lemma {:induction false} OneMoreStart(recorded: seq<seq<Id>>, recorded': seq<seq<Id>>, src: Id)
    requires recorded <= recorded' && OnlySinglesRepeat(recorded)
    requires forall i :: 0 <= i < |recorded| ==> |recorded[i]| >= 1 && (recorded[i][0] == src ==> |recorded[i]| == 1)
    requires Branch(recorded', |recorded|, [src]) && Different(recorded', |recorded|)
    ensures OnlySinglesRepeat(recorded')
  {
    forall i, j | 0 <= i < j < |recorded'| && recorded'[i] == recorded'[j]
      ensures |recorded'[i]| == 1
    {
      if j < |recorded| {
        assert recorded'[i] == recorded[i] && recorded'[j] == recorded[j];
      } else if i < |recorded| {
        assert recorded'[i] == recorded[i] && [src] <= recorded'[j];
      }
    }
  }

  class ChainScorer {
    const out: Graph
    ghost const members: set<Id>
    const clock: nat -> int
    const startedAt: int
    ghost const firstTick: nat

    var longestThrough: Through
    var best: seq<Id>
    var hasCycle: bool
    var truncated: bool
    var truncationReason: Option<TruncationReason>
    var pathCount: nat
    var stopped: bool
    var path: seq<Id>
    var onPath: set<Id>
    var ticks: nat
    /** The nodes from which a search has been entered. */
    ghost var roots: set<Id>
    /** The path that was abandoned at the depth cap, when that is the reason reported. */
    ghost var capped: seq<Id>
    /** The paths that have been recorded, in order; the source keeps only their number. */
    ghost var recorded: seq<seq<Id>>

    constructor (out: Graph, ghost members: set<Id>, clock: nat -> int, ticks: nat, startedAt: int)
      requires Closed(members, out)
      ensures this.out == out && this.members == members
      ensures this.clock == clock && this.startedAt == startedAt && this.firstTick == ticks
      ensures Sound() && roots == {} && path == [] && !truncated && longestThrough == map[] && recorded == []
    {
      this.out, this.members, this.clock, this.startedAt := out, members, clock, startedAt;
      this.firstTick, this.ticks := ticks, ticks;
      longestThrough, best, hasCycle := map[], [], false;
      truncated, truncationReason, pathCount, stopped := false, None, 0, false;
      path, onPath, roots, capped, recorded := [], {}, {}, [], [];
    }

    /** What holds in every state of every run, whichever budget has fired. */
    ghost predicate Sound()
      reads this
    {
      && Closed(members, out)
      && onPath == Elements(path)
      && (stopped ==> truncated)
      && truncated == truncationReason.Some?
      && firstTick <= ticks
      && (hasCycle ==> HasCycle(members, out))
      && Tables()
      && Recorded()
      && HonestReason()
    }

    /** The count is the number of recorded paths, all of them simple, from a root, and entered in the table. */
    ghost predicate Recorded()
      reads this`pathCount, this`recorded, this`roots, this`longestThrough
    {
      && pathCount == |recorded|
      && forall i :: 0 <= i < |recorded| ==>
           SimplePath(members, out, recorded[i]) && recorded[i][0] in roots && Accounted(longestThrough, recorded[i])
    }

    /** What has been recorded since extends `s`, no path twice, and at most one path beyond the budget. */
    twostate predicate Adds(s: seq<Id>)
      reads this`recorded, this`pathCount
    {
      && old(recorded) <= recorded
      && Branch(recorded, |old(recorded)|, s)
      && (Tidy(out) ==> Different(recorded, |old(recorded)|))
      && pathCount <= MostPaths(old(pathCount))
    }

    ghost predicate Tables()
      reads this`longestThrough, this`best, this`roots, this`truncated
    {
      && AllAttained(members, out, roots, !truncated, longestThrough)
      && BestIsLargest(longestThrough, best)
      && (best != [] ==> Chain(members, out, roots, !truncated, best))
      && (!truncated ==> |best| < DEPTH_CAP)
    }

    /** Some reading of the clock was too late. */
    ghost predicate Late()
      reads this`ticks
    {
      exists k :: firstTick <= k < ticks && clock(k) - startedAt > WALL_CLOCK_MS
    }

    /** A path of as many nodes as the cap from one of the roots. */
    ghost predicate Deep(p: seq<Id>)
      reads this`roots
    {
      SimplePath(members, out, p) && |p| == DEPTH_CAP && p[0] in roots
    }

    ghost predicate HonestReason()
      reads this`truncationReason, this`pathCount, this`ticks, this`capped, this`roots, this`stopped
    {
      && (truncationReason == Some(DepthCap) ==> Deep(capped))
      && (truncationReason == Some(PathBudget) ==> pathCount >= PATH_BUDGET)
      && (truncationReason == Some(WallClock) ==> Late())
      && (stopped ==> Late() || pathCount >= PATH_BUDGET)
    }

    /** The results only grow. */
    twostate predicate Extends()
      reads this
    {
      && Grows(old(longestThrough), longestThrough)
      && (old(hasCycle) ==> hasCycle)
      && roots == old(roots)
      && old(recorded) <= recorded
      && FirstReasonStays()
    }

    twostate predicate FirstReasonStays()
      reads this`truncated, this`truncationReason, this`capped
    {
      old(truncated) ==> truncated && truncationReason == old(truncationReason) && capped == old(capped)
    }

    /** Raises the entry of every node of the current path to the path's length. */
    method RaiseAll()
      modifies this`longestThrough
      ensures longestThrough == Raised(old(longestThrough), path, |path|)
    {
      for i := 0 to |path|
        invariant longestThrough == Raised(old(longestThrough), path[..i], |path|)
      {
        var n := path[i];
        assert path[..i + 1] == path[..i] + [n];
        if (if n in longestThrough then longestThrough[n] else 0) < |path| {
          longestThrough := longestThrough[n := |path|];
        }
      }
      assert path[..|path|] == path;
    }

    method RecordChain()
      requires Tables() && Chain(members, out, roots, !truncated, path)
      requires !truncated ==> |path| < DEPTH_CAP
      modifies this`best, this`longestThrough
      ensures Tables() && Grows(old(longestThrough), longestThrough) && Accounted(longestThrough, path)
    {
      RaisedKeeps(members, out, roots, !truncated, longestThrough, best, path);
      if |path| > |best| {
        best := path;
      }
      RaiseAll();
    }

    /** The count is a search budget: it goes up for every path, chain or not. */
    method RecordPath()
      requires Sound() && SimplePath(members, out, path) && path[0] in roots
      requires truncated || (Maximal(members, out, path) && |path| < DEPTH_CAP)
      modifies this`pathCount, this`best, this`longestThrough, this`recorded
      ensures Sound() && Grows(old(longestThrough), longestThrough) && Accounted(longestThrough, path)
      ensures recorded == old(recorded) + [path] && pathCount == old(pathCount) + 1
    {
      pathCount := pathCount + 1;
      recorded := recorded + [path];
      if |path| < 2 {
        return;
      }
      RecordChain();
    }

    /** The first reason is the one that is reported. */
    method Truncate(reason: TruncationReason)
      requires Sound() && Spent(reason)
      modifies this`truncated, this`truncationReason, this`capped
      ensures Sound() && truncated && FirstReasonStays()
      ensures truncationReason == if old(truncationReason) == None then Some(reason) else old(truncationReason)
    {
      truncated := true;
      if truncationReason == None {
        truncationReason := Some(reason);
        capped := path;
      }
    }

    /** The budget that gives this reason is spent. */
    ghost predicate Spent(reason: TruncationReason)
      reads this`path, this`roots, this`pathCount, this`ticks
    {
      match reason
      case DepthCap => Deep(path)
      case PathBudget => pathCount >= PATH_BUDGET
      case WallClock => Late()
    }

    method Push(n: Id)
      requires onPath == Elements(path)
      modifies this`path, this`onPath
      ensures path == old(path) + [n] && onPath == old(onPath) + {n} == Elements(path)
    {
      path := path + [n];
      onPath := onPath + {n};
    }

    method Pop()
      requires onPath == Elements(path) && path != [] && Distinct(path)
      modifies this`path, this`onPath
      ensures path == old(path)[..|old(path)| - 1] && onPath == Elements(path)
    {
      onPath := onPath - {Last(path)};
      path := path[..|path| - 1];
    }

    /** Extends the path by one edge, searches, and backtracks. */
    method Enter(succ: Id)
      requires Sound() && SimplePath(members, out, path) && path[0] in roots
      requires succ !in path && Edge(out, Last(path), succ)
      requires |path| < DEPTH_CAP
      modifies this
      ensures Sound() && path == old(path) && Extends()
      ensures !truncated ==> Covered(members, out, path + [succ], longestThrough, hasCycle)
      ensures Adds(path + [succ])
      decreases members - onPath, 0
    {
      PushSimple(members, out, path, succ);
      Push(succ);
      assert succ in members - old(onPath);
      Dfs(succ);
      Pop();
    }

    /** Searches through one successor and then checks the path budget. */
    method Follow(succ: Id)
      requires Sound() && !stopped && SimplePath(members, out, path) && path[0] in roots
      requires succ !in path && Edge(out, Last(path), succ)
      requires |path| < DEPTH_CAP
      modifies this
      ensures Sound() && path == old(path) && Extends()
      ensures !truncated ==> Covered(members, out, path + [succ], longestThrough, hasCycle)
      ensures pathCount >= PATH_BUDGET ==> stopped
      ensures Adds(path + [succ])
      decreases members - onPath, 1
    {
      Enter(succ);
      CheckPathBudget();
    }

    method CheckPathBudget()
      requires Sound()
      modifies this`truncated, this`truncationReason, this`capped, this`stopped
      ensures Sound() && FirstReasonStays()
      ensures stopped == (old(stopped) || pathCount >= PATH_BUDGET)
    {
      if stopped {
        return;
      }
      if pathCount >= PATH_BUDGET {
        Truncate(PathBudget);
        stopped := true;
      }
    }

    /** An edge back onto the path. */
    method CloseCycle(succ: Id)
      requires Sound() && SimplePath(members, out, path) && succ in path && Edge(out, Last(path), succ)
      modifies this`hasCycle
      ensures Sound() && hasCycle
    {
      ClosingPathGivesCycle(members, out, path);
      hasCycle := true;
    }

    /** One turn of the loop over the successors of the end of the path. */
    method Visit(succs: seq<Id>, i: nat, ghost start: nat)
      requires Sound() && !stopped && SimplePath(members, out, path) && path[0] in roots
      requires i < |succs| && succs == Succs(out, Last(path))
      requires !truncated ==> Handled(members, out, path, succs, i, longestThrough, hasCycle)
      requires |path| < DEPTH_CAP
      requires start <= |recorded| && Branches(recorded, start, path, succs, i)
      requires Tidy(out) ==> Different(recorded, start)
      modifies this
      ensures Sound() && path == old(path) && Extends()
      ensures !truncated ==> Handled(members, out, path, succs, i + 1, longestThrough, hasCycle)
      ensures stopped ==> pathCount >= PATH_BUDGET || Late()
      ensures succs[i] !in path && pathCount >= PATH_BUDGET ==> stopped
      ensures old(recorded) <= recorded && Branches(recorded, start, path, succs, i + 1)
      ensures Tidy(out) ==> Different(recorded, start)
      ensures pathCount <= MostPaths(old(pathCount))
      ensures succs[i] in path ==> recorded == old(recorded)
      decreases members - onPath, 2
    {
      var succ := succs[i];
      ghost var lt, cycle, before := longestThrough, hasCycle, recorded;
      assert Edge(out, Last(path), succ);
      if succ in onPath {
        CloseCycle(succ);
      } else {
        Follow(succ);
      }
      OneMoreBranch(before, recorded, start, path, succs, i, Tidy(out));
      if !truncated {
        HandledNext(members, out, path, succs, i, lt, cycle, longestThrough, hasCycle);
      }
    }

    /** Gives up the current path: the reason is noted and the path recorded as it stands. */
    method Abandon(reason: TruncationReason)
      requires Sound() && SimplePath(members, out, path) && path[0] in roots && Spent(reason)
      modifies this`truncated, this`truncationReason, this`capped
      modifies this`pathCount, this`best, this`longestThrough, this`recorded
      ensures Sound() && Extends() && truncated && recorded == old(recorded) + [path]
      ensures truncationReason == if old(truncationReason) == None then Some(reason) else old(truncationReason)
    {
      Truncate(reason);
      RecordPath();
    }

    /** One reading of the clock. */
    method OutOfTime() returns (late: bool)
      requires Sound()
      modifies this`ticks
      ensures Sound() && ticks == old(ticks) + 1
      ensures late == (clock(old(ticks)) - startedAt > WALL_CLOCK_MS)
    {
      var now := clock(ticks);
      ticks := ticks + 1;
      late := now - startedAt > WALL_CLOCK_MS;
    }

    /**
     The wall-clock and depth checks made on entry; true when the search must not go
     on. The path is recorded then, and only the clock stops everything.
     */
    method StopHere() returns (stop: bool)
      requires Sound() && !stopped && SimplePath(members, out, path) && path[0] in roots
      requires |path| <= DEPTH_CAP
      modifies this`ticks, this`truncated, this`truncationReason, this`capped, this`stopped
      modifies this`pathCount, this`best, this`longestThrough, this`recorded
      ensures Sound() && Extends() && (stop ==> truncated) && (!stop ==> !stopped && truncated == old(truncated))
      ensures ticks == old(ticks) + 1 && stopped == (clock(old(ticks)) - startedAt > WALL_CLOCK_MS)
      ensures stop <==> stopped || |path| >= DEPTH_CAP
      ensures recorded == old(recorded) + if stop then [path] else []
      ensures stop && old(truncationReason) == None ==>
                truncationReason == Some(if stopped then WallClock else DepthCap)
    {
      var late := OutOfTime();
      if late {
        Stop();
        return true;
      }
      if |path| >= DEPTH_CAP {
        Abandon(DepthCap);
        return true;
      }
      return false;
    }

    /** Gives up the whole search because a reading of the clock was too late. */
    method Stop()
      requires Sound() && SimplePath(members, out, path) && path[0] in roots && Late()
      modifies this`truncated, this`truncationReason, this`capped, this`stopped
      modifies this`pathCount, this`best, this`longestThrough, this`recorded
      ensures Sound() && Extends() && truncated && stopped && recorded == old(recorded) + [path]
      ensures truncationReason == if old(truncationReason) == None then Some(WallClock) else old(truncationReason)
    {
      Abandon(WallClock);
      stopped := true;
    }

    /** The loop over the successors; it says whether any of them extended the path. */
    method VisitAll(succs: seq<Id>) returns (extended: bool)
      requires Sound() && !stopped && SimplePath(members, out, path) && path[0] in roots
      requires succs == Succs(out, Last(path))
      requires |path| < DEPTH_CAP
      modifies this
      ensures Sound() && path == old(path) && Extends()
      ensures !stopped ==> extended == Extended(path, succs, |succs|)
      ensures !truncated ==> Handled(members, out, path, succs, |succs|, longestThrough, hasCycle)
      ensures Adds(path) && Branches(recorded, |old(recorded)|, path, succs, |succs|)
      ensures !stopped && extended ==> pathCount < PATH_BUDGET
      ensures !extended ==> recorded == old(recorded)
      decreases members - onPath, 3
    {
      extended := false;
      for i := 0 to |succs|
        invariant Sound() && path == old(path) && Extends() && !stopped
        invariant extended == Extended(path, succs, i)
        invariant Branches(recorded, |old(recorded)|, path, succs, i)
        invariant Tidy(out) ==> Different(recorded, |old(recorded)|)
        invariant if extended then pathCount < PATH_BUDGET else recorded == old(recorded)
        invariant !truncated ==> Handled(members, out, path, succs, i, longestThrough, hasCycle)
      {
        ExtendedNext(path, succs, i);
        extended := extended || succs[i] !in onPath;
        Visit(succs, i, |old(recorded)|);
        if stopped {
          return;
        }
      }
    }

    method Dfs(node: Id)
      requires Sound() && SimplePath(members, out, path) && path[0] in roots && Last(path) == node
      requires |path| <= DEPTH_CAP
      modifies this
      ensures Sound() && path == old(path) && Extends()
      ensures !truncated ==> Covered(members, out, path, longestThrough, hasCycle)
      ensures Adds(path)
      decreases members - onPath, 5
    {
      if stopped {
        return;
      }
      var stop := StopHere();
      if !stop {
        Expand(node);
      }
    }

    /** The part of the search after the checks: all successors, and then the path itself. */
    method Expand(node: Id)
      requires Sound() && !stopped && SimplePath(members, out, path) && path[0] in roots && Last(path) == node
      requires |path| < DEPTH_CAP
      modifies this
      ensures Sound() && path == old(path) && Extends()
      ensures !truncated ==> Covered(members, out, path, longestThrough, hasCycle)
      ensures Adds(path)
      decreases members - onPath, 4
    {
      var succs := Succs(out, node);
      var extended := VisitAll(succs);
      if !stopped {
        Conclude(succs, extended);
      }
    }

    /** Records the path when no successor extended it; all successors have been visited. */
    method Conclude(succs: seq<Id>, extended: bool)
      requires Sound() && SimplePath(members, out, path) && path[0] in roots
      requires succs == Succs(out, Last(path)) && extended == Extended(path, succs, |succs|)
      requires !truncated ==> Handled(members, out, path, succs, |succs|, longestThrough, hasCycle)
      requires |path| < DEPTH_CAP
      modifies this`pathCount, this`best, this`longestThrough, this`recorded
      ensures Sound() && Grows(old(longestThrough), longestThrough)
      ensures recorded == old(recorded) + if extended then [] else [path]
      ensures !truncated ==> Covered(members, out, path, longestThrough, hasCycle)
    {
      ghost var lt := longestThrough;
      if !extended {
        RecordPath();
      }
      if !truncated {
        HandledGrows(members, out, path, succs, |succs|, lt, longestThrough, hasCycle);
        AllHandledCovers(members, out, path, longestThrough, hasCycle);
      }
    }

    /** A search that is complete below every root entered so far. */
    ghost predicate Complete()
      reads this
    {
      AllCovered(members, out, roots, longestThrough, hasCycle)
    }

    /** A fresh path and on-path set that hold just the start. */
    method BeginAt(src: Id)
      requires Sound() && path == [] && src in members
      modifies this`path, this`onPath, this`roots
      ensures Sound() && path == [src] && roots == old(roots) + {src}
    {
      RootsGrow(members, out, roots, roots + {src}, !truncated, longestThrough);
      roots := roots + {src};
      path, onPath := [src], {src};
    }

    method Leave()
      requires Sound()
      modifies this`path, this`onPath
      ensures Sound() && path == []
    {
      path, onPath := [], {};
    }

    /** No recorded chain starts at a node that is new as a root or new to the table. */
    lemma {:induction false} NewStart(src: Id)
      requires Sound() && (src !in roots || src !in longestThrough)
      ensures forall i :: 0 <= i < |recorded| ==> |recorded[i]| >= 1 && (recorded[i][0] == src ==> |recorded[i]| == 1)
    {
      forall i | 0 <= i < |recorded| && recorded[i][0] == src
        ensures |recorded[i]| == 1
      {
        assert Accounted(longestThrough, recorded[i]);
      }
    }

    /** One start node: the path is empty again afterwards. */
    method SearchAt(src: Id)
      requires Sound() && path == [] && !stopped && src in members
      modifies this
      ensures Sound() && path == [] && roots == old(roots) + {src} && FirstReasonStays()
      ensures Grows(old(longestThrough), longestThrough) && (old(hasCycle) ==> hasCycle) && Adds([src])
      ensures !truncated ==> Covered(members, out, [src], longestThrough, hasCycle)
    {
      BeginAt(src);
      Dfs(src);
      Leave();
    }

    method SearchFrom(src: Id)
      requires Sound() && path == [] && !stopped && src in members
      requires !truncated ==> Complete()
      modifies this
      ensures Sound() && path == [] && roots == old(roots) + {src}
      ensures old(longestThrough.Keys) <= longestThrough.Keys
      ensures FirstReasonStays() && pathCount <= MostPaths(old(pathCount))
      ensures Tidy(out) && OnlySinglesRepeat(old(recorded)) && (src !in old(roots) || src !in old(longestThrough)) ==>
                OnlySinglesRepeat(recorded)
      ensures !truncated ==> Complete()
    {
      ghost var lt, cycle, before := longestThrough, hasCycle, recorded;
      ghost var once := Tidy(out) && OnlySinglesRepeat(before) && (src !in roots || src !in lt);
      if once {
        NewStart(src);
      }
      SearchAt(src);
      if once {
        OneMoreStart(before, recorded, src);
      }
      if !truncated {
        AllCoveredGrows(members, out, old(roots), src, lt, cycle, longestThrough, hasCycle);
      }
    }

    method SearchSources(sources: seq<Id>)
      requires Sound() && path == [] && !truncated && roots == {} && recorded == [] && Elements(sources) <= members
      modifies this
      ensures Sound() && path == [] && roots <= Elements(sources) && pathCount <= PATH_BUDGET + |sources|
      ensures Tidy(out) && Distinct(sources) ==> OnlySinglesRepeat(recorded)
      ensures !truncated ==> Complete() && roots == Elements(sources)
    {
      var i := 0;
      while i < |sources| && !stopped
        invariant i <= |sources| && Sound() && path == []
        invariant roots == Elements(sources[..i]) && pathCount <= PATH_BUDGET + i
        invariant Tidy(out) && Distinct(sources) ==> OnlySinglesRepeat(recorded)
        invariant !truncated ==> Complete()
      {
        assert sources[..i + 1] == sources[..i] + [sources[i]];
        SearchFrom(sources[i]);
        i := i + 1;
      }
      assert sources[..|sources|] == sources;
    }

    /** The nodes that are starts or have an entry. */
    ghost function Known(): set<Id>
      reads this`roots, this`longestThrough
    {
      roots + longestThrough.Keys
    }

    /** The sweep has come to the node at `i`, and will end with these starts. */
    ghost predicate SweptTo(sorted: seq<Id>, i: nat, final: set<Id>)
      requires i <= |sorted|
      reads this
    {
      !truncated ==>
        Complete() && SweepRoots(members, out, roots, sorted[i..]) == final && Elements(sorted[..i]) <= Known()
    }

    /** One turn of the sweep: a start where the table still lacks the node. */
    method SweepOne(sorted: seq<Id>, i: nat, ghost final: set<Id>)
      requires Sound() && path == [] && !stopped && roots <= members
      requires i < |sorted| && sorted[i] in members && SweptTo(sorted, i, final)
      modifies this
      ensures Sound() && path == [] && roots <= members && FirstReasonStays()
      ensures pathCount <= MostPaths(old(pathCount))
      ensures Tidy(out) && OnlySinglesRepeat(old(recorded)) ==> OnlySinglesRepeat(recorded)
      ensures !old(truncated) && truncationReason == Some(DepthCap) ==> capped[0] in final
      ensures SweptTo(sorted, i + 1, final)
    {
      assert sorted[i..][1..] == sorted[i + 1..];
      assert Elements(sorted[..i + 1]) == Elements(sorted[..i]) + {sorted[i]};
      if !truncated {
        ReachedIffInTable(members, out, roots, longestThrough, hasCycle, sorted[i]);
      }
      if sorted[i] !in longestThrough {
        SweepKeepsRoots(members, out, roots + {sorted[i]}, sorted[i + 1..]);
        SearchFrom(sorted[i]);
      }
    }

    lemma {:induction false} SweptNone(sorted: seq<Id>)
      requires !truncated ==> Complete()
      ensures SweptTo(sorted, 0, SweepRoots(members, out, roots, sorted))
    {
      assert sorted[0..] == sorted;
    }

    lemma {:induction false} SweptAll(sorted: seq<Id>, final: set<Id>)
      requires SweptTo(sorted, |sorted|, final) && !truncated && Elements(sorted) == members
      ensures Complete() && roots == final && members <= roots + longestThrough.Keys
    {
      assert sorted[|sorted|..] == [] && sorted[..|sorted|] == sorted;
    }

    /** Searches from the nodes the table still lacks, so that no cycle is missed. */
    method Sweep(sorted: seq<Id>)
      requires Sound() && path == [] && roots <= members && Elements(sorted) == members
      requires !truncated ==> Complete()
      modifies this
      ensures Sound() && path == [] && roots <= members && FirstReasonStays()
      ensures pathCount <= (if old(pathCount) < PATH_BUDGET then PATH_BUDGET else old(pathCount)) + |sorted|
      ensures Tidy(out) && OnlySinglesRepeat(old(recorded)) ==> OnlySinglesRepeat(recorded)
      ensures !old(truncated) && truncationReason == Some(DepthCap) ==>
                capped[0] in SweepRoots(members, out, old(roots), sorted)
      ensures !truncated ==> Complete() && roots == SweepRoots(members, out, old(roots), sorted)
      ensures !truncated ==> members <= roots + longestThrough.Keys
    {
      ghost var final := SweepRoots(members, out, roots, sorted);
      ghost var tidy := Tidy(out) && OnlySinglesRepeat(recorded);
      ghost var most := if pathCount < PATH_BUDGET then PATH_BUDGET else pathCount;
      var i := 0;
      SweptNone(sorted);
      while i < |sorted| && !stopped
        invariant i <= |sorted| && Sound() && path == [] && roots <= members && FirstReasonStays()
        invariant pathCount <= most + i
        invariant tidy ==> OnlySinglesRepeat(recorded)
        invariant !old(truncated) && truncationReason == Some(DepthCap) ==> capped[0] in final
        invariant SweptTo(sorted, i, final)
      {
        assert sorted[i] in Elements(sorted);
        SweepOne(sorted, i, final);
        i := i + 1;
      }
      if !truncated {
        assert i == |sorted|;
        SweptAll(sorted, final);
      }
    }
  }
}
