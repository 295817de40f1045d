/**
 `computeCriticalPath` of api/src/derive/key-activity-score.ts: the scoped graph
 it builds, the roots it searches from, and what its table means.
 */
module KeyActivityPath {
  import opened Wrappers
  import opened Paths
  import opened Ordering
  import opened KeyActivitySearch

  datatype ScoreEdge = ScoreEdge(fromId: Id, toId: Id)

  datatype CriticalPathResult = CriticalPathResult(
    criticalPathLength: nat,
    onCriticalPath: set<Id>,
    longestThrough: Through,
    hasCycle: bool,
    truncationReason: Option<TruncationReason>)
  {
    predicate Truncated() { truncationReason.Some? }
  }

  // ---------- the scoped graph ----------

  function Targets(edges: seq<ScoreEdge>, n: Id): seq<Id> {
    if edges == [] then []
    else
      var e := edges[|edges| - 1];
      Targets(edges[..|edges| - 1], n) + if e.fromId == n then [e.toId] else []
  }

  /** The successor lists the search walks, in sorted order. */
  function OutGraph(ids: set<Id>, edges: seq<ScoreEdge>): Graph {
    map n | n in ids :: SortStrings(Targets(edges, n))
  }

  ghost predicate Scoped(ids: set<Id>, edges: seq<ScoreEdge>) {
    forall e :: e in edges ==> e.fromId in ids && e.toId in ids
  }

  lemma {:induction false} TargetsAre(edges: seq<ScoreEdge>, n: Id, m: Id)
    ensures m in Targets(edges, n) <==> ScoreEdge(n, m) in edges
  {
    if edges != [] {
      var front := edges[..|edges| - 1];
      TargetsAre(front, n, m);
      assert edges == front + [edges[|edges| - 1]];
    }
  }

  /** An edge of the searched graph is an edge of the input, and the other way round. */
  lemma {:induction false} OutGraphEdges(ids: set<Id>, edges: seq<ScoreEdge>)
    requires Scoped(ids, edges)
    ensures forall a, b :: Edge(OutGraph(ids, edges), a, b) <==> ScoreEdge(a, b) in edges
    ensures Closed(ids, OutGraph(ids, edges))
  {
    forall a, b
      ensures Edge(OutGraph(ids, edges), a, b) <==> ScoreEdge(a, b) in edges
    {
      TargetsAre(edges, a, b);
      SortKeeps(StringLe, Targets(edges, a));
      SameElements(SortStrings(Targets(edges, a)), Targets(edges, a));
    }
  }

  // ---------- no successor twice ----------

  ghost predicate NoEdgeTwice(edges: seq<ScoreEdge>) {
    forall i, j :: 0 <= i < j < |edges| ==> edges[i] != edges[j]
  }

  lemma {:induction false} TargetsDiffer(edges: seq<ScoreEdge>, n: Id)
    requires NoEdgeTwice(edges)
    ensures Distinct(Targets(edges, n))
  {
    if edges != [] {
      var front, e := edges[..|edges| - 1], edges[|edges| - 1];
      TargetsDiffer(front, n);
      TargetsAre(front, n, e.toId);
      if e.fromId == n {
        assert ScoreEdge(n, e.toId) == e && e !in front;
      }
    }
  }

  lemma {:induction false} SortedDiffer(ids: seq<Id>)
    requires Distinct(ids)
    ensures Distinct(SortStrings(ids)) && |SortStrings(ids)| == |ids|
  {
    SortKeeps(StringLe, ids);
    SameElements(SortStrings(ids), ids);
    DistinctCardinality(ids);
    assert Elements(SortStrings(ids)) == Elements(ids);
    DistinctByCount(SortStrings(ids));
  }

  /** Without repeated edges no successor is listed twice. */
  lemma {:induction false} TidyGraph(ids: set<Id>, edges: seq<ScoreEdge>)
    requires NoEdgeTwice(edges)
    ensures Tidy(OutGraph(ids, edges))
  {
    forall n | n in ids
      ensures Distinct(OutGraph(ids, edges)[n])
    {
      TargetsDiffer(edges, n);
      SortedDiffer(Targets(edges, n));
    }
  }

  // ---------- where the search starts ----------

  /** Nodes nothing precedes, or every node when there is none. */
  ghost function InitialRoots(ids: set<Id>, g: Graph): set<Id> {
    var sources := set n | n in ids && !HasPredecessor(ids, g, n);
    if sources == {} then ids else sources
  }

  // ---------- what the finished table means ----------

  /** The entries are exactly the longest maximal paths from the roots. */
  ghost predicate ExactFor(ids: set<Id>, g: Graph, roots: set<Id>, lt: Through) {
    && AllAttained(ids, g, roots, true, lt)
    && forall p :: Chain(ids, g, roots, true, p) ==> Accounted(lt, p)
  }

  lemma {:induction false} ExactTablesAgree(ids: set<Id>, g: Graph, roots: set<Id>, lt: Through, lt': Through)
    requires ExactFor(ids, g, roots, lt) && ExactFor(ids, g, roots, lt')
    ensures lt == lt'
  {
    ExactTableBelow(ids, g, roots, lt, lt');
    ExactTableBelow(ids, g, roots, lt', lt);
    assert lt.Keys == lt'.Keys;
  }

  lemma {:induction false} ExactTableBelow(ids: set<Id>, g: Graph, roots: set<Id>, lt: Through, lt': Through)
    requires ExactFor(ids, g, roots, lt) && ExactFor(ids, g, roots, lt')
    ensures forall n :: n in lt ==> n in lt' && lt[n] <= lt'[n]
  {
  }

  ghost function FinalRoots(ids: seq<Id>, g: Graph): set<Id> {
    SweepRoots(Elements(ids), g, InitialRoots(Elements(ids), g), SortStrings(ids))
  }

  /** `k` is the node count of a longest simple path through `n`. */
  ghost predicate IsLongestThrough(ids: set<Id>, g: Graph, n: Id, k: nat) {
    && (exists p :: SimplePath(ids, g, p) && n in p && |p| == k)
    && (forall p :: SimplePath(ids, g, p) && n in p ==> |p| <= k)
  }

  /**
   On an acyclic graph the table is exactly "longest path through": starting only
   at nodes nothing precedes and recording only maximal paths loses nothing.
   */
  lemma {:induction false} AcyclicTable(ids: set<Id>, g: Graph, roots: set<Id>, lt: Through, n: Id)
    requires Closed(ids, g) && !HasCycle(ids, g) && n in ids
    requires forall r :: r in ids && !HasPredecessor(ids, g, r) ==> r in roots
    requires ExactFor(ids, g, roots, lt)
    ensures n in lt ==> lt[n] >= 2 && IsLongestThrough(ids, g, n, lt[n])
    ensures n !in lt ==> IsLongestThrough(ids, g, n, 1)
  {
    forall q | SimplePath(ids, g, q) && n in q && |q| >= 2
      ensures n in lt && |q| <= lt[n]
    {
      ChainThrough(ids, g, roots, lt, q, n);
    }
    assert SimplePath(ids, g, [n]) && n in [n];
    if n in lt {
      var p :| Chain(ids, g, roots, true, p) && n in p && |p| == lt[n];
    }
  }

  lemma {:induction false} ChainThrough(ids: set<Id>, g: Graph, roots: set<Id>, lt: Through, q: seq<Id>, n: Id)
    requires Closed(ids, g) && !HasCycle(ids, g) && ExactFor(ids, g, roots, lt)
    requires forall r :: r in ids && !HasPredecessor(ids, g, r) ==> r in roots
    requires SimplePath(ids, g, q) && n in q && |q| >= 2
    ensures n in lt && |q| <= lt[n]
  {
    var b := ExtendBackward(ids, g, q);
    var p := ExtendForward(ids, g, b);
    assert p[0] == b[0];
    assert n in b by {
      var i :| 0 <= i < |q| && q[i] == n;
      assert b[|b| - |q| + i] == n;
    }
    assert n in p;
    assert Chain(ids, g, roots, true, p);
    assert Accounted(lt, p);
  }

  // ---------- cycles ----------

  /** Every node is a root or lies on a path from one. */
  ghost predicate AllReached(ids: set<Id>, g: Graph, roots: set<Id>, complete: bool) {
    forall n :: n in ids ==> n in roots || exists k :: Attained(ids, g, roots, complete, n, k)
  }

  /** Once every node is reached from a root, a search complete below the roots has met every cycle. */
  lemma {:induction false} ReachedCyclesAreFlagged(ids: set<Id>, g: Graph, roots: set<Id>, lt: Through, cycle: bool)
    requires AllReached(ids, g, roots, true) && roots <= ids
    requires AllCovered(ids, g, roots, lt, cycle)
    ensures HasCycle(ids, g) ==> cycle
  {
    if HasCycle(ids, g) {
      var c :| ClosedWalk(ids, g, c);
      var q := PathToNode(ids, g, roots, c[0]);
      var p := ReachedCycleCloses(ids, g, q, c);
      assert [q[0]] <= p;
      assert Covered(ids, g, [q[0]], lt, cycle);
    }
  }

  lemma {:induction false} PathToNode(ids: set<Id>, g: Graph, roots: set<Id>, n: Id) returns (q: seq<Id>)
    requires AllReached(ids, g, roots, true) && n in ids
    ensures SimplePath(ids, g, q) && q[0] in roots && Last(q) == n
  {
    if n in roots {
      q := [n];
    } else {
      var k :| Attained(ids, g, roots, true, n, k);
      var p :| Chain(ids, g, roots, true, p) && n in p && |p| == k;
      var i :| 0 <= i < |p| && p[i] == n;
      PrefixSimple(ids, g, p, i + 1);
      q := p[..i + 1];
    }
  }

  /** What holds of a result whether or not a budget fired. */
  ghost predicate Consistent(r: CriticalPathResult) {
    && (r.criticalPathLength == 0 <==> r.longestThrough == map[])
    && (forall n :: n in r.longestThrough ==> 2 <= r.longestThrough[n] <= r.criticalPathLength)
    && |r.onCriticalPath| == r.criticalPathLength
    && (forall n :: n in r.onCriticalPath ==> n in r.longestThrough && r.longestThrough[n] == r.criticalPathLength)
  }

  /** The flagged nodes are the ones of one simple path of the reported length. */
  ghost predicate FlagsAChain(ids: set<Id>, g: Graph, length: nat, flagged: set<Id>) {
    if length == 0 then flagged == {}
    else exists p :: SimplePath(ids, g, p) && |p| == length && Elements(p) == flagged
  }

  /** What a search that no budget stopped returns on an acyclic graph. */
  ghost predicate AcyclicAnswer(ids: set<Id>, g: Graph, r: CriticalPathResult) {
    && (forall n :: n in r.longestThrough ==> n in ids && r.longestThrough[n] >= 2)
    && (forall n :: n in ids ==>
          IsLongestThrough(ids, g, n, if n in r.longestThrough then r.longestThrough[n] else 1))
    && r.criticalPathLength == if Longest(ids, g) >= 2 then Longest(ids, g) else 0
  }

  lemma {:induction false} AcyclicResult(ids: seq<Id>, g: Graph, r: CriticalPathResult)
    requires Closed(Elements(ids), g) && !HasCycle(Elements(ids), g)
    requires Consistent(r) && r.longestThrough.Keys <= Elements(ids)
    requires ExactFor(Elements(ids), g, FinalRoots(ids, g), r.longestThrough)
    ensures AcyclicAnswer(Elements(ids), g, r)
  {
    var members := Elements(ids);
    SweepKeepsRoots(members, g, InitialRoots(members, g), SortStrings(ids));
    forall n | n in members
      ensures IsLongestThrough(members, g, n, if n in r.longestThrough then r.longestThrough[n] else 1)
    {
      AcyclicTable(members, g, FinalRoots(ids, g), r.longestThrough, n);
    }
    AcyclicLength(members, g, r);
  }

  lemma {:induction false} AcyclicLength(ids: set<Id>, g: Graph, r: CriticalPathResult)
    requires Consistent(r) && r.longestThrough.Keys <= ids
    requires forall n :: n in ids ==>
               IsLongestThrough(ids, g, n, if n in r.longestThrough then r.longestThrough[n] else 1)
    ensures r.criticalPathLength == if Longest(ids, g) >= 2 then Longest(ids, g) else 0
  {
    LongestIs(ids, g);
    if Longest(ids, g) >= 2 {
      var p :| SimplePath(ids, g, p) && |p| == Longest(ids, g);
      assert p[0] in p && p[0] in ids;
      assert p[0] in r.longestThrough;
    }
    if r.longestThrough != map[] {
      var n :| n in r.onCriticalPath;
      assert r.longestThrough[n] == r.criticalPathLength;
      var p :| SimplePath(ids, g, p) && n in p && |p| == r.criticalPathLength;
    }
  }

  // ---------- the computation ----------

  function IncomingCount(edges: seq<ScoreEdge>, n: Id): nat {
    if edges == [] then 0
    else
      IncomingCount(edges[..|edges| - 1], n) + if edges[|edges| - 1].toId == n then 1 else 0
  }

  lemma {:induction false} IncomingCountIs(edges: seq<ScoreEdge>, n: Id)
    ensures IncomingCount(edges, n) == 0 <==> forall e :: e in edges ==> e.toId != n
  {
    if edges != [] {
      var front := edges[..|edges| - 1];
      IncomingCountIs(front, n);
      assert edges == front + [edges[|edges| - 1]];
    }
  }

  method EmptyTables(ids: seq<Id>) returns (out: Graph, inDegree: map<Id, nat>)
    ensures out == map n | n in Elements(ids) :: []
    ensures inDegree == map n | n in Elements(ids) :: 0
  {
    out, inDegree := map[], map[];
    for i := 0 to |ids|
      invariant out.Keys == inDegree.Keys == Elements(ids[..i])
      invariant forall n :: n in out ==> out[n] == [] && inDegree[n] == 0
    {
      assert ids[..i + 1] == ids[..i] + [ids[i]];
      out := out[ids[i] := []];
      inDegree := inDegree[ids[i] := 0];
    }
    assert ids[..|ids|] == ids;
  }

  /** Fills the empty tables, one edge at a time. */
  method AddEdges(ids: seq<Id>, edges: seq<ScoreEdge>) returns (out: Graph, inDegree: map<Id, nat>)
    requires Scoped(Elements(ids), edges)
    ensures out.Keys == inDegree.Keys == Elements(ids)
    ensures forall n :: n in out ==> out[n] == Targets(edges, n)
    ensures forall n :: n in inDegree ==> inDegree[n] == IncomingCount(edges, n)
  {
    out, inDegree := EmptyTables(ids);
    for i := 0 to |edges|
      invariant out.Keys == inDegree.Keys == Elements(ids)
      invariant forall n :: n in out ==> out[n] == Targets(edges[..i], n)
      invariant forall n :: n in inDegree ==> inDegree[n] == IncomingCount(edges[..i], n)
    {
      var e := edges[i];
      assert e in edges;
      OneMoreEdge(edges, i);
      out := out[e.fromId := out[e.fromId] + [e.toId]];
      inDegree := inDegree[e.toId := inDegree[e.toId] + 1];
    }
    assert edges[..|edges|] == edges;
  }

  method BuildGraph(ids: seq<Id>, edges: seq<ScoreEdge>) returns (out: Graph, inDegree: map<Id, nat>)
    requires Scoped(Elements(ids), edges)
    ensures out == OutGraph(Elements(ids), edges)
    ensures inDegree == map n | n in Elements(ids) :: IncomingCount(edges, n)
  {
    out, inDegree := AddEdges(ids, edges);
    out := map n | n in out :: SortStrings(out[n]);
  }

  lemma {:induction false} OneMoreEdge(edges: seq<ScoreEdge>, i: nat)
    requires i < |edges|
    ensures forall n :: Targets(edges[..i + 1], n) ==
                        Targets(edges[..i], n) + if edges[i].fromId == n then [edges[i].toId] else []
    ensures forall n :: IncomingCount(edges[..i + 1], n) ==
                        IncomingCount(edges[..i], n) + if edges[i].toId == n then 1 else 0
  {
    assert edges[..i + 1][..i] == edges[..i];
  }

  lemma {:induction false} NoIncomingIffNoPredecessor(ids: set<Id>, edges: seq<ScoreEdge>, n: Id)
    requires Scoped(ids, edges)
    ensures IncomingCount(edges, n) == 0 <==> !HasPredecessor(ids, OutGraph(ids, edges), n)
  {
    var g := OutGraph(ids, edges);
    OutGraphEdges(ids, edges);
    IncomingCountIs(edges, n);
    if IncomingCount(edges, n) != 0 {
      var e :| e in edges && e.toId == n;
      assert e == ScoreEdge(e.fromId, n);
      assert Edge(g, e.fromId, n);
    } else {
      assert forall m :: Edge(g, m, n) ==> ScoreEdge(m, n) in edges;
    }
  }

  /** The nodes nothing precedes, in input order; all nodes in sorted order when there is none. */
  method ChooseSources(ids: seq<Id>, inDegree: map<Id, nat>) returns (sources: seq<Id>)
    requires inDegree.Keys == Elements(ids)
    ensures var free := set n | n in inDegree && inDegree[n] == 0;
            Elements(sources) == if free == {} then Elements(ids) else free
    ensures |sources| <= |ids| && (Distinct(ids) ==> Distinct(sources))
  {
    sources := [];
    for i := 0 to |ids|
      invariant forall n :: n in sources <==> n in ids[..i] && inDegree[n] == 0
      invariant |sources| <= i && (Distinct(ids) ==> Distinct(sources))
    {
      assert ids[..i + 1] == ids[..i] + [ids[i]];
      if inDegree[ids[i]] == 0 {
        sources := sources + [ids[i]];
      }
    }
    assert ids[..|ids|] == ids;
    assert Elements(sources) == set n | n in inDegree && inDegree[n] == 0;
    if |sources| == 0 {
      assert Elements(sources) == {};
      sources := SortIds(ids);
    } else {
      assert sources[0] in Elements(sources);
    }
  }

  method SortIds(ids: seq<Id>) returns (sorted: seq<Id>)
    ensures sorted == SortStrings(ids) && Elements(sorted) == Elements(ids) && |sorted| == |ids|
    ensures Distinct(ids) ==> Distinct(sorted)
  {
    sorted := SortStrings(ids);
    if Distinct(ids) {
      SortedDiffer(ids);
    }
    SortKeeps(StringLe, ids);
    SameElements(sorted, ids);
  }

  /** Every depth is the node count of a simple path through the node. */
  ghost predicate DepthsAttained(members: set<Id>, g: Graph, lt: Through) {
    forall n :: n in lt ==> exists p :: SimplePath(members, g, p) && n in p && |p| == lt[n]
  }

  /** Some path of twenty nodes begins at a start of the search. */
  ghost predicate DeepFrom(members: set<Id>, g: Graph, roots: set<Id>) {
    exists p :: SimplePath(members, g, p) && |p| == 20 && p[0] in roots
  }

  /** Everything the answer says about the graph, whichever budget fired. */
  ghost predicate IsAnswer(ids: seq<Id>, g: Graph, r: CriticalPathResult) {
    var members := Elements(ids);
    && Consistent(r) && r.longestThrough.Keys <= members && DepthsAttained(members, g, r.longestThrough)
    && FlagsAChain(members, g, r.criticalPathLength, r.onCriticalPath)
    && (r.hasCycle ==> HasCycle(members, g))
    && (r.truncationReason == Some(DepthCap) ==> DeepFrom(members, g, FinalRoots(ids, g)))
    // without truncation the answer is exact, and below the cap
    && (!r.Truncated() ==>
          && (HasCycle(members, g) ==> r.hasCycle)
          && ExactFor(members, g, FinalRoots(ids, g), r.longestThrough)
          && r.criticalPathLength < 20)
    && (!r.Truncated() && !r.hasCycle ==> AcyclicAnswer(members, g, r))
  }

  /**
   A budget that is named was spent: so many paths were recorded, or a reading of
   the clock was too late. Only single nodes are recorded twice, and no more paths
   than the budget and one for every start.
   */
  ghost predicate SpentBudget(ids: seq<Id>, g: Graph, clock: nat -> int, reason: Option<TruncationReason>,
                              recorded: seq<seq<Id>>) {
    && (forall i :: 0 <= i < |recorded| ==> SimplePath(Elements(ids), g, recorded[i]))
    && (Distinct(ids) && Tidy(g) ==> OnlySinglesRepeat(recorded))
    && |recorded| <= 1000 + 2 * |ids|
    && (reason == Some(PathBudget) ==> |recorded| >= 1000)
    && (reason == Some(WallClock) ==> exists k :: k > 0 && clock(k) - clock(0) > 4000)
  }

  /**
   On any graph, unless another budget fired first, the search reports `depth_cap`
   exactly when a path of twenty nodes begins at one of its starts, also when
   nothing follows the twentieth.
   */
  lemma {:induction false} DepthFlagIsExact(ids: seq<Id>, g: Graph, r: CriticalPathResult)
    requires Closed(Elements(ids), g) && IsAnswer(ids, g, r)
    requires r.truncationReason == None || r.truncationReason == Some(DepthCap)
    ensures r.Truncated() <==> DeepFrom(Elements(ids), g, FinalRoots(ids, g))
  {
    if DeepFrom(Elements(ids), g, FinalRoots(ids, g)) && !r.Truncated() {
      DeepInTable(Elements(ids), g, FinalRoots(ids, g), r.longestThrough);
    }
  }

  lemma {:induction false} DeepInTable(members: set<Id>, g: Graph, roots: set<Id>, lt: Through)
    requires Closed(members, g) && ExactFor(members, g, roots, lt) && DeepFrom(members, g, roots)
    ensures exists n :: n in lt && DEPTH_CAP <= lt[n]
  {
    var p :| SimplePath(members, g, p) && |p| == DEPTH_CAP && p[0] in roots;
    var q := ExtendForward(members, g, p);
    assert Chain(members, g, roots, true, q);
    assert Accounted(lt, q);
    assert q[0] in lt;
  }

  /** Without a cycle every path of twenty nodes has one of the same length from a start. */
  lemma {:induction false} DeepOnAcyclic(ids: seq<Id>, g: Graph)
    requires Closed(Elements(ids), g) && !HasCycle(Elements(ids), g)
    ensures DeepFrom(Elements(ids), g, FinalRoots(ids, g)) <==> 20 <= Longest(Elements(ids), g)
  {
    var members, roots := Elements(ids), FinalRoots(ids, g);
    LongestIs(members, g);
    if DEPTH_CAP <= Longest(members, g) {
      var p :| SimplePath(members, g, p) && |p| == Longest(members, g);
      var q := ExtendBackward(members, g, p);
      SweepKeepsRoots(members, g, InitialRoots(members, g), SortStrings(ids));
      PrefixSimple(members, g, q, DEPTH_CAP);
      assert q[..DEPTH_CAP][0] in roots;
    }
  }

  /** Some longest path starts where the search starts. */
  ghost predicate LongestFromRoots(ids: seq<Id>, g: Graph) {
    exists p :: SimplePath(Elements(ids), g, p) && |p| == Longest(Elements(ids), g) && p[0] in FinalRoots(ids, g)
  }

  /**
   On any graph, cyclic or not, an untruncated search reports the longest chain
   exactly when some longest chain starts at one of the nodes it starts from.
   */
  lemma {:induction false} LengthIsLongestIff(ids: seq<Id>, g: Graph, r: CriticalPathResult)
    requires Closed(Elements(ids), g) && IsAnswer(ids, g, r) && !r.Truncated() && Longest(Elements(ids), g) >= 2
    ensures r.criticalPathLength <= Longest(Elements(ids), g)
    ensures r.criticalPathLength == Longest(Elements(ids), g) <==> LongestFromRoots(ids, g)
  {
    var members, roots := Elements(ids), FinalRoots(ids, g);
    LongestIs(members, g);
    if LongestFromRoots(ids, g) {
      var p :| SimplePath(members, g, p) && |p| == Longest(members, g) && p[0] in roots;
      LongestIsMaximal(members, g, p);
      assert Chain(members, g, roots, true, p);
      assert Accounted(r.longestThrough, p);
      assert p[0] in r.longestThrough;
    }
    if r.criticalPathLength == Longest(members, g) {
      assert r.onCriticalPath != {};
      var n :| n in r.onCriticalPath;
      assert Attained(members, g, roots, true, n, r.criticalPathLength);
    }
  }

  lemma {:induction false} LongestIsMaximal(members: set<Id>, g: Graph, p: seq<Id>)
    requires Closed(members, g) && SimplePath(members, g, p) && |p| == Longest(members, g)
    ensures Maximal(members, g, p)
  {
    LongestIs(members, g);
    forall x | Edge(g, Last(p), x)
      ensures x in p
    {
      if x !in p {
        PushSimple(members, g, p, x);
      }
    }
  }

  method ComputeCriticalPath(ids: seq<Id>, edges: seq<ScoreEdge>, clock: nat -> int)
    returns (r: CriticalPathResult, ghost recorded: seq<seq<Id>>)
    requires Scoped(Elements(ids), edges)
    ensures IsAnswer(ids, OutGraph(Elements(ids), edges), r)
    ensures SpentBudget(ids, OutGraph(Elements(ids), edges), clock, r.truncationReason, recorded)
  {
    ghost var members := Elements(ids);
    var out, inDegree := BuildGraph(ids, edges);
    OutGraphEdges(members, edges);
    var sources := ChooseSources(ids, inDegree);
    assert Elements(sources) == InitialRoots(members, out) by {
      forall n | n in members
        ensures inDegree[n] == 0 <==> !HasPredecessor(members, out, n)
      {
        NoIncomingIffNoPredecessor(members, edges, n);
      }
      assert (set n | n in inDegree && inDegree[n] == 0) == set n | n in members && !HasPredecessor(members, out, n);
    }
    var sorted := SortIds(ids);
    r, recorded := Search(out, members, sources, sorted, clock);
    if !r.Truncated() && !r.hasCycle {
      AcyclicResult(ids, out, r);
    }
  }

  /** Both passes of the search, over the finished successor lists. */
  method Search(out: Graph, ghost members: set<Id>, sources: seq<Id>, sorted: seq<Id>, clock: nat -> int)
    returns (r: CriticalPathResult, ghost recorded: seq<seq<Id>>)
    requires Closed(members, out) && Elements(sources) <= members == Elements(sorted)
    ensures Consistent(r) && r.longestThrough.Keys <= members
    ensures FlagsAChain(members, out, r.criticalPathLength, r.onCriticalPath)
    ensures r.hasCycle ==> HasCycle(members, out)
    ensures !r.Truncated() ==> (HasCycle(members, out) ==> r.hasCycle) && r.criticalPathLength < DEPTH_CAP
    ensures !r.Truncated() ==>
              ExactFor(members, out, SweepRoots(members, out, Elements(sources), sorted), r.longestThrough)
    ensures DepthsAttained(members, out, r.longestThrough)
    ensures r.truncationReason == Some(DepthCap) ==>
              DeepFrom(members, out, SweepRoots(members, out, Elements(sources), sorted))
    ensures Distinct(sources) && Tidy(out) ==> OnlySinglesRepeat(recorded)
    ensures |recorded| <= PATH_BUDGET + |sources| + |sorted|
    ensures forall i :: 0 <= i < |recorded| ==> SimplePath(members, out, recorded[i])
    ensures r.truncationReason == Some(PathBudget) ==> |recorded| >= PATH_BUDGET
    ensures r.truncationReason == Some(WallClock) ==> exists k :: k > 0 && clock(k) - clock(0) > WALL_CLOCK_MS
  {
    var s := new ChainScorer(out, members, clock, 1, clock(0));
    s.SearchSources(sources);
    SweepKeepsRoots(members, out, Elements(sources), sorted);
    s.Sweep(sorted);
    r := Result(s);
    recorded := s.recorded;
    if !r.Truncated() {
      FinishedTable(members, out, s.roots, r.longestThrough, r.hasCycle);
    }
  }

  /** A chain needs an edge, so a best path of fewer than two nodes counts as none. */
  method Result(s: ChainScorer) returns (r: CriticalPathResult)
    requires s.Sound()
    ensures r.longestThrough == s.longestThrough && r.hasCycle == s.hasCycle
    ensures r.truncationReason == s.truncationReason
    ensures Consistent(r) && r.longestThrough.Keys <= s.members
    ensures FlagsAChain(s.members, s.out, r.criticalPathLength, r.onCriticalPath)
    ensures r.criticalPathLength == |s.best|
  {
    var length := if |s.best| >= 2 then |s.best| else 0;
    r := CriticalPathResult(length, if length > 0 then Elements(s.best) else {},
                            s.longestThrough, s.hasCycle, s.truncationReason);
    if s.best != [] {
      DistinctCardinality(s.best);
      assert s.best[0] in s.best;
    }
  }

  lemma {:induction false} FinishedTable(ids: set<Id>, g: Graph, roots: set<Id>, lt: Through, cycle: bool)
    requires AllAttained(ids, g, roots, true, lt) && roots <= ids <= roots + lt.Keys
    requires AllCovered(ids, g, roots, lt, cycle)
    ensures ExactFor(ids, g, roots, lt)
    ensures HasCycle(ids, g) ==> cycle
  {
    forall p | Chain(ids, g, roots, true, p)
      ensures Accounted(lt, p)
    {
      assert [p[0]] <= p;
    }
    ReachedCyclesAreFlagged(ids, g, roots, lt, cycle);
  }
}
