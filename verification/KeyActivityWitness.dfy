/**
 Two graphs on which the key-activity search says less than its comments promise
 (api/src/derive/key-activity-score.ts:60 and 126): a chain of exactly twenty nodes,
 and a cyclic graph whose longest chain does not begin at a start of the search.
 */
module KeyActivityWitness {
  import opened Wrappers
  import opened Paths
  import opened KeyActivitySearch
  import opened KeyActivityPath
  import opened Ordering

  // ---------- a chain of exactly as many nodes as the cap ----------

  /** The nodes of a chain are told apart by their length. */
  function Link(i: nat): Id {
    if i == 0 then "" else Link(i - 1) + "x"
  }

  lemma {:induction false} LinkLength(i: nat)
    ensures |Link(i)| == i
  {
    if i > 0 {
      LinkLength(i - 1);
    }
  }

  function Links(n: nat): seq<Id> {
    if n == 0 then [] else Links(n - 1) + [Link(n - 1)]
  }

  lemma {:induction false} LinksAre(n: nat)
    ensures |Links(n)| == n && Distinct(Links(n))
    ensures forall i :: 0 <= i < n ==> |Links(n)[i]| == i && Links(n)[i] == Link(i)
  {
    if n > 0 {
      LinksAre(n - 1);
      LinkLength(n - 1);
    }
  }

  /** Every node leads to the next one, and the last to none. */
  function ChainGraph(n: nat): Graph {
    map x | x in Links(n) :: if |x| + 1 < n then [Link(|x| + 1)] else []
  }

  lemma {:induction false} ChainEdges(n: nat, a: Id, b: Id)
    requires Edge(ChainGraph(n), a, b)
    ensures |b| == |a| + 1
  {
    LinkLength(|a| + 1);
  }

  /** Along a walk the nodes get longer, so it never returns. */
  lemma {:induction false} ChainWalk(n: nat, w: seq<Id>, i: nat)
    requires Walk(ChainGraph(n), w) && i < |w|
    ensures |w[i]| == |w[0]| + i
  {
    if i > 0 {
      ChainWalk(n, w, i - 1);
      ChainEdges(n, w[i - 1], w[i]);
    }
  }

  lemma {:induction false} ChainIsAcyclic(n: nat)
    ensures !HasCycle(Elements(Links(n)), ChainGraph(n))
  {
    forall c | ClosedWalk(Elements(Links(n)), ChainGraph(n), c)
      ensures false
    {
      ChainWalk(n, c, |c| - 1);
      ChainEdges(n, Last(c), c[0]);
    }
  }

  lemma {:induction false} ChainIsClosed(n: nat)
    ensures Closed(Elements(Links(n)), ChainGraph(n))
  {
    LinksAre(n);
    forall a, b | Edge(ChainGraph(n), a, b)
      ensures b in Links(n)
    {
      assert b == Link(|a| + 1) == Links(n)[|a| + 1];
    }
  }

  lemma {:induction false} ChainIsPath(n: nat)
    requires n > 0
    ensures SimplePath(Elements(Links(n)), ChainGraph(n), Links(n))
  {
    var p := Links(n);
    LinksAre(n);
    forall i, j | 0 <= i && j == i + 1 && j < n
      ensures Edge(ChainGraph(n), p[i], p[j])
    {
      assert p[i] in ChainGraph(n) && |p[i]| + 1 < n;
    }
  }

  /** The longest path is the chain itself, and nothing is longer. */
  lemma {:induction false} ChainLongest(n: nat)
    ensures Longest(Elements(Links(n)), ChainGraph(n)) == n
  {
    var members, g, p := Elements(Links(n)), ChainGraph(n), Links(n);
    LinksAre(n);
    DistinctCardinality(p);
    LongestIs(members, g);
    if n > 0 {
      ChainIsPath(n);
      var q :| SimplePath(members, g, q) && |q| == Longest(members, g);
      SimplePathBound(members, g, q);
    } else {
      assert members == {};
    }
  }

  /** A chain of exactly twenty nodes is reported as cut off at twenty. */
  lemma {:induction false} FullChainIsFlagged(r: CriticalPathResult)
    requires IsAnswer(Links(DEPTH_CAP), ChainGraph(DEPTH_CAP), r)
    requires r.truncationReason == None || r.truncationReason == Some(DepthCap)
    ensures r.truncationReason == Some(DepthCap)
    ensures Longest(Elements(Links(DEPTH_CAP)), ChainGraph(DEPTH_CAP)) == DEPTH_CAP
  {
    ChainIsAcyclic(DEPTH_CAP);
    ChainLongest(DEPTH_CAP);
    ChainIsClosed(DEPTH_CAP);
    DeepOnAcyclic(Links(DEPTH_CAP), ChainGraph(DEPTH_CAP));
    DepthFlagIsExact(Links(DEPTH_CAP), ChainGraph(DEPTH_CAP), r);
  }

  // ---------- a longest chain that the starts miss ----------

  /** s leads to c, the middle of the line a - b - c - d - e, which runs both ways. */
  const DETOUR: Graph :=
    map["s" := ["c"], "a" := ["b"], "b" := ["a", "c"], "c" := ["b", "d"], "d" := ["c", "e"], "e" := ["d"]]
  const DETOUR_IDS: seq<Id> := ["s", "a", "b", "c", "d", "e"]

  lemma {:induction false} DetourEdges()
    ensures forall x, y :: Edge(DETOUR, x, y) <==>
              || (x == "s" && y == "c") || (x == "a" && y == "b") || (x == "b" && (y == "a" || y == "c"))
              || (x == "c" && (y == "b" || y == "d")) || (x == "d" && (y == "c" || y == "e")) || (x == "e" && y == "d")
    ensures forall x :: x in Elements(DETOUR_IDS) <==> x in DETOUR
    ensures Closed(Elements(DETOUR_IDS), DETOUR)
  {
  }

  lemma {:induction false} FourNodes(members: set<Id>, g: Graph, a: Id, b: Id, c: Id, d: Id)
    requires Distinct([a, b, c, d]) && {a, b, c, d} <= members
    requires Edge(g, a, b) && Edge(g, b, c) && Edge(g, c, d) && forall x :: Edge(g, d, x) ==> x == c
    ensures Chain(members, g, {a}, true, [a, b, c, d])
  {
    var p := [a, b, c, d];
    assert Within(members, p) && Walk(g, p);
  }

  lemma {:induction false} FiveNodes(members: set<Id>, g: Graph, a: Id, b: Id, c: Id, d: Id, e: Id)
    requires Distinct([a, b, c, d, e]) && {a, b, c, d, e} <= members
    requires Edge(g, a, b) && Edge(g, b, c) && Edge(g, c, d) && Edge(g, d, e)
    ensures SimplePath(members, g, [a, b, c, d, e])
  {
    var p := [a, b, c, d, e];
    assert Within(members, p) && Walk(g, p);
  }

  lemma {:induction false} LeftChain()
    ensures Chain(Elements(DETOUR_IDS), DETOUR, {"s"}, true, ["s", "c", "b", "a"])
  {
    DetourEdges();
    FourNodes(Elements(DETOUR_IDS), DETOUR, "s", "c", "b", "a");
  }

  lemma {:induction false} RightChain()
    ensures Chain(Elements(DETOUR_IDS), DETOUR, {"s"}, true, ["s", "c", "d", "e"])
  {
    DetourEdges();
    FourNodes(Elements(DETOUR_IDS), DETOUR, "s", "c", "d", "e");
  }

  lemma {:induction false} WholeLine()
    ensures SimplePath(Elements(DETOUR_IDS), DETOUR, ["a", "b", "c", "d", "e"])
  {
    DetourEdges();
    FiveNodes(Elements(DETOUR_IDS), DETOUR, "a", "b", "c", "d", "e");
  }

  /** A walk from s that goes on to the end of one side has to turn back there. */
  lemma {:induction false} TurnsBack(p: seq<Id>)
    requires Walk(DETOUR, p) && p[0] == "s" && |p| > 4 && p[1] != p[3]
    ensures p[4] == p[2]
  {
    DetourEdges();
    assert Edge(DETOUR, p[0], p[1]) && Edge(DETOUR, p[1], p[2]);
    assert Edge(DETOUR, p[2], p[3]) && Edge(DETOUR, p[3], p[4]);
  }

  /** From s a path goes left or right, but never both ways. */
  lemma {:induction false} ShortFromStart(p: seq<Id>)
    requires SimplePath(Elements(DETOUR_IDS), DETOUR, p) && p[0] == "s"
    ensures |p| <= 4
  {
    if |p| > 4 {
      TurnsBack(p);
    }
  }

  lemma {:induction false} SweepAddsNothing(ids: set<Id>, g: Graph, roots: set<Id>, todo: seq<Id>)
    requires forall i :: 0 <= i < |todo| ==> Reached(ids, g, roots, todo[i])
    ensures SweepRoots(ids, g, roots, todo) == roots
    decreases |todo|
  {
    if todo != [] {
      SweepAddsNothing(ids, g, roots, todo[1..]);
    }
  }

  lemma {:induction false} DetourPredecessor(n: Id)
    requires n in DETOUR_IDS
    ensures HasPredecessor(Elements(DETOUR_IDS), DETOUR, n) <==> n != "s"
  {
    DetourEdges();
    var m := if n == "a" then "b" else if n == "b" then "a" else if n == "c" then "s"
             else if n == "d" then "c" else "d";
    assert m in Elements(DETOUR_IDS);
    assert n != "s" ==> Edge(DETOUR, m, n);
  }

  lemma {:induction false} DetourStarts()
    ensures InitialRoots(Elements(DETOUR_IDS), DETOUR) == {"s"}
  {
    var ids, g := Elements(DETOUR_IDS), DETOUR;
    forall n | n in ids
      ensures HasPredecessor(ids, g, n) <==> n != "s"
    {
      DetourPredecessor(n);
    }
    assert "s" in ids;
    assert (set n | n in ids && !HasPredecessor(ids, g, n)) == {"s"};
  }

  lemma {:induction false} DetourReached(n: Id)
    requires n in DETOUR_IDS
    ensures Reached(Elements(DETOUR_IDS), DETOUR, {"s"}, n)
  {
    LeftChain();
    RightChain();
    var p := if n == "d" || n == "e" then ["s", "c", "d", "e"] else ["s", "c", "b", "a"];
    assert n in p;
    assert Attained(Elements(DETOUR_IDS), DETOUR, {"s"}, true, n, |p|);
  }

  /** The search starts at s alone. */
  lemma {:induction false} DetourRoots()
    ensures FinalRoots(DETOUR_IDS, DETOUR) == {"s"}
  {
    var ids, todo := DETOUR_IDS, SortStrings(DETOUR_IDS);
    SortKeeps(StringLe, ids);
    SameElements(todo, ids);
    forall i | 0 <= i < |todo|
      ensures Reached(Elements(ids), DETOUR, {"s"}, todo[i])
    {
      DetourReached(todo[i]);
    }
    DetourStarts();
    SweepAddsNothing(Elements(ids), DETOUR, {"s"}, todo);
  }

  /** In the table of a search from s alone the largest entry is four. */
  lemma {:induction false} DetourTable(r: CriticalPathResult)
    requires Consistent(r) && ExactFor(Elements(DETOUR_IDS), DETOUR, {"s"}, r.longestThrough)
    ensures r.criticalPathLength == 4
  {
    var left := ["s", "c", "b", "a"];
    LeftChain();
    assert Accounted(r.longestThrough, left);
    assert left[0] in r.longestThrough;
    assert r.onCriticalPath != {};
    var n :| n in r.onCriticalPath;
    DetourEntry(r.longestThrough, n);
  }

  lemma {:induction false} DetourEntry(table: map<Id, nat>, n: Id)
    requires ExactFor(Elements(DETOUR_IDS), DETOUR, {"s"}, table) && n in table
    ensures table[n] <= 4
  {
    var p :| Chain(Elements(DETOUR_IDS), DETOUR, {"s"}, true, p) && n in p && |p| == table[n];
    ShortFromStart(p);
  }

  lemma {:induction false} AtLeast(members: set<Id>, g: Graph, p: seq<Id>)
    requires SimplePath(members, g, p)
    ensures Longest(members, g) >= |p|
  {
    LongestIs(members, g);
  }

  /** An exact table, which an untruncated search fills, gives four nodes although a chain of five exists. */
  lemma {:induction false} DetourIsCutShort(r: CriticalPathResult)
    requires Consistent(r)
    requires ExactFor(Elements(DETOUR_IDS), DETOUR, FinalRoots(DETOUR_IDS, DETOUR), r.longestThrough)
    ensures r.criticalPathLength == 4 && Longest(Elements(DETOUR_IDS), DETOUR) >= 5
  {
    DetourRoots();
    DetourTable(r);
    WholeLine();
    AtLeast(Elements(DETOUR_IDS), DETOUR, ["a", "b", "c", "d", "e"]);
  }
}
