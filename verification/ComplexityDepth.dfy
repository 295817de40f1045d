/**
 The depth factor of the complexity score (api/src/analytics/complexity.ts): a
 second, simpler search that keeps only a number and stops at a depth cap.
 */
module ComplexityDepth {
  import opened Paths

  /** `n` bounds every simple path that extends `s` by no more than the cap allows. */
  ghost predicate CoveredTo(members: set<Id>, g: Graph, s: seq<Id>, depthCap: int, n: nat) {
    forall p :: SimplePath(members, g, p) && s <= p && (p == s || |p| <= depthCap) ==> |p| <= n
  }

  ghost predicate Handled(members: set<Id>, g: Graph, s: seq<Id>, succs: seq<Id>, i: nat, depthCap: int, n: nat)
    requires i <= |succs|
  {
    forall j :: 0 <= j < i ==> succs[j] in s || CoveredTo(members, g, s + [succs[j]], depthCap, n)
  }

  lemma {:induction false} AllHandledCovers(members: set<Id>, g: Graph, s: seq<Id>, depthCap: int, n: nat)
    requires SimplePath(members, g, s) && |s| <= n
    requires |s| < depthCap ==> Handled(members, g, s, Succs(g, Last(s)), |Succs(g, Last(s))|, depthCap, n)
    ensures CoveredTo(members, g, s, depthCap, n)
  {
    forall p | SimplePath(members, g, p) && s <= p && p != s && |p| <= depthCap
      ensures |p| <= n
    {
      StepOfExtension(members, g, s, p);
      assert CoveredTo(members, g, s + [p[|s|]], depthCap, n);
      assert p == s + [p[|s|]] || |p| <= depthCap;
    }
  }

  class DepthSearch {
    const graph: Graph
    ghost const members: set<Id>
    const depthCap: int

    var best: nat
    var onPath: set<Id>

    constructor (graph: Graph, ghost members: set<Id>, depthCap: int)
      requires Closed(members, graph)
      ensures this.graph == graph && this.members == members && this.depthCap == depthCap
      ensures Sound() && best == 0
    {
      this.graph, this.members, this.depthCap := graph, members, depthCap;
      best, onPath := 0, {};
    }

    /** The number kept is always the length of some simple path within the cap. */
    ghost predicate Sound()
      reads this
    {
      && Closed(members, graph)
      && best <= EffectiveCap(depthCap)
      && (best > 0 ==> SomePathOfLength(members, graph, best))
    }

    /** `path` is the path the recursion is on; the source passes only its length. */
    method Dfs(node: Id, depth: nat, ghost path: seq<Id>)
      requires Sound() && SimplePath(members, graph, path) && onPath == Elements(path)
      requires Last(path) == node && |path| == depth <= EffectiveCap(depthCap)
      modifies this
      ensures Sound() && onPath == old(onPath) && old(best) <= best && depth <= best
      ensures CoveredTo(members, graph, path, depthCap, best)
      decreases members - onPath
    {
      if depth > best {
        best := depth;
      }
      if depth >= depthCap {
        AllHandledCovers(members, graph, path, depthCap, best);
        return;
      }
      var succs := Succs(graph, node);
      for i := 0 to |succs|
        invariant Sound() && onPath == old(onPath) && old(best) <= best && depth <= best
        invariant Handled(members, graph, path, succs, i, depthCap, best)
      {
        var next := succs[i];
        if next !in onPath {
          assert Edge(graph, node, next);
          PushSimple(members, graph, path, next);
          onPath := onPath + {next};
          assert next in members - old(onPath);
          Dfs(next, depth + 1, path + [next]);
          onPath := onPath - {next};
        }
      }
      AllHandledCovers(members, graph, path, depthCap, best);
    }
  }

  lemma {:induction false} StartsCoverToCap(members: set<Id>, g: Graph, depthCap: int, n: nat)
    requires forall start :: start in members ==> CoveredTo(members, g, [start], depthCap, n)
    requires n <= EffectiveCap(depthCap) && (n > 0 ==> SomePathOfLength(members, g, n))
    ensures n == CappedLongest(members, g, depthCap)
  {
    LongestIs(members, g);
    var k := CappedLongest(members, g, depthCap);
    if k > 0 {
      var p :| SimplePath(members, g, p) && |p| == Longest(members, g);
      PrefixSimple(members, g, p, k);
      assert [p[0]] <= p[..k];
    }
  }

  /** The depth is the longest simple path cut off at the cap, on every graph. */
  method LongestChainLength(activityIds: seq<Id>, successors: Graph, depthCap: int) returns (best: nat)
    requires Closed(Elements(activityIds), successors)
    ensures best == CappedLongest(Elements(activityIds), successors, depthCap)
  {
    ghost var members := Elements(activityIds);
    var s := new DepthSearch(successors, members, depthCap);
    for i := 0 to |activityIds|
      invariant fresh(s) && s.graph == successors && s.members == members && s.depthCap == depthCap
      invariant s.Sound()
      invariant forall j :: 0 <= j < i ==> CoveredTo(members, successors, [activityIds[j]], depthCap, s.best)
    {
      var id := activityIds[i];
      s.onPath := {};
      s.onPath := s.onPath + {id};
      s.Dfs(id, 1, [id]);
    }
    StartsCoverToCap(members, successors, depthCap, s.best);
    best := s.best;
  }
}
