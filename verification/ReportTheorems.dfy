/** What the reports over one graph say about each other. */
module ReportTheorems {
  import opened Wrappers
  import opened Paths
  import opened GraphIndex
  import opened SystemReports
  import ComplexityReport
  import CriticalPathReport

  /**
   A journey is in the single-system report exactly when the complexity report
   gives it one distinct system.
   */
  lemma {:induction false} SingleSystemIffOneDistinctSystem(
    nodes: seq<GraphNode>, edges: seq<GraphEdge>, ix: Index, w: ComplexityReport.Weights,
    complexity: seq<ComplexityReport.ComplexityJourney>, single: seq<SingleSystemJourney>,
    c: ComplexityReport.ComplexityJourney)
    requires ComplexityReport.IsReport(nodes, edges, ix, w, complexity) && c in complexity
    requires IsSingleSystemReport(nodes, edges, ix, ix.journeys, single)
    ensures HasEntry(single, c.journeyId) <==> c.distinctSystems == 1
  {
  }

  /** A journey with a consolidation candidate is not in the single-system report. */
  lemma {:induction false} CandidatesAreNotSingleSystem(
    nodes: seq<GraphNode>, edges: seq<GraphEdge>, ix: Index,
    candidates: seq<Candidate>, single: seq<SingleSystemJourney>, c: Candidate)
    requires IsConsolidation(nodes, edges, ix, ix.acts, candidates) && c in candidates
    requires IsSingleSystemReport(nodes, edges, ix, ix.journeys, single)
    ensures c.journey.Some? ==> !HasEntry(single, c.journey.value.id)
  {
    if c.journey.Some? && HasEntry(single, c.journey.value.id) {
      var j := c.journey.value.id;
      var e :| e in single && e.journeyId == j;
      var a := c.activityId;
      JourneyOfIsActivity(ix, edges, a);
      assert a in Members(ix, edges, j);
      assert SystemsOf(ix, edges, a) <= SystemsOfJourney(ix, edges, j) == {e.system.id};
      SubsetCardinality(SystemsOf(ix, edges, a), {e.system.id});
    }
  }

  lemma {:induction false} JourneyOfIsActivity(ix: Index, edges: seq<GraphEdge>, a: Id)
    ensures JourneyOf(ix.acts, ix.journeys, edges, a).Some? ==> a in ix.acts
  {
    if edges != [] {
      JourneyOfIsActivity(ix, edges[..|edges| - 1], a);
    }
  }

  /**
   Two searches written twice agree: with the cap of the complexity report, the
   critical path of a journey is never longer than its complexity depth, and it
   is exactly as long unless the path or clock budget stopped it.
   */
  lemma {:induction false} DepthAgreesWithCriticalPath(
    nodes: seq<GraphNode>, edges: seq<GraphEdge>, ix: Index, w: ComplexityReport.Weights,
    complexity: seq<ComplexityReport.ComplexityJourney>, critical: seq<CriticalPathReport.CriticalPathJourney>,
    run: CriticalPathReport.Run, c: ComplexityReport.ComplexityJourney, p: CriticalPathReport.CriticalPathJourney)
    requires ComplexityReport.IsReport(nodes, edges, ix, w, complexity) && c in complexity
    requires CriticalPathReport.IsReport(nodes, edges, ix, run, critical) && p in critical
    requires run.budgets.depthCap == ComplexityReport.COMPLEXITY_DEPTH_CAP
    requires c.journeyId == p.journeyId
    ensures p.length <= c.depth
    ensures !p.truncated || p.truncationReason == Some(DepthCap) ==> p.length == c.depth
    ensures c.activities == 0 <==> c.depth == 0
    ensures c.depth <= c.activities
  {
    var members := Members(ix, edges, c.journeyId);
    var g := JourneyGraph(members, ix.acts, edges);
    LongestIs(members, g);
    if c.depth > 0 {
      var q :| SimplePath(members, g, q) && |q| == Longest(members, g);
      SimplePathBound(members, g, q);
    }
  }
}
