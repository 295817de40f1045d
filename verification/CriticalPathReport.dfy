/** `computeCriticalPaths` of api/src/analytics/critical-path.ts. */
module CriticalPathReport {
  import opened Wrappers
  import opened Paths
  import opened Ordering
  import opened CriticalPathSearch
  import opened CriticalPath
  import opened GraphIndex
  import ComplexityReport

  datatype ActivityRef = ActivityRef(id: Id, name: string)

  datatype CriticalPathJourney = CriticalPathJourney(
    journeyId: Id, journeyName: string,
    chain: seq<ActivityRef>, length: nat, start: Option<ActivityRef>, end: Option<ActivityRef>,
    hasCycle: bool, truncated: bool,
    longestPartial: Option<seq<ActivityRef>>, truncationReason: Option<TruncationReason>)

  /** What the search of one journey spent: searches entered, and the clock readings from `from` up to `until`. */
  datatype Effort = Effort(entries: nat, from: nat, until: nat)

  /** The circumstances of a report: its budgets, its clock, and the effort for each journey. */
  datatype Run = Run(budgets: Budgets, clock: nat -> int, work: map<Id, Effort>)

  function RefIds(refs: seq<ActivityRef>): (ids: seq<Id>)
    ensures |ids| == |refs| && forall i :: 0 <= i < |ids| ==> ids[i] == refs[i].id
  {
    if refs == [] then [] else RefIds(refs[..|refs| - 1]) + [refs[|refs| - 1].id]
  }

  /** What an entry says about its journey, over the journey's own activities and edges. */
  ghost predicate IsEntry(nodes: seq<GraphNode>, edges: seq<GraphEdge>, ix: Index, run: Run, e: CriticalPathJourney) {
    var members := Members(ix, edges, e.journeyId);
    && e.journeyId in run.work
    && IsAnswer(members, JourneyGraph(members, ix.acts, edges), run.budgets.depthCap, e)
    && IsHonest(members, JourneyGraph(members, ix.acts, edges), run.budgets, run.clock, run.work[e.journeyId], e)
    && IsPresented(NameTable(nodes), e)
  }

  ghost predicate IsAnswer(members: set<Id>, g: Graph, depthCap: int, e: CriticalPathJourney) {
    && (e.chain == [] <==> members == {})
    && (e.chain != [] ==> SimplePath(members, g, RefIds(e.chain)))
    && e.length <= CappedLongest(members, g, depthCap)
    && (e.hasCycle ==> HasCycle(members, g))
    && (!e.truncated ==> e.length == Longest(members, g) && (e.hasCycle <==> HasCycle(members, g)))
    && (!e.truncated || e.truncationReason == Some(DepthCap) ==> e.length == CappedLongest(members, g, depthCap))
    && (e.truncationReason == Some(DepthCap) ==> EffectiveCap(depthCap) < Longest(members, g))
  }

  /** The reason given is the budget that was spent, and the effort keeps within the budgets. */
  ghost predicate IsHonest(members: set<Id>, g: Graph, budgets: Budgets, clock: nat -> int, w: Effort,
                           e: CriticalPathJourney) {
    && 0 < w.from <= w.until
    && (budgets.pathBudget > 0 ==> w.entries <= |members| + budgets.pathBudget)
    && (e.truncationReason == Some(PathBudget) ==> 0 < budgets.pathBudget < w.entries)
    && (e.truncationReason == Some(WallClock) <==>
          budgets.wallClockMs > 0 && exists k :: w.from <= k < w.until && clock(k) - clock(0) >= budgets.wallClockMs)
    && (budgets.wallClockMs <= 0 ==> w.from == w.until)
    && (budgets.pathBudget <= 0 && budgets.wallClockMs <= 0 ==>
          (e.truncated <==> Longest(members, g) > EffectiveCap(budgets.depthCap)))
  }

  /** The fields that repeat or name parts of the chain. */
  ghost predicate IsPresented(names: map<Id, string>, e: CriticalPathJourney) {
    && e.journeyName == NameIn(names, e.journeyId)
    && (forall i :: 0 <= i < |e.chain| ==> e.chain[i].name == NameIn(names, e.chain[i].id))
    && e.length == |e.chain|
    && e.start == (if e.chain == [] then None else Some(e.chain[0]))
    && e.end == (if e.chain == [] then None else Some(e.chain[|e.chain| - 1]))
    && e.truncated == e.truncationReason.Some?
    && e.longestPartial == (if e.truncated then Some(e.chain) else None)
  }

  predicate LongerFirst(collate: (string, string) -> bool, x: CriticalPathJourney, y: CriticalPathJourney) {
    x.length > y.length || (x.length == y.length && collate(x.journeyName, y.journeyName))
  }

  ghost predicate IsReport(nodes: seq<GraphNode>, edges: seq<GraphEdge>, ix: Index, run: Run,
                           journeys: seq<CriticalPathJourney>) {
    && |journeys| == |ix.journeys|
    && (forall e :: e in journeys ==> e.journeyId in ix.journeys && IsEntry(nodes, edges, ix, run, e))
    && (forall j :: j in ix.journeys ==> exists e :: e in journeys && e.journeyId == j)
  }

  // ---------- restriction to a journey ----------

  method CollectPrecedes(acts: set<Id>, edges: seq<GraphEdge>) returns (precedes: Graph)
    ensures forall a, b :: Edge(precedes, a, b) <==> Precedes(acts, edges, a, b)
  {
    precedes := map[];
    for i := 0 to |edges|
      invariant forall a, b :: Edge(precedes, a, b) <==> Precedes(acts, edges[..i], a, b)
    {
      var e := edges[i];
      ComplexityReport.PrecedesSnoc(acts, edges[..i], e);
      assert edges[..i + 1] == edges[..i] + [e];
      if e.typ == PRECEDES && e.source in acts && e.target in acts {
        ghost var before := precedes;
        precedes := precedes[e.source := Succs(precedes, e.source) + [e.target]];
        assert forall a, b :: Edge(precedes, a, b) <==> Edge(before, a, b) || (a == e.source && b == e.target);
      }
    }
    assert edges[..|edges|] == edges;
  }

  function Inside(memberSet: set<Id>, targets: seq<Id>): (inner: seq<Id>)
    ensures forall b :: b in inner <==> b in targets && b in memberSet
  {
    if targets == [] then []
    else
      var b := targets[|targets| - 1];
      Inside(memberSet, targets[..|targets| - 1]) + if b in memberSet then [b] else []
  }

  method Restrict(members: seq<Id>, precedes: Graph) returns (successors: Graph)
    ensures forall a, b :: Edge(successors, a, b) <==> a in members && b in members && Edge(precedes, a, b)
  {
    var memberSet := Elements(members);
    successors := map[];
    for i := 0 to |members|
      invariant successors.Keys <= Elements(members[..i])
      invariant forall a, b :: Edge(successors, a, b) <==> a in members[..i] && b in members && Edge(precedes, a, b)
    {
      var a := members[i];
      assert members[..i + 1] == members[..i] + [a];
      var outs := Inside(memberSet, Succs(precedes, a));
      if |outs| > 0 {
        successors := successors[a := outs];
      }
    }
    assert members[..|members|] == members;
  }

  // ---------- the report ----------

  method Name(nameById: map<Id, string>, chain: seq<Id>) returns (refs: seq<ActivityRef>)
    ensures RefIds(refs) == chain
    ensures forall i :: 0 <= i < |refs| ==> refs[i].name == NameIn(nameById, refs[i].id)
  {
    refs := [];
    for i := 0 to |chain|
      invariant |refs| == i
      invariant forall k :: 0 <= k < i ==> refs[k] == ActivityRef(chain[k], NameIn(nameById, chain[k]))
    {
      refs := refs + [ActivityRef(chain[i], NameIn(nameById, chain[i]))];
    }
  }

  method ReportJourney(nameById: map<Id, string>, members: seq<Id>, precedes: Graph, j: Id, budgets: Budgets,
                       clock: nat -> int, ticks: nat, ghost g: Graph)
    returns (e: CriticalPathJourney, ticks': nat, ghost w: Effort)
    requires forall a, b :: Edge(g, a, b) <==> a in members && b in members && Edge(precedes, a, b)
    requires ticks > 0 && |members| == |Elements(members)|
    ensures e.journeyId == j && IsAnswer(Elements(members), g, budgets.depthCap, e) && IsPresented(nameById, e)
    ensures IsHonest(Elements(members), g, budgets, clock, w, e) && w.from == ticks && w.until == ticks'
  {
    var successors := Restrict(members, precedes);
    SameEdgesSameAnswers(Elements(members), successors, g);
    SameEdgesSamePaths(Elements(members), successors, g);
    ghost var entries;
    var r;
    r, ticks', entries := LongestChainForJourney(members, successors, budgets, clock, ticks, clock(0));
    w := Effort(entries, ticks, ticks');
    var refs := Name(nameById, r.chain);
    assert members == [] <==> Elements(members) == {} by {
      if members != [] {
        assert members[0] in Elements(members);
      }
    }
    e := CriticalPathJourney(
      j, NameIn(nameById, j), refs, |refs|,
      if |refs| == 0 then None else Some(refs[0]), if |refs| == 0 then None else Some(refs[|refs| - 1]),
      r.hasCycle, r.truncationReason.Some?,
      if r.truncationReason.Some? then Some(refs) else None, r.truncationReason);
  }

  /** The first reading of the clock is the start that every journey measures from. */
  method ComputeCriticalPaths(nodes: seq<GraphNode>, edges: seq<GraphEdge>, budgets: Budgets, clock: nat -> int,
                              collate: (string, string) -> bool)
    returns (journeys: seq<CriticalPathJourney>, ix: Index, ghost work: map<Id, Effort>)
    ensures IsIndex(ix, nodes) && IsReport(nodes, edges, ix, Run(budgets, clock, work), journeys)
    ensures TotalPreorder(collate) ==> forall i, j :: 0 <= i < j < |journeys| ==>
              && journeys[i].length >= journeys[j].length
              && (journeys[i].length == journeys[j].length ==>
                    collate(journeys[i].journeyName, journeys[j].journeyName))
  {
    var nameById, ix', journeyIds := IndexNodes(nodes);
    ix := ix';
    var t := ScanEdges(ix, edges);
    var groups := ComplexityReport.GroupByJourney(t.journeyByActivity);
    var precedes := CollectPrecedes(ix.acts, edges);
    journeys, work := ListJourneys(nameById, journeyIds, groups, precedes, budgets, clock, nodes, edges, ix, t);
    journeys := SortReport(journeys, collate, nodes, edges, ix, Run(budgets, clock, work), journeyIds);
  }

  /** The entries of the first journeys, in order, and the effort for exactly those. */
  ghost predicate EntriesSoFar(nodes: seq<GraphNode>, edges: seq<GraphEdge>, ix: Index, run: Run, ids: seq<Id>,
                               journeys: seq<CriticalPathJourney>) {
    && |journeys| == |ids| && run.work.Keys == Elements(ids)
    && forall k :: 0 <= k < |ids| ==>
         journeys[k].journeyId == ids[k] && IsEntry(nodes, edges, ix, run, journeys[k])
  }

  /** The loop of the report, over the journeys. */
  method ListJourneys(nameById: map<Id, string>, journeyIds: seq<Id>, groups: map<Id, seq<Id>>, precedes: Graph,
                      budgets: Budgets, clock: nat -> int, ghost nodes: seq<GraphNode>, ghost edges: seq<GraphEdge>,
                      ghost ix: Index, ghost t: Tables)
    returns (journeys: seq<CriticalPathJourney>, ghost work: map<Id, Effort>)
    requires nameById == NameTable(nodes) && Distinct(journeyIds) && IsTables(t, ix, edges)
    requires ComplexityReport.IsGrouping(groups, t.journeyByActivity, t.journeyByActivity.Keys)
    requires forall a, b :: Edge(precedes, a, b) <==> Precedes(ix.acts, edges, a, b)
    ensures EntriesSoFar(nodes, edges, ix, Run(budgets, clock, work), journeyIds, journeys)
  {
    var ticks := 1;
    journeys, work := [], map[];
    for i := 0 to |journeyIds|
      invariant ticks > 0
      invariant EntriesSoFar(nodes, edges, ix, Run(budgets, clock, work), journeyIds[..i], journeys)
    {
      var j := journeyIds[i];
      ComplexityReport.GroupIsMembers(groups, t, ix, edges, j);
      var members := ComplexityReport.ListIn(groups, j);
      ghost var g := JourneyGraph(Elements(members), ix.acts, edges);
      JourneyGraphIs(Elements(members), ix.acts, edges);
      var e;
      ghost var w;
      e, ticks, w := ReportJourney(nameById, members, precedes, j, budgets, clock, ticks, g);
      assert journeyIds[..i + 1] == journeyIds[..i] + [j];
      OneMoreEntry(nodes, edges, ix, Run(budgets, clock, work), journeyIds[..i], journeys, e, w);
      journeys, work := journeys + [e], work[j := w];
    }
    assert journeyIds[..|journeyIds|] == journeyIds;
  }

  lemma {:induction false} OneMoreEntry(nodes: seq<GraphNode>, edges: seq<GraphEdge>, ix: Index, run: Run, ids: seq<Id>,
                                        journeys: seq<CriticalPathJourney>, e: CriticalPathJourney, w: Effort)
    requires EntriesSoFar(nodes, edges, ix, run, ids, journeys) && e.journeyId !in ids
    requires var run' := run.(work := run.work[e.journeyId := w]); IsEntry(nodes, edges, ix, run', e)
    ensures EntriesSoFar(nodes, edges, ix, run.(work := run.work[e.journeyId := w]),
                         ids + [e.journeyId], journeys + [e])
  {
    EntriesKept(nodes, edges, ix, run, e.journeyId, w, journeys);
  }

  lemma {:induction false} EntriesKept(nodes: seq<GraphNode>, edges: seq<GraphEdge>, ix: Index, run: Run, j: Id,
                                       w: Effort,
                                       journeys: seq<CriticalPathJourney>)
    requires j !in run.work && forall k :: 0 <= k < |journeys| ==> IsEntry(nodes, edges, ix, run, journeys[k])
    ensures forall k :: 0 <= k < |journeys| ==> IsEntry(nodes, edges, ix, run.(work := run.work[j := w]), journeys[k])
  {
  }

  function ByLength(collate: (string, string) -> bool): (CriticalPathJourney, CriticalPathJourney) -> bool {
    (x, y) => LongerFirst(collate, x, y)
  }

  lemma {:induction false} ByLengthOrder(collate: (string, string) -> bool)
    requires TotalPreorder(collate)
    ensures TotalPreorder(ByLength(collate))
  {
  }

  lemma {:induction false} ReportOf(nodes: seq<GraphNode>, edges: seq<GraphEdge>, ix: Index, run: Run, ids: seq<Id>,
                                    unsorted: seq<CriticalPathJourney>, journeys: seq<CriticalPathJourney>)
    requires Distinct(ids) && Elements(ids) == ix.journeys
    requires EntriesSoFar(nodes, edges, ix, run, ids, unsorted)
    requires |journeys| == |unsorted| && forall e :: e in journeys <==> e in unsorted
    ensures IsReport(nodes, edges, ix, run, journeys)
  {
    DistinctCardinality(ids);
    forall e | e in journeys
      ensures e.journeyId in ix.journeys && IsEntry(nodes, edges, ix, run, e)
    {
      var k :| 0 <= k < |unsorted| && unsorted[k] == e;
      assert unsorted[k].journeyId == ids[k];
    }
    forall j | j in ix.journeys
      ensures exists e :: e in journeys && e.journeyId == j
    {
      var k :| 0 <= k < |ids| && ids[k] == j;
      assert unsorted[k] in unsorted;
    }
  }

  /** The longest chains come first, and journeys with chains of one length by name. */
  lemma {:induction false} LongestComeFirst(collate: (string, string) -> bool, journeys: seq<CriticalPathJourney>)
    requires Sorted(ByLength(collate), journeys)
    ensures forall i, j :: 0 <= i < j < |journeys| ==>
              && journeys[i].length >= journeys[j].length
              && (journeys[i].length == journeys[j].length ==>
                    collate(journeys[i].journeyName, journeys[j].journeyName))
  {
    forall i, j | 0 <= i < j < |journeys|
      ensures LongerFirst(collate, journeys[i], journeys[j])
    {
      assert ByLength(collate)(journeys[i], journeys[j]);
    }
  }

  method SortReport(unsorted: seq<CriticalPathJourney>, collate: (string, string) -> bool, ghost nodes: seq<GraphNode>,
                    ghost edges: seq<GraphEdge>, ghost ix: Index, ghost run: Run, ghost journeyIds: seq<Id>)
    returns (journeys: seq<CriticalPathJourney>)
    requires Distinct(journeyIds) && Elements(journeyIds) == ix.journeys
    requires EntriesSoFar(nodes, edges, ix, run, journeyIds, unsorted)
    ensures IsReport(nodes, edges, ix, run, journeys)
    ensures TotalPreorder(collate) ==> forall i, j :: 0 <= i < j < |journeys| ==>
              && journeys[i].length >= journeys[j].length
              && (journeys[i].length == journeys[j].length ==>
                    collate(journeys[i].journeyName, journeys[j].journeyName))
  {
    journeys := SortBy(ByLength(collate), unsorted);
    SortIs(ByLength(collate), unsorted);
    ReportOf(nodes, edges, ix, run, journeyIds, unsorted, journeys);
    if TotalPreorder(collate) {
      ByLengthOrder(collate);
      LongestComeFirst(collate, journeys);
    }
  }
}
