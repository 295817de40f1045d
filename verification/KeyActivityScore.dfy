/**
 The first half of `scoreActivities` (api/src/derive/key-activity-score.ts): the
 guards, the neighbour tables, the handoff counts and the row of one activity, in
 the loop form of the source, proved against the order-free rows of KeyActivityRows.
 */
module KeyActivityScore {
  import opened Paths
  import opened Ordering
  import opened KeyActivityPath
  import opened KeyActivityRows

  /** The facts are the ones the input determines. */
  ghost predicate IsFactsOf(sg: ScoreSubgraph, bc: Betweenness, f: Facts) {
    var acts := FirstById(sg.activities);
    var edges := EdgeSet(KeptEdges(Elements(Ids(acts)), sg.precedes));
    && f.byId == ById(acts)
    && f.edges == edges && f.weights == sg.weights
    && IsBetweennessTable(f.betweenness, bc, f.byId.Keys, edges)
    && IsMaxBetweenness(f.betweenness, f.maxBetweenness)
    && IsLength(f.depth, f.length)
    && IsHandoffTable(f.handoffs, f.byId, edges)
    && IsMaxHandoff(f.handoffs, f.maxHandoff)
  }

  /** One row for every activity, each saying what the facts say. */
  ghost predicate RowsOf(f: Facts, rows: seq<Row>) {
    && (forall r :: r in rows ==> IsRow(f, r))
    && |rows| == |f.byId|
    && (forall n :: n in f.byId ==> HasRow(rows, n))
  }

  ghost predicate HasRow(rows: seq<Row>, n: Id) {
    exists r :: r in rows && r.activity.id == n
  }

  ghost predicate IsRow(f: Facts, r: Row) {
    var n := r.activity.id;
    && n in f.byId && n in f.betweenness && n in f.handoffs
    && r == RowOf(f, n, r.rank, r.onCriticalPath)
  }

  /** The rows come in the order of the ranking and are numbered from 1. */
  ghost predicate IsRanked(rows: seq<Row>) {
    Sorted(RowLe, rows) && forall i :: 0 <= i < |rows| ==> rows[i].rank == i + 1
  }

  // ---------- the guards ----------

  method Deduplicate(input: seq<ScoreActivity>) returns (activities: seq<ScoreActivity>, seenIds: set<Id>)
    ensures activities == FirstById(input) && seenIds == Elements(Ids(activities))
  {
    activities, seenIds := [], {};
    for i := 0 to |input|
      invariant activities == FirstById(input[..i]) && seenIds == Elements(Ids(activities))
    {
      var a := input[i];
      assert input[..i + 1][..i] == input[..i];
      if a.id !in seenIds {
        IdsSnoc(activities, a);
        seenIds := seenIds + {a.id};
        activities := activities + [a];
      }
    }
    assert input[..|input|] == input;
  }

  method FilterEdges(seenIds: set<Id>, precedes: seq<ScoreEdge>) returns (edges: seq<ScoreEdge>)
    ensures edges == KeptEdges(seenIds, precedes)
  {
    edges := [];
    var seenEdges: set<string> := {};
    for i := 0 to |precedes|
      invariant edges == KeptEdges(seenIds, precedes[..i]) && seenEdges == Elements(Keys(edges))
    {
      var e := precedes[i];
      assert precedes[..i + 1][..i] == precedes[..i];
      if e.fromId != e.toId && e.fromId in seenIds && e.toId in seenIds {
        var k := EdgeKey(e);
        if k !in seenEdges {
          KeysSnoc(edges, e);
          seenEdges := seenEdges + {k};
          edges := edges + [e];
        }
      }
    }
    assert precedes[..|precedes|] == precedes;
  }

  // ---------- neighbours and handoffs ----------

  ghost predicate IsNeighbourTable(neighbours: map<Id, set<Id>>, edges: set<ScoreEdge>) {
    forall n :: n in neighbours ==> neighbours[n] == Neighbours(edges, n)
  }

  method BuildNeighbours(ids: seq<Id>, edges: seq<ScoreEdge>) returns (neighbours: map<Id, set<Id>>)
    requires Scoped(Elements(ids), edges)
    ensures neighbours.Keys == Elements(ids) && IsNeighbourTable(neighbours, EdgeSet(edges))
  {
    neighbours := map n | n in ids :: {};
    for i := 0 to |edges|
      invariant neighbours.Keys == Elements(ids)
      invariant IsNeighbourTable(neighbours, EdgeSet(edges[..i]))
    {
      var e := edges[i];
      assert e in edges;
      EdgeSetPrefix(edges, i);
      neighbours := Link(neighbours, e, EdgeSet(edges[..i]));
    }
    assert edges[..|edges|] == edges;
  }

  lemma {:induction false} EdgeSetPrefix(edges: seq<ScoreEdge>, i: nat)
    requires i < |edges|
    ensures EdgeSet(edges[..i + 1]) == EdgeSet(edges[..i]) + {edges[i]}
  {
    assert edges[..i + 1] == edges[..i] + [edges[i]];
  }

  /** Enters each end of an edge among the neighbours of the other. */
  method Link(before: map<Id, set<Id>>, e: ScoreEdge, ghost edges: set<ScoreEdge>)
    returns (neighbours: map<Id, set<Id>>)
    requires e.fromId in before && e.toId in before && IsNeighbourTable(before, edges)
    ensures neighbours.Keys == before.Keys && IsNeighbourTable(neighbours, edges + {e})
  {
    neighbours := before[e.fromId := before[e.fromId] + {e.toId}];
    neighbours := neighbours[e.toId := neighbours[e.toId] + {e.fromId}];
    forall n | n in neighbours
      ensures neighbours[n] == Neighbours(edges + {e}, n)
    {
      NeighboursGrow(edges, e, n);
    }
  }

  lemma {:induction false} NeighboursGrow(edges: set<ScoreEdge>, e: ScoreEdge, n: Id)
    ensures Neighbours(edges + {e}, n) ==
            Neighbours(edges, n) + (if e.fromId == n then {e.toId} else {})
                                 + (if e.toId == n then {e.fromId} else {})
  {
  }

  /** Counts, for one activity, the neighbours it hands work over to. */
  method CountHandoffs(byId: map<Id, ScoreActivity>, ghost edges: set<ScoreEdge>, id: Id, neighbours: set<Id>)
    returns (h: Handoffs)
    requires id in byId && neighbours == Neighbours(edges, id)
    ensures h == HandoffsOf(byId, edges, id)
  {
    var roleHandoffs, systemHandoffs := 0, 0;
    var todo, a := neighbours, byId[id];
    ghost var roles, systems := RolePartners(byId, edges, id), SystemPartners(byId, edges, id);
    assert roles - todo == {} && systems - todo == {};
    while todo != {}
      invariant todo <= neighbours
      invariant |roles - todo| == roleHandoffs && |systems - todo| == systemHandoffs
      decreases todo
    {
      var m :| m in todo;
      OneMore(roles, todo, m);
      OneMore(systems, todo, m);
      todo := todo - {m};
      if m in byId {
        if IsHandoff(a.roleIds, byId[m].roleIds) { roleHandoffs := roleHandoffs + 1; }
        if IsHandoff(a.systemIds, byId[m].systemIds) { systemHandoffs := systemHandoffs + 1; }
      }
    }
    assert roles - todo == roles && systems - todo == systems;
    h := Handoffs(roleHandoffs, systemHandoffs);
  }

  lemma {:induction false} OneMore(s: set<Id>, todo: set<Id>, m: Id)
    requires m in todo
    ensures |s - (todo - {m})| == |s - todo| + if m in s then 1 else 0
  {
    if m in s {
      assert s - (todo - {m}) == (s - todo) + {m};
    } else {
      assert s - (todo - {m}) == s - todo;
    }
  }

  method CountAllHandoffs(activities: seq<ScoreActivity>, byId: map<Id, ScoreActivity>,
                          neighbours: map<Id, set<Id>>, ghost edges: set<ScoreEdge>)
    returns (handoffRaw: map<Id, Handoffs>)
    requires byId.Keys == neighbours.Keys == Elements(Ids(activities)) && IsNeighbourTable(neighbours, edges)
    ensures IsHandoffTable(handoffRaw, byId, edges)
  {
    handoffRaw := map[];
    for i := 0 to |activities|
      invariant handoffRaw.Keys == Elements(Ids(activities)[..i])
      invariant forall n :: n in handoffRaw ==> n in byId && handoffRaw[n] == HandoffsOf(byId, edges, n)
    {
      var id := activities[i].id;
      assert Ids(activities)[i] == id && Ids(activities)[..i + 1] == Ids(activities)[..i] + [id];
      var h := CountHandoffs(byId, edges, id, neighbours[id]);
      handoffRaw := handoffRaw[id := h];
    }
    assert Ids(activities)[..|activities|] == Ids(activities);
  }

  method LargestHandoff(ids: seq<Id>, handoffRaw: map<Id, Handoffs>) returns (m: nat)
    requires handoffRaw.Keys == Elements(ids)
    ensures IsMaxHandoff(handoffRaw, m)
  {
    m := 0;
    for i := 0 to |ids|
      invariant m == 0 || exists n :: n in handoffRaw && handoffRaw[n].Count() == m
      invariant forall n :: n in ids[..i] ==> handoffRaw[n].Count() <= m
    {
      var id := ids[i];
      assert ids[..i + 1] == ids[..i] + [id];
      if handoffRaw[id].Count() > m {
        m := handoffRaw[id].Count();
      }
    }
    assert ids[..|ids|] == ids;
  }

  method MeasureBetweenness(bc: Betweenness, ids: seq<Id>, edges: set<ScoreEdge>)
    returns (betweenness: map<Id, real>, m: real)
    ensures IsBetweennessTable(betweenness, bc, Elements(ids), edges)
    ensures IsMaxBetweenness(betweenness, m)
  {
    betweenness := map n | n in ids :: bc(Elements(ids), edges, n);
    m := 0.0;
    for i := 0 to |ids|
      invariant m >= 0.0 && (m == 0.0 || exists n :: n in betweenness && betweenness[n] == m)
      invariant forall n :: n in ids[..i] ==> betweenness[n] <= m
    {
      var id := ids[i];
      assert ids[..i + 1] == ids[..i] + [id];
      if betweenness[id] > m {
        m := betweenness[id];
      }
    }
    assert ids[..|ids|] == ids;
  }

  // ---------- the rows ----------

  lemma {:induction false} RatioBounds(part: real, whole: real)
    requires part <= whole && whole > 0.0
    ensures Ratio(part, whole) <= 1.0
    ensures part == whole ==> Ratio(part, whole) == 1.0
  {
    assert Ratio(part, whole) * whole == part;
  }

  /** Being on the critical path scores 1, but that is the ratio too: the special case changes nothing. */
  method CriticalPathScore(cp: CriticalPathResult, id: Id) returns (score: real)
    requires Consistent(cp)
    ensures score == Ratio(DepthIn(cp.longestThrough, id) as real, cp.criticalPathLength as real)
  {
    var depth, length := DepthIn(cp.longestThrough, id) as real, cp.criticalPathLength as real;
    if cp.criticalPathLength == 0 {
      score := 0.0;
    } else {
      RatioBounds(depth, length);
      if id in cp.onCriticalPath {
        score := 1.0;
      } else {
        var r := depth / length;
        score := if r < 1.0 then r else 1.0;
      }
    }
  }

  method ScoreRow(a: ScoreActivity, weights: Weights, betweenness: map<Id, real>, maxBetweenness: real,
                  cp: CriticalPathResult, handoffRaw: map<Id, Handoffs>, maxHandoff: nat,
                  edges: set<ScoreEdge>, ghost f: Facts)
    returns (r: Row)
    requires Consistent(cp) && a.id in f.byId && a.id in betweenness && a.id in handoffRaw
    requires f == Facts(f.byId, edges, weights, betweenness, maxBetweenness,
                        cp.longestThrough, cp.criticalPathLength, handoffRaw, maxHandoff)
    requires f.byId[a.id] == a
    ensures IsRow(f, r) && r.activity == a && r.onCriticalPath == (a.id in cp.onCriticalPath)
  {
    var rawB := betweenness[a.id];
    var centrality := if maxBetweenness > 0.0 then rawB / maxBetweenness else 0.0;
    var criticalPath := CriticalPathScore(cp, a.id);
    var h := handoffRaw[a.id];
    var handoff := if maxHandoff > 0 then h.Count() as real / maxHandoff as real else 0.0;
    var composite := Composite(weights, centrality, criticalPath, handoff);
    r := Row(a, 0, composite, centrality, criticalPath, handoff,
             rawB, InDegree(edges, a.id), OutDegree(edges, a.id),
             a.id in cp.onCriticalPath, DepthIn(cp.longestThrough, a.id), cp.criticalPathLength, h);
  }

  method MeasureHandoffs(activities: seq<ScoreActivity>, edges: seq<ScoreEdge>)
    returns (handoffRaw: map<Id, Handoffs>, maxHandoff: nat)
    requires Distinct(Ids(activities)) && Scoped(Elements(Ids(activities)), edges)
    ensures IsHandoffTable(handoffRaw, ById(activities), EdgeSet(edges)) && IsMaxHandoff(handoffRaw, maxHandoff)
  {
    ByIdIs(activities);
    var neighbours := BuildNeighbours(Ids(activities), edges);
    var byId := ById(activities);
    handoffRaw := CountAllHandoffs(activities, byId, neighbours, EdgeSet(edges));
    maxHandoff := LargestHandoff(Ids(activities), handoffRaw);
  }
}
