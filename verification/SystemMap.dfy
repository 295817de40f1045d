/** `computeSystemMap` of api/src/analytics/system-map.ts, and its conservation law. */
module SystemMap {
  import opened Paths
  import opened Ordering
  import opened GraphIndex

  datatype SystemMapNode = SystemMapNode(id: Id, name: string, degree: nat, integrationCount: nat)

  /** The names of system nodes; nodes of other labels do not count. */
  function SystemNames(nodes: seq<GraphNode>): map<Id, string> {
    if nodes == [] then map[]
    else
      var n, names := nodes[|nodes| - 1], SystemNames(nodes[..|nodes| - 1]);
      if n.kind == SYSTEM then names[n.id := n.name] else names
  }

  /** How often `s` is an end of the edges; a self-loop counts twice. */
  function EndCount(edges: seq<GraphEdge>, s: Id): nat {
    if edges == [] then 0
    else
      var e := edges[|edges| - 1];
      EndCount(edges[..|edges| - 1], s) + (if e.source == s then 1 else 0) + (if e.target == s then 1 else 0)
  }

  /** The integrations between two systems, in input order. */
  function IntegrationsOf(systems: set<Id>, edges: seq<GraphEdge>): seq<GraphEdge> {
    if edges == [] then []
    else
      var e := edges[|edges| - 1];
      IntegrationsOf(systems, edges[..|edges| - 1]) + if Links(e, INTEGRATES_WITH, systems, systems) then [e] else []
  }

  ghost predicate IsMapRow(nodes: seq<GraphNode>, edges: seq<GraphEdge>, r: SystemMapNode) {
    var systems := SystemNames(nodes).Keys;
    && r.id in systems
    && r == SystemMapNode(r.id, SystemNames(nodes)[r.id], EndCount(edges, r.id),
                          EndCount(IntegrationsOf(systems, edges), r.id))
  }

  function NodeIds(rows: seq<SystemMapNode>): (ids: seq<Id>)
    ensures |ids| == |rows| && forall i :: 0 <= i < |rows| ==> ids[i] == rows[i].id
  {
    if rows == [] then [] else NodeIds(rows[..|rows| - 1]) + [rows[|rows| - 1].id]
  }

  /** One row for every system. */
  ghost predicate IsSystemMap(nodes: seq<GraphNode>, edges: seq<GraphEdge>, rows: seq<SystemMapNode>) {
    && (forall r :: r in rows ==> IsMapRow(nodes, edges, r))
    && Distinct(NodeIds(rows)) && Elements(NodeIds(rows)) == SystemNames(nodes).Keys
  }

  // ---------- the loops ----------

  function CountIn(table: map<Id, nat>, s: Id): nat {
    if s in table then table[s] else 0
  }

  ghost predicate IsCount(table: map<Id, nat>, systems: set<Id>, edges: seq<GraphEdge>) {
    forall s :: s in systems ==> CountIn(table, s) == EndCount(edges, s)
  }

  /** Counts one edge at each end that is a system. */
  method CountEdge(table: map<Id, nat>, systems: set<Id>, ghost before: seq<GraphEdge>, e: GraphEdge)
    returns (table': map<Id, nat>)
    requires IsCount(table, systems, before)
    ensures IsCount(table', systems, before + [e])
  {
    assert (before + [e])[..|before|] == before;
    table' := table;
    if e.source in systems {
      table' := table'[e.source := CountIn(table', e.source) + 1];
    }
    if e.target in systems {
      table' := table'[e.target := CountIn(table', e.target) + 1];
    }
  }

  method CollectSystems(nodes: seq<GraphNode>) returns (systemIds: set<Id>, nameById: map<Id, string>)
    ensures nameById == SystemNames(nodes) && systemIds == nameById.Keys
  {
    systemIds, nameById := {}, map[];
    for i := 0 to |nodes|
      invariant nameById == SystemNames(nodes[..i]) && systemIds == nameById.Keys
    {
      assert nodes[..i + 1][..i] == nodes[..i];
      if nodes[i].kind == SYSTEM {
        systemIds := systemIds + {nodes[i].id};
        nameById := nameById[nodes[i].id := nodes[i].name];
      }
    }
    assert nodes[..|nodes|] == nodes;
  }

  method CountEdges(systemIds: set<Id>, edges: seq<GraphEdge>)
    returns (degree: map<Id, nat>, integrationCount: map<Id, nat>, integrations: seq<GraphEdge>)
    ensures integrations == IntegrationsOf(systemIds, edges)
    ensures IsCount(degree, systemIds, edges) && IsCount(integrationCount, systemIds, integrations)
  {
    degree, integrationCount, integrations := map[], map[], [];
    for i := 0 to |edges|
      invariant integrations == IntegrationsOf(systemIds, edges[..i])
      invariant IsCount(degree, systemIds, edges[..i]) && IsCount(integrationCount, systemIds, integrations)
    {
      var e := edges[i];
      assert edges[..i + 1] == edges[..i] + [e] && edges[..i + 1][..i] == edges[..i];
      degree := CountEdge(degree, systemIds, edges[..i], e);
      if e.typ == INTEGRATES_WITH && e.source in systemIds && e.target in systemIds {
        integrationCount := CountEdge(integrationCount, systemIds, integrations, e);
        integrations := integrations + [e];
      }
    }
    assert edges[..|edges|] == edges;
  }

  predicate MoreIntegrated(collate: (string, string) -> bool, x: SystemMapNode, y: SystemMapNode) {
    || x.integrationCount > y.integrationCount
    || (x.integrationCount == y.integrationCount &&
        (x.degree > y.degree || (x.degree == y.degree && collate(x.name, y.name))))
  }

  function ByIntegration(collate: (string, string) -> bool): (SystemMapNode, SystemMapNode) -> bool {
    (x, y) => MoreIntegrated(collate, x, y)
  }

  lemma {:induction false} ByIntegrationOrder(collate: (string, string) -> bool)
    requires TotalPreorder(collate)
    ensures TotalPreorder(ByIntegration(collate))
  {
  }

  /** The most integrated systems come first, then those with most edges, then by name. */
  lemma {:induction false} MostIntegratedComeFirst(collate: (string, string) -> bool, systems: seq<SystemMapNode>)
    requires Sorted(ByIntegration(collate), systems)
    ensures forall i, j :: 0 <= i < j < |systems| ==>
              && systems[i].integrationCount >= systems[j].integrationCount
              && (systems[i].integrationCount == systems[j].integrationCount ==>
                    && systems[i].degree >= systems[j].degree
                    && (systems[i].degree == systems[j].degree ==> collate(systems[i].name, systems[j].name)))
  {
    forall i, j | 0 <= i < j < |systems|
      ensures MoreIntegrated(collate, systems[i], systems[j])
    {
      assert ByIntegration(collate)(systems[i], systems[j]);
    }
  }

  method ComputeSystemMap(nodes: seq<GraphNode>, edges: seq<GraphEdge>, collate: (string, string) -> bool)
    returns (systems: seq<SystemMapNode>, integrations: seq<GraphEdge>)
    ensures IsSystemMap(nodes, edges, systems)
    ensures integrations == IntegrationsOf(SystemNames(nodes).Keys, edges)
    ensures TotalPreorder(collate) ==> forall i, j :: 0 <= i < j < |systems| ==>
              && systems[i].integrationCount >= systems[j].integrationCount
              && (systems[i].integrationCount == systems[j].integrationCount ==>
                    && systems[i].degree >= systems[j].degree
                    && (systems[i].degree == systems[j].degree ==> collate(systems[i].name, systems[j].name)))
  {
    var systemIds, nameById := CollectSystems(nodes);
    var degree, integrationCount;
    degree, integrationCount, integrations := CountEdges(systemIds, edges);
    var unsorted := ListSystems(nameById, degree, integrationCount, nodes, edges);
    systems := SortBy(ByIntegration(collate), unsorted);
    SortIs(ByIntegration(collate), unsorted);
    RowsKeepIds(unsorted, systems);
    if TotalPreorder(collate) {
      ByIntegrationOrder(collate);
      MostIntegratedComeFirst(collate, systems);
    }
  }

  lemma {:induction false} NodeIdsGrow(rows: seq<SystemMapNode>, r: SystemMapNode)
    requires Distinct(NodeIds(rows)) && r.id !in Elements(NodeIds(rows))
    ensures Distinct(NodeIds(rows + [r]))
    ensures Elements(NodeIds(rows + [r])) == Elements(NodeIds(rows)) + {r.id}
  {
  }

  method ListSystems(nameById: map<Id, string>, degree: map<Id, nat>, integrationCount: map<Id, nat>,
                     ghost nodes: seq<GraphNode>, ghost edges: seq<GraphEdge>)
    returns (rows: seq<SystemMapNode>)
    requires nameById == SystemNames(nodes) && IsCount(degree, nameById.Keys, edges)
    requires IsCount(integrationCount, nameById.Keys, IntegrationsOf(nameById.Keys, edges))
    ensures IsSystemMap(nodes, edges, rows)
  {
    rows := [];
    var todo, done: set<Id> := nameById.Keys, {};
    while todo != {}
      invariant todo + done == nameById.Keys && todo !! done
      invariant forall r :: r in rows ==> IsMapRow(nodes, edges, r)
      invariant Distinct(NodeIds(rows)) && Elements(NodeIds(rows)) == done
      decreases todo
    {
      var id :| id in todo;
      var r := SystemMapNode(id, nameById[id], CountIn(degree, id), CountIn(integrationCount, id));
      NodeIdsGrow(rows, r);
      rows := rows + [r];
      todo, done := todo - {id}, done + {id};
    }
  }

  /** Sorting keeps one row for every system. */
  lemma {:induction false} RowsKeepIds(rows: seq<SystemMapNode>, rows': seq<SystemMapNode>)
    requires |rows| == |rows'| && forall r :: r in rows <==> r in rows'
    requires Distinct(NodeIds(rows))
    ensures Distinct(NodeIds(rows')) && Elements(NodeIds(rows')) == Elements(NodeIds(rows))
  {
    SameIds(rows, rows');
    SameIds(rows', rows);
    assert Elements(NodeIds(rows')) == Elements(NodeIds(rows));
    DistinctCardinality(NodeIds(rows));
    DistinctByCount(NodeIds(rows'));
  }

  lemma {:induction false} SameIds(rows: seq<SystemMapNode>, rows': seq<SystemMapNode>)
    requires forall r :: r in rows ==> r in rows'
    ensures Elements(NodeIds(rows)) <= Elements(NodeIds(rows'))
  {
    forall n | n in NodeIds(rows)
      ensures n in NodeIds(rows')
    {
      var i :| 0 <= i < |rows| && NodeIds(rows)[i] == n;
      assert rows[i] in rows';
      var k :| 0 <= k < |rows'| && rows'[k] == rows[i];
      assert NodeIds(rows')[k] == n;
    }
  }

  // ---------- what a row means ----------

  /** The places of the edges that start, and those that end, at a system. */
  ghost function StartsAt(edges: seq<GraphEdge>, s: Id): set<int> {
    set i | 0 <= i < |edges| && edges[i].source == s
  }

  ghost function EndsAt(edges: seq<GraphEdge>, s: Id): set<int> {
    set i | 0 <= i < |edges| && edges[i].target == s
  }

  lemma {:induction false} OneMoreStart(front: seq<GraphEdge>, e: GraphEdge, s: Id)
    ensures |StartsAt(front + [e], s)| == |StartsAt(front, s)| + if e.source == s then 1 else 0
  {
    var edges, n := front + [e], |front|;
    assert forall i :: 0 <= i < n ==> edges[i] == front[i];
    assert StartsAt(edges, s) == StartsAt(front, s) + if e.source == s then {n} else {};
    assert n !in StartsAt(front, s);
  }

  lemma {:induction false} OneMoreEnd(front: seq<GraphEdge>, e: GraphEdge, s: Id)
    ensures |EndsAt(front + [e], s)| == |EndsAt(front, s)| + if e.target == s then 1 else 0
  {
    var edges, n := front + [e], |front|;
    assert forall i :: 0 <= i < n ==> edges[i] == front[i];
    assert EndsAt(edges, s) == EndsAt(front, s) + if e.target == s then {n} else {};
    assert n !in EndsAt(front, s);
  }

  /** The degree is the number of edges that start at the system and of those that end there. */
  lemma {:induction false} EndCountIs(edges: seq<GraphEdge>, s: Id)
    ensures EndCount(edges, s) == |StartsAt(edges, s)| + |EndsAt(edges, s)|
  {
    if edges != [] {
      var front, e := edges[..|edges| - 1], edges[|edges| - 1];
      EndCountIs(front, s);
      OneMoreStart(front, e, s);
      OneMoreEnd(front, e, s);
      assert edges == front + [e];
    } else {
      assert StartsAt(edges, s) == {} && EndsAt(edges, s) == {};
    }
  }

  /** One edge is listed exactly when it integrates two systems, and the list keeps the order of the edges. */
  lemma {:induction false} IntegrationsConcat(systems: set<Id>, a: seq<GraphEdge>, b: seq<GraphEdge>)
    ensures IntegrationsOf(systems, a + b) == IntegrationsOf(systems, a) + IntegrationsOf(systems, b)
    ensures |b| == 1 ==>
              var listed := b[0].typ == "INTEGRATES_WITH" && b[0].source in systems && b[0].target in systems;
              IntegrationsOf(systems, b) == if listed then b else []
  {
    if b == [] {
      assert a + b == a;
    } else {
      var front := b[..|b| - 1];
      IntegrationsConcat(systems, a, front);
      assert (a + b)[..|a + b| - 1] == a + front;
    }
  }

  /** A system's row has its name: that of the last system node with its id. */
  lemma {:induction false} SystemNameIsLast(nodes: seq<GraphNode>, i: nat)
    requires i < |nodes| && nodes[i].kind == "System"
    requires forall k :: i < k < |nodes| ==> nodes[k].id != nodes[i].id || nodes[k].kind != "System"
    ensures nodes[i].id in SystemNames(nodes) && SystemNames(nodes)[nodes[i].id] == nodes[i].name
  {
    var last := |nodes| - 1;
    if i < last {
      SystemNameIsLast(nodes[..last], i);
    }
  }

  lemma {:induction false} SystemsRead(nodes: seq<GraphNode>, id: Id)
    ensures id in SystemNames(nodes) <==> IsNode(nodes, id, "System")
  {
    if nodes != [] {
      var front, n := nodes[..|nodes| - 1], nodes[|nodes| - 1];
      SystemsRead(front, id);
      assert nodes == front + [n];
    }
  }

  // ---------- conservation ----------

  function IntegrationTotal(rows: seq<SystemMapNode>): nat {
    if rows == [] then 0 else IntegrationTotal(rows[..|rows| - 1]) + rows[|rows| - 1].integrationCount
  }

  /** The ends of the edges, summed over a list of systems. */
  function EndTotal(edges: seq<GraphEdge>, ids: seq<Id>): nat {
    if ids == [] then 0 else EndTotal(edges, ids[..|ids| - 1]) + EndCount(edges, ids[|ids| - 1])
  }

  lemma {:induction false} OneMoreEdge(edges: seq<GraphEdge>, e: GraphEdge, ids: seq<Id>)
    requires Distinct(ids)
    ensures EndTotal(edges + [e], ids) ==
            EndTotal(edges, ids) + (if e.source in ids then 1 else 0) + (if e.target in ids then 1 else 0)
  {
    if ids != [] {
      var front, last := ids[..|ids| - 1], ids[|ids| - 1];
      OneMoreEdge(edges, e, front);
      assert ids == front + [last] && last !in front;
      assert (edges + [e])[..|edges|] == edges;
    }
  }

  /** Every edge between listed systems is counted from both of its ends. */
  lemma {:induction false} EndsCountedTwice(edges: seq<GraphEdge>, ids: seq<Id>)
    requires Distinct(ids) && forall e :: e in edges ==> e.source in ids && e.target in ids
    ensures EndTotal(edges, ids) == 2 * |edges|
  {
    if edges == [] {
      NoEnds(ids);
    } else {
      var front, e := edges[..|edges| - 1], edges[|edges| - 1];
      EndsCountedTwice(front, ids);
      OneMoreEdge(front, e, ids);
      assert edges == front + [e];
    }
  }

  lemma {:induction false} NoEnds(ids: seq<Id>)
    ensures EndTotal([], ids) == 0
  {
    if ids != [] {
      NoEnds(ids[..|ids| - 1]);
    }
  }

  lemma {:induction false} IntegrationTotalIs(nodes: seq<GraphNode>, edges: seq<GraphEdge>, rows: seq<SystemMapNode>)
    requires forall r :: r in rows ==> IsMapRow(nodes, edges, r)
    ensures IntegrationTotal(rows) == EndTotal(IntegrationsOf(SystemNames(nodes).Keys, edges), NodeIds(rows))
  {
    if rows != [] {
      var front, last := rows[..|rows| - 1], rows[|rows| - 1];
      IntegrationTotalIs(nodes, edges, front);
      assert last in rows && IsMapRow(nodes, edges, last);
      var ids := NodeIds(rows);
      assert ids[..|ids| - 1] == NodeIds(front) && ids[|ids| - 1] == last.id;
    }
  }

  lemma {:induction false} IntegrationsAreInternal(systems: set<Id>, edges: seq<GraphEdge>)
    ensures forall e :: e in IntegrationsOf(systems, edges) ==> e.source in systems && e.target in systems
  {
    if edges != [] {
      IntegrationsAreInternal(systems, edges[..|edges| - 1]);
    }
  }

  lemma {:induction false} IntegrationsWithinDegree(systems: set<Id>, edges: seq<GraphEdge>, s: Id)
    ensures EndCount(IntegrationsOf(systems, edges), s) <= EndCount(edges, s)
  {
    if edges != [] {
      var front, e := edges[..|edges| - 1], edges[|edges| - 1];
      IntegrationsWithinDegree(systems, front, s);
      var inner := IntegrationsOf(systems, front);
      assert (inner + [e])[..|inner|] == inner && inner + [] == inner;
    }
  }

  /** Integration counts sum to twice the integrations listed, and none exceeds its system's degree. */
  lemma {:induction false} IntegrationsConserved(nodes: seq<GraphNode>, edges: seq<GraphEdge>, rows: seq<SystemMapNode>)
    requires IsSystemMap(nodes, edges, rows)
    ensures IntegrationTotal(rows) == 2 * |IntegrationsOf(SystemNames(nodes).Keys, edges)|
    ensures forall r :: r in rows ==> r.integrationCount <= r.degree
  {
    var systems := SystemNames(nodes).Keys;
    IntegrationTotalIs(nodes, edges, rows);
    IntegrationsAreInternal(systems, edges);
    assert forall s :: s in systems <==> s in Elements(NodeIds(rows));
    EndsCountedTwice(IntegrationsOf(systems, edges), NodeIds(rows));
    forall r | r in rows
      ensures r.integrationCount <= r.degree
    {
      IntegrationsWithinDegree(systems, edges, r.id);
    }
  }
}
