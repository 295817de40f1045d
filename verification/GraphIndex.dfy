/**
 The scan every journey report starts with: node ids by label, the journey of an
 activity, and the systems and roles it touches. The reports under
 api/src/analytics/ repeat these loops; here they are written once.
 */
module GraphIndex {
  import opened Wrappers
  import opened Paths

  datatype GraphNode = GraphNode(id: Id, kind: string, name: string)

  datatype GraphEdge = GraphEdge(id: string, source: Id, target: Id, typ: string)

  const ACTIVITY := "Activity"
  const SYSTEM := "System"
  const ROLE := "Role"
  const JOURNEY := "UserJourney"
  const PART_OF := "PART_OF"
  const PRECEDES := "PRECEDES"
  const USES_SYSTEM := "USES_SYSTEM"
  const EXECUTES := "EXECUTES"
  const INTEGRATES_WITH := "INTEGRATES_WITH"

  // ---------- what the scan is to find ----------

  ghost function Labelled(nodes: seq<GraphNode>, kind: string): set<Id> {
    set n | n in nodes && n.kind == kind :: n.id
  }

  function NameTable(nodes: seq<GraphNode>): map<Id, string> {
    if nodes == [] then map[]
    else NameTable(nodes[..|nodes| - 1])[nodes[|nodes| - 1].id := nodes[|nodes| - 1].name]
  }

  function NameIn(names: map<Id, string>, id: Id): string {
    if id in names then names[id] else id
  }

  predicate Links(e: GraphEdge, typ: string, sources: set<Id>, targets: set<Id>) {
    e.typ == typ && e.source in sources && e.target in targets
  }

  /** The journey of the first edge that puts the activity into one. */
  function JourneyOf(acts: set<Id>, journeys: set<Id>, edges: seq<GraphEdge>, a: Id): Option<Id> {
    if edges == [] then None
    else
      var e, earlier := edges[|edges| - 1], JourneyOf(acts, journeys, edges[..|edges| - 1], a);
      if earlier == None && Links(e, PART_OF, acts, journeys) && e.source == a then Some(e.target) else earlier
  }

  ghost function TargetsOf(edges: seq<GraphEdge>, typ: string, sources: set<Id>, targets: set<Id>, a: Id): set<Id> {
    set e | e in edges && Links(e, typ, sources, targets) && e.source == a :: e.target
  }

  ghost function SourcesOf(edges: seq<GraphEdge>, typ: string, sources: set<Id>, targets: set<Id>, a: Id): set<Id> {
    set e | e in edges && Links(e, typ, sources, targets) && e.target == a :: e.source
  }

  ghost predicate Precedes(acts: set<Id>, edges: seq<GraphEdge>, a: Id, b: Id) {
    exists e :: e in edges && Links(e, PRECEDES, acts, acts) && e.source == a && e.target == b
  }

  /** The input of every report, with the label sets the scan collects. */
  datatype Index = Index(acts: set<Id>, systems: set<Id>, roles: set<Id>, journeys: set<Id>)

  ghost predicate IsIndex(ix: Index, nodes: seq<GraphNode>) {
    && ix.acts == Labelled(nodes, ACTIVITY)
    && ix.systems == Labelled(nodes, SYSTEM)
    && ix.roles == Labelled(nodes, ROLE)
    && ix.journeys == Labelled(nodes, JOURNEY)
  }

  ghost function Members(ix: Index, edges: seq<GraphEdge>, j: Id): set<Id> {
    set a | a in ix.acts && JourneyOf(ix.acts, ix.journeys, edges, a) == Some(j)
  }

  ghost function SystemsOf(ix: Index, edges: seq<GraphEdge>, a: Id): set<Id> {
    TargetsOf(edges, USES_SYSTEM, ix.acts, ix.systems, a)
  }

  ghost function RolesOf(ix: Index, edges: seq<GraphEdge>, a: Id): set<Id> {
    SourcesOf(edges, EXECUTES, ix.roles, ix.acts, a)
  }

  ghost function SystemsOfJourney(ix: Index, edges: seq<GraphEdge>, j: Id): set<Id> {
    set a, s | a in Members(ix, edges, j) && s in SystemsOf(ix, edges, a) :: s
  }

  ghost function RolesOfJourney(ix: Index, edges: seq<GraphEdge>, j: Id): set<Id> {
    set a, r | a in Members(ix, edges, j) && r in RolesOf(ix, edges, a) :: r
  }

  // ---------- what the scan finds, in the words of the schema ----------

  ghost predicate IsNode(nodes: seq<GraphNode>, id: Id, kind: string) {
    exists n :: n in nodes && n.id == id && n.kind == kind
  }

  lemma {:induction false} LabelsRead(ix: Index, nodes: seq<GraphNode>, id: Id)
    requires IsIndex(ix, nodes)
    ensures id in ix.acts <==> IsNode(nodes, id, "Activity")
    ensures id in ix.systems <==> IsNode(nodes, id, "System")
    ensures id in ix.roles <==> IsNode(nodes, id, "Role")
    ensures id in ix.journeys <==> IsNode(nodes, id, "UserJourney")
  {
  }

  /** A node's name is that of the last node with its id. */
  lemma {:induction false} NameIsLast(nodes: seq<GraphNode>, i: nat)
    requires i < |nodes| && forall k :: i < k < |nodes| ==> nodes[k].id != nodes[i].id
    ensures nodes[i].id in NameTable(nodes) && NameIn(NameTable(nodes), nodes[i].id) == nodes[i].name
  {
    var last := |nodes| - 1;
    if i < last {
      assert nodes[last].id != nodes[i].id;
      NameIsLast(nodes[..last], i);
    }
  }

  /** An id without a node names itself. */
  lemma {:induction false} UnknownNamesItself(nodes: seq<GraphNode>, id: Id)
    requires forall k :: 0 <= k < |nodes| ==> nodes[k].id != id
    ensures id !in NameTable(nodes) && NameIn(NameTable(nodes), id) == id
  {
    if nodes != [] {
      assert nodes[|nodes| - 1].id != id;
      UnknownNamesItself(nodes[..|nodes| - 1], id);
    }
  }

  /** The edge puts the activity into the journey. */
  ghost predicate PutsInto(nodes: seq<GraphNode>, e: GraphEdge, a: Id, j: Id) {
    && e.typ == "PART_OF" && e.source == a && e.target == j
    && IsNode(nodes, a, "Activity") && IsNode(nodes, j, "UserJourney")
  }

  ghost predicate PutsFirst(nodes: seq<GraphNode>, edges: seq<GraphEdge>, i: int, a: Id, j: Id) {
    && 0 <= i < |edges| && PutsInto(nodes, edges[i], a, j)
    && forall k :: 0 <= k < i ==> !PutsInto(nodes, edges[k], a, edges[k].target)
  }

  ghost predicate NeverPut(nodes: seq<GraphNode>, edges: seq<GraphEdge>, a: Id) {
    forall k :: 0 <= k < |edges| ==> !PutsInto(nodes, edges[k], a, edges[k].target)
  }

  lemma {:induction false} NoJourneyIff(ix: Index, nodes: seq<GraphNode>, edges: seq<GraphEdge>, a: Id)
    requires IsIndex(ix, nodes)
    ensures JourneyOf(ix.acts, ix.journeys, edges, a) == None <==> NeverPut(nodes, edges, a)
  {
    if edges != [] {
      var front, e := edges[..|edges| - 1], edges[|edges| - 1];
      NoJourneyIff(ix, nodes, front, a);
      PutsIff(ix, nodes, e, a);
      assert edges == front + [e];
    }
  }

  lemma {:induction false} PutsIff(ix: Index, nodes: seq<GraphNode>, e: GraphEdge, a: Id)
    requires IsIndex(ix, nodes)
    ensures Links(e, PART_OF, ix.acts, ix.journeys) && e.source == a <==> PutsInto(nodes, e, a, e.target)
  {
  }

  /** An activity's journey is the one the first of such edges puts it into. */
  lemma {:induction false} FirstPartOfWins(ix: Index, nodes: seq<GraphNode>, edges: seq<GraphEdge>, a: Id, j: Id)
    requires IsIndex(ix, nodes)
    ensures JourneyOf(ix.acts, ix.journeys, edges, a) == Some(j) <==> exists i :: PutsFirst(nodes, edges, i, a, j)
  {
    if edges != [] {
      var front, e := edges[..|edges| - 1], edges[|edges| - 1];
      FirstPartOfWins(ix, nodes, front, a, j);
      NoJourneyIff(ix, nodes, front, a);
      PutsIff(ix, nodes, e, a);
      FirstOfMore(nodes, front, e, a, j);
      assert edges == front + [e];
    }
  }

  lemma {:induction false} FirstOfMore(nodes: seq<GraphNode>, front: seq<GraphEdge>, e: GraphEdge, a: Id, j: Id)
    ensures (exists i :: PutsFirst(nodes, front + [e], i, a, j)) <==>
              || (exists i :: PutsFirst(nodes, front, i, a, j))
              || (PutsInto(nodes, e, a, j) && NeverPut(nodes, front, a))
  {
    var edges, n := front + [e], |front|;
    assert edges[n] == e && forall k :: 0 <= k < n ==> edges[k] == front[k];
    forall i | PutsFirst(nodes, front, i, a, j)
      ensures PutsFirst(nodes, edges, i, a, j)
    {
    }
    forall i | PutsFirst(nodes, edges, i, a, j) && i < n
      ensures PutsFirst(nodes, front, i, a, j)
    {
    }
    if PutsInto(nodes, e, a, j) && NeverPut(nodes, front, a) {
      assert PutsFirst(nodes, edges, n, a, j);
    }
  }

  /** The systems and roles of a journey are those of the activities that belong to it. */
  lemma {:induction false} OfJourney(ix: Index, edges: seq<GraphEdge>, j: Id)
    ensures forall a :: a in Members(ix, edges, j) <==>
              a in ix.acts && JourneyOf(ix.acts, ix.journeys, edges, a) == Some(j)
    ensures forall s :: s in SystemsOfJourney(ix, edges, j) <==>
              exists a :: a in Members(ix, edges, j) && s in SystemsOf(ix, edges, a)
    ensures forall r :: r in RolesOfJourney(ix, edges, j) <==>
              exists a :: a in Members(ix, edges, j) && r in RolesOf(ix, edges, a)
  {
  }

  /** Systems, roles and process order as the schema's relationships between nodes of the schema's labels. */
  lemma {:induction false} RelationsRead(ix: Index, nodes: seq<GraphNode>, edges: seq<GraphEdge>, a: Id, b: Id)
    requires IsIndex(ix, nodes)
    ensures b in SystemsOf(ix, edges, a) <==>
              && IsNode(nodes, a, "Activity") && IsNode(nodes, b, "System")
              && exists e :: e in edges && e.typ == "USES_SYSTEM" && e.source == a && e.target == b
    ensures b in RolesOf(ix, edges, a) <==>
              && IsNode(nodes, b, "Role") && IsNode(nodes, a, "Activity")
              && exists e :: e in edges && e.typ == "EXECUTES" && e.source == b && e.target == a
    ensures Precedes(ix.acts, edges, a, b) <==>
              && IsNode(nodes, a, "Activity") && IsNode(nodes, b, "Activity")
              && exists e :: e in edges && e.typ == "PRECEDES" && e.source == a && e.target == b
  {
  }

  /** The successor lists of the PRECEDES edges that stay inside `members`. */
  function JourneyGraph(members: set<Id>, acts: set<Id>, edges: seq<GraphEdge>): Graph {
    map a | a in members :: InnerTargets(members, acts, edges, a)
  }

  function InnerTargets(members: set<Id>, acts: set<Id>, edges: seq<GraphEdge>, a: Id): seq<Id> {
    if edges == [] then []
    else
      var e := edges[|edges| - 1];
      InnerTargets(members, acts, edges[..|edges| - 1], a)
      + if Links(e, PRECEDES, acts, acts) && e.source == a && e.target in members then [e.target] else []
  }

  lemma {:induction false} InnerTargetsAre(members: set<Id>, acts: set<Id>, edges: seq<GraphEdge>, a: Id, b: Id)
    ensures b in InnerTargets(members, acts, edges, a) <==> b in members && Precedes(acts, edges, a, b)
  {
    if edges != [] {
      var front, last := edges[..|edges| - 1], edges[|edges| - 1];
      InnerTargetsAre(members, acts, front, a, b);
      assert edges == front + [last];
      if Precedes(acts, edges, a, b) && !Precedes(acts, front, a, b) {
        var e :| e in edges && Links(e, PRECEDES, acts, acts) && e.source == a && e.target == b;
        assert e == last;
      }
    }
  }

  /** `g` has exactly the journey's own edges, in whatever order. */
  ghost predicate IsJourneyGraph(g: Graph, members: set<Id>, acts: set<Id>, edges: seq<GraphEdge>) {
    forall a, b :: Edge(g, a, b) <==> a in members && b in members && Precedes(acts, edges, a, b)
  }

  lemma {:induction false} JourneyGraphIs(members: set<Id>, acts: set<Id>, edges: seq<GraphEdge>)
    ensures IsJourneyGraph(JourneyGraph(members, acts, edges), members, acts, edges)
  {
    forall a, b
      ensures Edge(JourneyGraph(members, acts, edges), a, b) <==>
              a in members && b in members && Precedes(acts, edges, a, b)
    {
      InnerTargetsAre(members, acts, edges, a, b);
    }
  }

  ghost predicate SameEdges(g: Graph, g': Graph) {
    forall a, b :: Edge(g, a, b) <==> Edge(g', a, b)
  }

  /** Longest chains and cycles depend on the edges only, not on how they are listed. */
  lemma {:induction false} SameEdgesSameAnswers(members: set<Id>, g: Graph, g': Graph)
    requires SameEdges(g, g')
    ensures Longest(members, g) == Longest(members, g')
    ensures HasCycle(members, g) <==> HasCycle(members, g')
  {
    SameEdgesSamePaths(members, g, g');
    LongestIs(members, g);
    LongestIs(members, g');
    if HasCycle(members, g) {
      var c :| ClosedWalk(members, g, c);
      assert ClosedWalk(members, g', c);
    }
    if HasCycle(members, g') {
      var c :| ClosedWalk(members, g', c);
      assert ClosedWalk(members, g, c);
    }
  }

  lemma {:induction false} SameEdgesSamePaths(members: set<Id>, g: Graph, g': Graph)
    requires SameEdges(g, g')
    ensures forall p :: SimplePath(members, g, p) <==> SimplePath(members, g', p)
    ensures forall k :: SomePathOfLength(members, g, k) <==> SomePathOfLength(members, g', k)
  {
  }

  // ---------- the loops ----------

  method IndexNodes(nodes: seq<GraphNode>)
    returns (nameById: map<Id, string>, ix: Index, journeyIds: seq<Id>)
    ensures nameById == NameTable(nodes) && IsIndex(ix, nodes)
    ensures Distinct(journeyIds) && Elements(journeyIds) == ix.journeys
  {
    nameById, ix, journeyIds := map[], Index({}, {}, {}, {}), [];
    for i := 0 to |nodes|
      invariant nameById == NameTable(nodes[..i]) && IsIndex(ix, nodes[..i])
      invariant Distinct(journeyIds) && Elements(journeyIds) == ix.journeys
    {
      var n := nodes[i];
      assert nodes[..i + 1][..i] == nodes[..i];
      LabelledSnoc(nodes[..i], n);
      assert nodes[..i + 1] == nodes[..i] + [n];
      nameById := nameById[n.id := n.name];
      if n.kind == ACTIVITY {
        ix := ix.(acts := ix.acts + {n.id});
      } else if n.kind == SYSTEM {
        ix := ix.(systems := ix.systems + {n.id});
      } else if n.kind == ROLE {
        ix := ix.(roles := ix.roles + {n.id});
      } else if n.kind == JOURNEY {
        ix := ix.(journeys := ix.journeys + {n.id});
        if n.id !in journeyIds {
          journeyIds := journeyIds + [n.id];
        }
      }
    }
    assert nodes[..|nodes|] == nodes;
  }

  lemma {:induction false} LabelledSnoc(nodes: seq<GraphNode>, n: GraphNode)
    ensures forall kind :: Labelled(nodes + [n], kind) == Labelled(nodes, kind) + if n.kind == kind then {n.id} else {}
  {
  }

  /** The tables one pass over the edges fills; an activity without an entry has nothing. */
  datatype Tables = Tables(
    journeyByActivity: map<Id, Id>,
    systemsByActivity: map<Id, set<Id>>,
    rolesByActivity: map<Id, set<Id>>)

  function Entry(table: map<Id, set<Id>>, a: Id): set<Id> {
    if a in table then table[a] else {}
  }

  function JourneyEntry(table: map<Id, Id>, a: Id): Option<Id> {
    if a in table then Some(table[a]) else None
  }

  ghost predicate IsTables(t: Tables, ix: Index, edges: seq<GraphEdge>) {
    && (forall a :: JourneyEntry(t.journeyByActivity, a) == JourneyOf(ix.acts, ix.journeys, edges, a))
    && (forall a :: Entry(t.systemsByActivity, a) == SystemsOf(ix, edges, a))
    && (forall a :: Entry(t.rolesByActivity, a) == RolesOf(ix, edges, a))
    && t.journeyByActivity.Keys <= ix.acts
    && t.systemsByActivity.Keys <= ix.acts
  }

  method AddToEntry(table: map<Id, set<Id>>, a: Id, x: Id) returns (table': map<Id, set<Id>>)
    ensures table'.Keys == table.Keys + {a}
    ensures forall b :: Entry(table', b) == Entry(table, b) + if a == b then {x} else {}
  {
    table' := table;
    if a !in table' {
      table' := table'[a := {}];
    }
    table' := table'[a := table'[a] + {x}];
  }

  method ScanEdge(ix: Index, ghost before: seq<GraphEdge>, e: GraphEdge, t: Tables) returns (t': Tables)
    requires IsTables(t, ix, before)
    ensures IsTables(t', ix, before + [e])
  {
    t' := t;
    EdgeSnoc(ix, before, e);
    if e.typ == PART_OF {
      if e.source in ix.acts && e.target in ix.journeys && e.source !in t.journeyByActivity {
        t' := t.(journeyByActivity := t.journeyByActivity[e.source := e.target]);
      }
    } else if e.typ == USES_SYSTEM {
      if e.source in ix.acts && e.target in ix.systems {
        var table := AddToEntry(t.systemsByActivity, e.source, e.target);
        t' := t.(systemsByActivity := table);
      }
    } else if e.typ == EXECUTES {
      if e.source in ix.roles && e.target in ix.acts {
        var table := AddToEntry(t.rolesByActivity, e.target, e.source);
        t' := t.(rolesByActivity := table);
      }
    }
  }

  lemma {:induction false} EdgeSnoc(ix: Index, before: seq<GraphEdge>, e: GraphEdge)
    ensures forall a :: JourneyOf(ix.acts, ix.journeys, before + [e], a) ==
              var earlier := JourneyOf(ix.acts, ix.journeys, before, a);
              if earlier == None && Links(e, PART_OF, ix.acts, ix.journeys) && e.source == a then Some(e.target)
              else earlier
    ensures forall a :: SystemsOf(ix, before + [e], a) == SystemsOf(ix, before, a)
              + if Links(e, USES_SYSTEM, ix.acts, ix.systems) && e.source == a then {e.target} else {}
    ensures forall a :: RolesOf(ix, before + [e], a) == RolesOf(ix, before, a)
              + if Links(e, EXECUTES, ix.roles, ix.acts) && e.target == a then {e.source} else {}
  {
  }

  method ScanEdges(ix: Index, edges: seq<GraphEdge>) returns (t: Tables)
    ensures IsTables(t, ix, edges)
  {
    t := Tables(map[], map[], map[]);
    for i := 0 to |edges|
      invariant IsTables(t, ix, edges[..i])
    {
      assert edges[..i + 1] == edges[..i] + [edges[i]];
      t := ScanEdge(ix, edges[..i], edges[i], t);
    }
    assert edges[..|edges|] == edges;
  }
}
