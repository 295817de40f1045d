/** `computeComplexity` of api/src/analytics/complexity.ts. */
module ComplexityReport {
  import opened Paths
  import opened Ordering
  import opened ComplexityDepth
  import opened GraphIndex

  const COMPLEXITY_DEPTH_CAP := 20

  datatype Weights = Weights(depth: real, system: real, role: real)

  datatype ComplexityJourney = ComplexityJourney(
    journeyId: Id, journeyName: string, activities: nat,
    depth: nat, distinctSystems: nat, distinctRoles: nat, score: real)

  function Score(w: Weights, depth: nat, systems: nat, roles: nat): real {
    depth as real * w.depth * systems as real * w.system * roles as real * w.role
  }

  /** The entry of a journey, stated over sets of activities, systems and roles. */
  ghost function EntryOf(nodes: seq<GraphNode>, edges: seq<GraphEdge>, ix: Index, w: Weights,
                         j: Id): ComplexityJourney {
    var members := Members(ix, edges, j);
    var depth := CappedLongest(members, JourneyGraph(members, ix.acts, edges), COMPLEXITY_DEPTH_CAP);
    var systems, roles := |SystemsOfJourney(ix, edges, j)|, |RolesOfJourney(ix, edges, j)|;
    ComplexityJourney(j, NameIn(NameTable(nodes), j), |members|, depth, systems, roles, Score(w, depth, systems, roles))
  }

  predicate MoreComplex(collate: (string, string) -> bool, x: ComplexityJourney, y: ComplexityJourney) {
    x.score > y.score || (x.score == y.score && collate(x.journeyName, y.journeyName))
  }

  /** One entry for every journey, and nothing else. */
  ghost predicate IsReport(nodes: seq<GraphNode>, edges: seq<GraphEdge>, ix: Index, w: Weights,
                           entries: seq<ComplexityJourney>) {
    && |entries| == |ix.journeys|
    && (forall e :: e in entries ==> e.journeyId in ix.journeys && e == EntryOf(nodes, edges, ix, w, e.journeyId))
    && (forall j :: j in ix.journeys ==> EntryOf(nodes, edges, ix, w, j) in entries)
  }

  // ---------- grouping ----------

  function ListIn(table: map<Id, seq<Id>>, j: Id): seq<Id> {
    if j in table then table[j] else []
  }

  /** Every group lists its activities once. */
  ghost predicate IsGrouping(groups: map<Id, seq<Id>>, journeyByActivity: map<Id, Id>, acts: set<Id>) {
    && (forall j :: Distinct(ListIn(groups, j)))
    && (forall j, a :: a in ListIn(groups, j) <==> a in acts && a in journeyByActivity && journeyByActivity[a] == j)
  }

  lemma {:induction false} GroupingGrows(groups: map<Id, seq<Id>>, journeyByActivity: map<Id, Id>, done: set<Id>, a: Id)
    requires IsGrouping(groups, journeyByActivity, done) && a in journeyByActivity && a !in done
    ensures var j := journeyByActivity[a];
            IsGrouping(groups[j := ListIn(groups, j) + [a]], journeyByActivity, done + {a})
  {
    var j := journeyByActivity[a];
    var groups' := groups[j := ListIn(groups, j) + [a]];
    assert a !in ListIn(groups, j);
    forall k
      ensures Distinct(ListIn(groups', k))
      ensures forall b :: b in ListIn(groups', k) <==> b in ListIn(groups, k) || (k == j && b == a)
    {
      assert ListIn(groups', k) == if k == j then ListIn(groups, j) + [a] else ListIn(groups, k);
      assert Distinct(ListIn(groups, k));
    }
  }

  method GroupByJourney(journeyByActivity: map<Id, Id>) returns (groups: map<Id, seq<Id>>)
    ensures IsGrouping(groups, journeyByActivity, journeyByActivity.Keys)
  {
    groups := map[];
    var todo, done: set<Id> := journeyByActivity.Keys, {};
    while todo != {}
      invariant todo + done == journeyByActivity.Keys && todo !! done
      invariant IsGrouping(groups, journeyByActivity, done)
      decreases todo
    {
      var a :| a in todo;
      todo := todo - {a};
      var j := journeyByActivity[a];
      GroupingGrows(groups, journeyByActivity, done, a);
      groups := groups[j := ListIn(groups, j) + [a]];
      done := done + {a};
    }
  }

  lemma {:induction false} GroupIsMembers(groups: map<Id, seq<Id>>, t: Tables, ix: Index, edges: seq<GraphEdge>, j: Id)
    requires IsTables(t, ix, edges) && IsGrouping(groups, t.journeyByActivity, t.journeyByActivity.Keys)
    ensures Elements(ListIn(groups, j)) == Members(ix, edges, j)
    ensures |ListIn(groups, j)| == |Members(ix, edges, j)|
  {
    forall a
      ensures a in ListIn(groups, j) <==> a in Members(ix, edges, j)
    {
      assert JourneyEntry(t.journeyByActivity, a) == JourneyOf(ix.acts, ix.journeys, edges, a);
    }
    DistinctCardinality(ListIn(groups, j));
  }

  // ---------- process order ----------

  ghost predicate IsPrecedesList(raw: seq<(Id, Id)>, acts: set<Id>, edges: seq<GraphEdge>) {
    forall a, b :: (a, b) in raw <==> Precedes(acts, edges, a, b)
  }

  method CollectPrecedes(acts: set<Id>, edges: seq<GraphEdge>) returns (raw: seq<(Id, Id)>)
    ensures IsPrecedesList(raw, acts, edges)
  {
    raw := [];
    for i := 0 to |edges|
      invariant IsPrecedesList(raw, acts, edges[..i])
    {
      var e := edges[i];
      PrecedesSnoc(acts, edges[..i], e);
      assert edges[..i + 1] == edges[..i] + [e];
      if e.typ == PRECEDES && e.source in acts && e.target in acts {
        raw := raw + [(e.source, e.target)];
      }
    }
    assert edges[..|edges|] == edges;
  }

  lemma {:induction false} PrecedesSnoc(acts: set<Id>, before: seq<GraphEdge>, e: GraphEdge)
    ensures forall a, b :: Precedes(acts, before + [e], a, b) <==>
              Precedes(acts, before, a, b) || (Links(e, PRECEDES, acts, acts) && e.source == a && e.target == b)
  {
  }

  /** The successor lists of the pairs that stay inside the journey. */
  method BuildSuccessors(members: set<Id>, raw: seq<(Id, Id)>) returns (successors: Graph)
    ensures forall a, b :: Edge(successors, a, b) <==> a in members && b in members && (a, b) in raw
  {
    successors := map[];
    for i := 0 to |raw|
      invariant forall a, b :: Edge(successors, a, b) <==> a in members && b in members && (a, b) in raw[..i]
    {
      var (from, to) := raw[i];
      assert raw[..i + 1] == raw[..i] + [(from, to)];
      if from in members && to in members {
        var list := Succs(successors, from);
        ghost var before := successors;
        successors := successors[from := list + [to]];
        assert forall a, b :: Edge(successors, a, b) <==> Edge(before, a, b) || (a == from && b == to);
      }
    }
    assert raw[..|raw|] == raw;
  }

  // ---------- distinct systems and roles ----------

  method UnionOver(activities: seq<Id>, table: map<Id, set<Id>>) returns (all: set<Id>)
    ensures all == set a, x | a in activities && x in Entry(table, a) :: x
  {
    all := {};
    for i := 0 to |activities|
      invariant forall x :: x in all <==> exists a :: a in activities[..i] && x in Entry(table, a)
    {
      var a := activities[i];
      assert activities[..i + 1] == activities[..i] + [a];
      assert a in activities[..i + 1];
      if a in table {
        all := all + table[a];
      }
    }
    assert activities[..|activities|] == activities;
  }

  // ---------- the report ----------

  method ScoreJourney(nameById: map<Id, string>, ix: Index, t: Tables, raw: seq<(Id, Id)>, members: seq<Id>,
                      w: Weights, j: Id, ghost nodes: seq<GraphNode>, ghost edges: seq<GraphEdge>)
    returns (e: ComplexityJourney)
    requires nameById == NameTable(nodes) && IsTables(t, ix, edges) && IsPrecedesList(raw, ix.acts, edges)
    requires Elements(members) == Members(ix, edges, j) && |members| == |Members(ix, edges, j)|
    ensures e == EntryOf(nodes, edges, ix, w, j)
  {
    var memberSet := Elements(members);
    var successors := BuildSuccessors(memberSet, raw);
    assert Closed(memberSet, successors);
    ghost var g := JourneyGraph(memberSet, ix.acts, edges);
    JourneyGraphIs(memberSet, ix.acts, edges);
    SameEdgesSameAnswers(memberSet, successors, g);
    var depth := LongestChainLength(members, successors, COMPLEXITY_DEPTH_CAP);
    var systems := UnionOver(members, t.systemsByActivity);
    assert systems == SystemsOfJourney(ix, edges, j);
    var roles := UnionOver(members, t.rolesByActivity);
    assert roles == RolesOfJourney(ix, edges, j);
    e := ComplexityJourney(j, NameIn(nameById, j), |members|, depth, |systems|, |roles|,
                           Score(w, depth, |systems|, |roles|));
  }

  method ComputeComplexity(nodes: seq<GraphNode>, edges: seq<GraphEdge>, w: Weights, collate: (string, string) -> bool)
    returns (journeys: seq<ComplexityJourney>, ix: Index)
    ensures IsIndex(ix, nodes) && IsReport(nodes, edges, ix, w, journeys)
    ensures forall e :: e in journeys ==> IsWeightedProduct(w, e)
    ensures TotalPreorder(collate) ==> forall i, j :: 0 <= i < j < |journeys| ==>
              && journeys[i].score >= journeys[j].score
              && (journeys[i].score == journeys[j].score ==>
                    collate(journeys[i].journeyName, journeys[j].journeyName))
  {
    var nameById, ix', journeyIds := IndexNodes(nodes);
    ix := ix';
    var t := ScanEdges(ix, edges);
    var raw := CollectPrecedes(ix.acts, edges);
    var groups := GroupByJourney(t.journeyByActivity);
    journeys := [];
    for i := 0 to |journeyIds|
      invariant |journeys| == i
      invariant forall k :: 0 <= k < i ==> journeys[k] == EntryOf(nodes, edges, ix, w, journeyIds[k])
    {
      var j := journeyIds[i];
      GroupIsMembers(groups, t, ix, edges, j);
      var e := ScoreJourney(nameById, ix, t, raw, ListIn(groups, j), w, j, nodes, edges);
      journeys := journeys + [e];
    }
    journeys := SortReport(journeys, collate, nodes, edges, ix, w, journeyIds);
    ScoresOfReport(nodes, edges, ix, w, journeys);
  }

  function ByScore(collate: (string, string) -> bool): (ComplexityJourney, ComplexityJourney) -> bool {
    (x, y) => MoreComplex(collate, x, y)
  }

  lemma {:induction false} ByScoreOrder(collate: (string, string) -> bool)
    requires TotalPreorder(collate)
    ensures TotalPreorder(ByScore(collate))
  {
  }

  /** The highest scores come first, and journeys of one score by name. */
  lemma {:induction false} HighestComeFirst(collate: (string, string) -> bool, journeys: seq<ComplexityJourney>)
    requires Sorted(ByScore(collate), journeys)
    ensures forall i, j :: 0 <= i < j < |journeys| ==>
              && journeys[i].score >= journeys[j].score
              && (journeys[i].score == journeys[j].score ==>
                    collate(journeys[i].journeyName, journeys[j].journeyName))
  {
    forall i, j | 0 <= i < j < |journeys|
      ensures MoreComplex(collate, journeys[i], journeys[j])
    {
      assert ByScore(collate)(journeys[i], journeys[j]);
    }
  }

  // ---------- what a depth means ----------

  /**
   What an entry says of its journey: the number of its activities, of the systems
   they use and of the roles that execute them, and its longest chain, or 20 when
   that is longer.
   */
  lemma {:induction false} EntryCounts(nodes: seq<GraphNode>, edges: seq<GraphEdge>, ix: Index, w: Weights,
                                       entries: seq<ComplexityJourney>, e: ComplexityJourney)
    requires IsReport(nodes, edges, ix, w, entries) && e in entries
    ensures var members := Members(ix, edges, e.journeyId);
            var longest := Longest(members, JourneyGraph(members, ix.acts, edges));
            && e.journeyName == NameIn(NameTable(nodes), e.journeyId)
            && e.activities == |members|
            && e.depth == (if longest <= 20 then longest else 20)
            && e.distinctSystems == |SystemsOfJourney(ix, edges, e.journeyId)|
            && e.distinctRoles == |RolesOfJourney(ix, edges, e.journeyId)|
  {
  }

  // ---------- what a score means ----------

  /** The product of depth, systems and roles, scaled by the product of the weights. */
  ghost predicate IsWeightedProduct(w: Weights, e: ComplexityJourney) {
    e.score == (e.depth * e.distinctSystems * e.distinctRoles) as real * (w.depth * w.system * w.role)
  }

  lemma {:induction false} Interchange(a: real, x: real, b: real, y: real)
    ensures a * x * b * y == (a * b) * (x * y)
  {
    assert a * x * b == a * b * x;
  }

  lemma {:induction false} ScoreIsProduct(w: Weights, depth: nat, systems: nat, roles: nat)
    ensures Score(w, depth, systems, roles)
         == (depth * systems * roles) as real * (w.depth * w.system * w.role)
  {
    var d, s, r := depth as real, systems as real, roles as real;
    Interchange(d, w.depth, s, w.system);
    Interchange(d * s, w.depth * w.system, r, w.role);
    assert (depth * systems) as real == d * s;
    assert (depth * systems * roles) as real == d * s * r;
  }

  lemma {:induction false} EntryScore(nodes: seq<GraphNode>, edges: seq<GraphEdge>, ix: Index, w: Weights, j: Id)
    ensures IsWeightedProduct(w, EntryOf(nodes, edges, ix, w, j))
  {
    ScoredIsProduct(w, EntryOf(nodes, edges, ix, w, j));
  }

  /** A score is the product of the three sub-scores, scaled by the product of the weights. */
  lemma {:induction false} ScoredIsProduct(w: Weights, e: ComplexityJourney)
    requires e.score == Score(w, e.depth, e.distinctSystems, e.distinctRoles)
    ensures IsWeightedProduct(w, e)
  {
    ScoreIsProduct(w, e.depth, e.distinctSystems, e.distinctRoles);
  }

  lemma {:induction false} ScoresOfReport(nodes: seq<GraphNode>, edges: seq<GraphEdge>, ix: Index, w: Weights,
                                          entries: seq<ComplexityJourney>)
    requires IsReport(nodes, edges, ix, w, entries)
    ensures forall e :: e in entries ==> IsWeightedProduct(w, e)
  {
    forall e | e in entries
      ensures IsWeightedProduct(w, e)
    {
      EntryScore(nodes, edges, ix, w, e.journeyId);
    }
  }

  lemma {:induction false} PositiveProduct(x: real, y: real)
    requires x > 0.0 && y > 0.0
    ensures x * y > 0.0
  {
  }

  lemma {:induction false} ZeroCount(x: nat, y: nat)
    ensures x * y == 0 <==> x == 0 || y == 0
  {
  }

  /** With positive weights the score is zero exactly when one of the three sub-scores is. */
  lemma {:induction false} ZeroScores(w: Weights, e: ComplexityJourney)
    requires w.depth > 0.0 && w.system > 0.0 && w.role > 0.0
    requires IsWeightedProduct(w, e)
    ensures e.score == 0.0 <==> e.depth == 0 || e.distinctSystems == 0 || e.distinctRoles == 0
  {
    var n := e.depth * e.distinctSystems * e.distinctRoles;
    PositiveProduct(w.depth, w.system);
    PositiveProduct(w.depth * w.system, w.role);
    ZeroCount(e.depth, e.distinctSystems);
    ZeroCount(e.depth * e.distinctSystems, e.distinctRoles);
    if n > 0 {
      PositiveProduct(n as real, w.depth * w.system * w.role);
    }
  }

  /** With all weights one the score is depth times systems times roles. */
  lemma {:induction false} DefaultScores(w: Weights, e: ComplexityJourney)
    requires w == Weights(1.0, 1.0, 1.0)
    requires IsWeightedProduct(w, e)
    ensures e.score == (e.depth * e.distinctSystems * e.distinctRoles) as real
  {
  }

  method SortReport(unsorted: seq<ComplexityJourney>, collate: (string, string) -> bool, ghost nodes: seq<GraphNode>,
                    ghost edges: seq<GraphEdge>, ghost ix: Index, ghost w: Weights, ghost journeyIds: seq<Id>)
    returns (journeys: seq<ComplexityJourney>)
    requires Distinct(journeyIds) && Elements(journeyIds) == ix.journeys && |unsorted| == |journeyIds|
    requires forall k :: 0 <= k < |unsorted| ==> unsorted[k] == EntryOf(nodes, edges, ix, w, journeyIds[k])
    ensures IsReport(nodes, edges, ix, w, journeys)
    ensures TotalPreorder(collate) ==> forall i, j :: 0 <= i < j < |journeys| ==>
              && journeys[i].score >= journeys[j].score
              && (journeys[i].score == journeys[j].score ==>
                    collate(journeys[i].journeyName, journeys[j].journeyName))
  {
    journeys := SortBy(ByScore(collate), unsorted);
    SortIs(ByScore(collate), unsorted);
    DistinctCardinality(journeyIds);
    forall j | j in ix.journeys
      ensures EntryOf(nodes, edges, ix, w, j) in journeys
    {
      var k :| 0 <= k < |journeyIds| && journeyIds[k] == j;
      assert unsorted[k] in unsorted;
    }
    if TotalPreorder(collate) {
      ByScoreOrder(collate);
      HighestComeFirst(collate, journeys);
    }
  }
}
