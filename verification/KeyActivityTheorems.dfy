/**
 Properties of whole rankings: the order of the input does not matter, and every
 handoff is counted from both ends.
 */
module KeyActivityTheorems {
  import opened Paths
  import opened Ordering
  import opened Counting
  import opened KeyActivitySearch
  import opened KeyActivityPath
  import opened KeyActivityRows
  import opened KeyActivityRanking
  import opened KeyActivityScore

  // ---------- sequences without repeats are determined by their elements ----------

  ghost predicate NoRepeats<T>(s: seq<T>) {
    forall i, j :: 0 <= i < j < |s| ==> s[i] != s[j]
  }

  lemma {:induction false} NoRepeatsOnce<T>(s: seq<T>, x: T)
    requires NoRepeats(s)
    ensures multiset(s)[x] == if x in s then 1 else 0
  {
    if s != [] {
      var front, last := s[..|s| - 1], s[|s| - 1];
      NoRepeatsOnce(front, x);
      assert s == front + [last];
    }
  }

  lemma {:induction false} SameSetSameMultiset<T>(s: seq<T>, t: seq<T>)
    requires NoRepeats(s) && NoRepeats(t)
    requires forall x :: x in s <==> x in t
    ensures multiset(s) == multiset(t)
  {
    forall x
      ensures multiset(s)[x] == multiset(t)[x]
    {
      NoRepeatsOnce(s, x);
      NoRepeatsOnce(t, x);
    }
  }

  // ---------- the facts do not depend on the order of the input ----------

  lemma {:induction false} FirstByIdOfDistinct(acts: seq<ScoreActivity>)
    requires Distinct(Ids(acts))
    ensures FirstById(acts) == acts
  {
    if acts != [] {
      var front, last := acts[..|acts| - 1], acts[|acts| - 1];
      assert acts == front + [last];
      IdsSnoc(front, last);
      var ids := Ids(front) + [last.id];
      assert forall i :: 0 <= i < |front| ==> Ids(front)[i] == ids[i];
      FirstByIdOfDistinct(front);
      assert forall i :: 0 <= i < |front| ==> ids[i] != ids[|front|];
    }
  }

  lemma {:induction false} IdsOfPermuted(acts: seq<ScoreActivity>, acts': seq<ScoreActivity>)
    requires Distinct(Ids(acts)) && multiset(acts) == multiset(acts')
    ensures Distinct(Ids(acts')) && multiset(Ids(acts)) == multiset(Ids(acts'))
  {
    SameElements(acts, acts');
    IdSet(acts);
    IdSet(acts');
    assert Elements(Ids(acts)) == Elements(Ids(acts'));
    DistinctCardinality(Ids(acts));
    DistinctByCount(Ids(acts'));
    assert forall x :: x in Ids(acts) <==> x in Elements(Ids(acts));
    assert forall x :: x in Ids(acts') <==> x in Elements(Ids(acts'));
    SameSetSameMultiset(Ids(acts), Ids(acts'));
  }

  lemma {:induction false} IdSet(acts: seq<ScoreActivity>)
    ensures Elements(Ids(acts)) == set a | a in acts :: a.id
  {
    assert forall i :: 0 <= i < |acts| ==> Ids(acts)[i] == acts[i].id;
    assert forall a :: a in acts ==> exists i :: 0 <= i < |acts| && Ids(acts)[i] == a.id;
  }

  lemma {:induction false} ByIdOfPermuted(acts: seq<ScoreActivity>, acts': seq<ScoreActivity>)
    requires Distinct(Ids(acts)) && multiset(acts) == multiset(acts')
    ensures ById(acts) == ById(acts')
  {
    IdsOfPermuted(acts, acts');
    SameElements(acts, acts');
    SameElements(Ids(acts), Ids(acts'));
    ByIdIs(acts);
    ByIdIs(acts');
    forall n | n in ById(acts)
      ensures n in ById(acts') && ById(acts)[n] == ById(acts')[n]
    {
      assert n in Ids(acts);
      var i :| 0 <= i < |acts| && Ids(acts)[i] == n;
      assert acts[i] in acts';
      var j :| 0 <= j < |acts'| && acts'[j] == acts[i];
    }
    assert ById(acts).Keys == ById(acts').Keys;
  }

  lemma {:induction false} TargetsDistinct(edges: seq<ScoreEdge>, n: Id)
    requires NoRepeats(edges)
    ensures NoRepeats(Targets(edges, n))
  {
    if edges != [] {
      var front, last := edges[..|edges| - 1], edges[|edges| - 1];
      TargetsDistinct(front, n);
      if last.fromId == n {
        TargetsAre(front, n, last.toId);
        assert last == ScoreEdge(n, last.toId);
      }
    }
  }

  /** The sorted successor lists depend only on which edges there are. */
  lemma {:induction false} OutGraphOfSet(ids: set<Id>, edges: seq<ScoreEdge>, edges': seq<ScoreEdge>)
    requires NoRepeats(edges) && NoRepeats(edges') && EdgeSet(edges) == EdgeSet(edges')
    ensures OutGraph(ids, edges) == OutGraph(ids, edges')
  {
    forall n
      ensures SortStrings(Targets(edges, n)) == SortStrings(Targets(edges', n))
    {
      TargetsDistinct(edges, n);
      TargetsDistinct(edges', n);
      forall m
        ensures m in Targets(edges, n) <==> m in Targets(edges', n)
      {
        TargetsAre(edges, n, m);
        TargetsAre(edges', n, m);
        assert ScoreEdge(n, m) in edges <==> ScoreEdge(n, m) in EdgeSet(edges);
        assert ScoreEdge(n, m) in edges' <==> ScoreEdge(n, m) in EdgeSet(edges');
      }
      SameSetSameMultiset(Targets(edges, n), Targets(edges', n));
      SortStringsCanonical(Targets(edges, n), Targets(edges', n));
    }
  }

  lemma {:induction false} KeptEdgesDistinct(ids: set<Id>, edges: seq<ScoreEdge>)
    ensures NoRepeats(KeptEdges(ids, edges))
  {
    var kept := KeptEdges(ids, edges);
    KeptKeysDiffer(ids, edges);
    forall i, j | 0 <= i < j < |kept|
      ensures kept[i] != kept[j]
    {
      assert Keys(kept)[i] != Keys(kept)[j];
    }
  }

  /** Two inputs with the same activities and the same edges, in any order and with any repeats of edges. */
  ghost predicate SameInput(sg: ScoreSubgraph, sg': ScoreSubgraph) {
    && multiset(sg.activities) == multiset(sg'.activities)
    && EdgeSet(sg.precedes) == EdgeSet(sg'.precedes)
    && sg.weights == sg'.weights
  }

  lemma {:induction false} ScopeOfSameInput(sg: ScoreSubgraph, sg': ScoreSubgraph)
    requires SameInput(sg, sg') && Distinct(Ids(sg.activities))
    requires !KeyClash(Elements(Ids(sg.activities)), sg.precedes)
    ensures FirstById(sg.activities) == sg.activities && FirstById(sg'.activities) == sg'.activities
    ensures multiset(ScopedIds(sg)) == multiset(ScopedIds(sg')) && Elements(ScopedIds(sg)) == Elements(ScopedIds(sg'))
    ensures ById(FirstById(sg.activities)) == ById(FirstById(sg'.activities))
    ensures var ids := Elements(ScopedIds(sg));
            EdgeSet(KeptEdges(ids, sg.precedes)) == EdgeSet(KeptEdges(ids, sg'.precedes))
    ensures ScopedGraph(sg) == ScopedGraph(sg')
  {
    FirstByIdOfDistinct(sg.activities);
    IdsOfPermuted(sg.activities, sg'.activities);
    FirstByIdOfDistinct(sg'.activities);
    ByIdOfPermuted(sg.activities, sg'.activities);
    SameElements(ScopedIds(sg), ScopedIds(sg'));
    var ids := Elements(ScopedIds(sg));
    assert ids == Elements(ScopedIds(sg'));
    SameClashes(ids, sg.precedes, sg'.precedes);
    KeptEdgesComplete(ids, sg.precedes);
    KeptEdgesComplete(ids, sg'.precedes);
    KeptEdgesDistinct(ids, sg.precedes);
    KeptEdgesDistinct(ids, sg'.precedes);
    OutGraphOfSet(ids, KeptEdges(ids, sg.precedes), KeptEdges(ids, sg'.precedes));
  }

  lemma {:induction false} SameClashes(ids: set<Id>, edges: seq<ScoreEdge>, edges': seq<ScoreEdge>)
    requires EdgeSet(edges) == EdgeSet(edges')
    ensures KeyClash(ids, edges) <==> KeyClash(ids, edges')
    ensures ScopedSet(ids, edges) == ScopedSet(ids, edges')
  {
    assert forall e :: e in edges <==> e in EdgeSet(edges);
    assert forall e :: e in edges' <==> e in EdgeSet(edges');
  }

  lemma {:induction false} SameFacts(sg: ScoreSubgraph, sg': ScoreSubgraph, bc: Betweenness, f: Facts, f': Facts)
    requires SameInput(sg, sg') && Distinct(Ids(sg.activities))
    requires !KeyClash(Elements(Ids(sg.activities)), sg.precedes)
    requires IsFactsOf(sg, bc, f) && IsFactsOf(sg', bc, f') && ExactDepths(sg, f) && ExactDepths(sg', f')
    ensures f == f'
  {
    ScopeOfSameInput(sg, sg');
    SortStringsCanonical(ScopedIds(sg), ScopedIds(sg'));
    var ids, g := ScopedIds(sg), ScopedGraph(sg);
    ExactTablesAgree(Elements(ids), g, FinalRoots(ids, g), f.depth, f'.depth);
    LengthUnique(f.depth, f.length, f'.length);
    var edges := EdgeSet(KeptEdges(Elements(ids), sg.precedes));
    BetweennessUnique(bc, f.byId.Keys, edges, f, f');
    HandoffsUnique(f.byId, edges, f, f');
  }

  lemma {:induction false} LengthUnique(depth: Through, m: nat, n: nat)
    requires IsLength(depth, m) && IsLength(depth, n)
    ensures m == n
  {
  }

  lemma {:induction false} BetweennessUnique(bc: Betweenness, ids: set<Id>, edges: set<ScoreEdge>, f: Facts, f': Facts)
    requires IsBetweennessTable(f.betweenness, bc, ids, edges) && IsMaxBetweenness(f.betweenness, f.maxBetweenness)
    requires IsBetweennessTable(f'.betweenness, bc, ids, edges) && IsMaxBetweenness(f'.betweenness, f'.maxBetweenness)
    ensures f.betweenness == f'.betweenness && f.maxBetweenness == f'.maxBetweenness
  {
  }

  lemma {:induction false} HandoffsUnique(byId: map<Id, ScoreActivity>, edges: set<ScoreEdge>, f: Facts, f': Facts)
    requires IsHandoffTable(f.handoffs, byId, edges) && IsMaxHandoff(f.handoffs, f.maxHandoff)
    requires IsHandoffTable(f'.handoffs, byId, edges) && IsMaxHandoff(f'.handoffs, f'.maxHandoff)
    ensures f.handoffs == f'.handoffs && f.maxHandoff == f'.maxHandoff
  {
    HandoffTableUnique(byId, edges, f.handoffs, f'.handoffs);
    MaxHandoffUnique(f.handoffs, f.maxHandoff, f'.maxHandoff);
  }

  lemma {:induction false} SameEntries(h: map<Id, Handoffs>, h': map<Id, Handoffs>)
    requires h.Keys == h'.Keys && forall n :: n in h ==> h[n] == h'[n]
    ensures h == h'
  {
  }

  lemma {:induction false} HandoffTableUnique(byId: map<Id, ScoreActivity>, edges: set<ScoreEdge>,
                                              h: map<Id, Handoffs>, h': map<Id, Handoffs>)
    requires IsHandoffTable(h, byId, edges) && IsHandoffTable(h', byId, edges)
    ensures h == h'
  {
    SameEntries(h, h');
  }

  lemma {:induction false} MaxHandoffUnique(h: map<Id, Handoffs>, m: nat, m': nat)
    requires IsMaxHandoff(h, m) && IsMaxHandoff(h, m')
    ensures m == m'
  {
  }

  // ---------- the ranking is determined by the facts ----------

  /** A row without its rank and without the flag that names the longest path that was kept. */
  function Plain(r: Row): Row {
    r.(rank := 0, onCriticalPath := false)
  }

  function AllPlain(rows: seq<Row>): (ps: seq<Row>)
    ensures |ps| == |rows| && forall i :: 0 <= i < |rows| ==> ps[i] == Plain(rows[i])
  {
    if rows == [] then [] else AllPlain(rows[..|rows| - 1]) + [Plain(rows[|rows| - 1])]
  }

  function RowIds(rows: seq<Row>): (ids: seq<Id>)
    ensures |ids| == |rows| && forall i :: 0 <= i < |rows| ==> ids[i] == rows[i].activity.id
  {
    if rows == [] then [] else RowIds(rows[..|rows| - 1]) + [rows[|rows| - 1].activity.id]
  }

  /** Every activity has exactly one row. */
  lemma {:induction false} OneRowEach(f: Facts, rows: seq<Row>)
    requires RowsOf(f, rows)
    ensures Distinct(RowIds(rows)) && Elements(RowIds(rows)) == f.byId.Keys
  {
    var ids := RowIds(rows);
    forall n | n in ids
      ensures n in f.byId
    {
      var i :| 0 <= i < |ids| && ids[i] == n;
      assert rows[i] in rows;
    }
    forall n | n in f.byId
      ensures n in ids
    {
      var r :| r in rows && r.activity.id == n;
      var i :| 0 <= i < |rows| && rows[i] == r;
      assert ids[i] == n;
    }
    assert Elements(ids) == f.byId.Keys;
    DistinctByCount(ids);
  }

  ghost predicate IsPlainRow(f: Facts, r: Row) {
    IsRow(f, r) && r.rank == 0 && !r.onCriticalPath
  }

  lemma {:induction false} PlainOrder(f: Facts, rows: seq<Row>)
    requires RowsOf(f, rows) && IsRanked(rows) && forall n :: n in f.byId ==> f.byId[n].id == n
    ensures Sorted(RowLe, AllPlain(rows)) && NoRepeats(AllPlain(rows))
  {
    var ps := AllPlain(rows);
    OneRowEach(f, rows);
    forall i, j | 0 <= i < j < |ps|
      ensures RowLe(ps[i], ps[j]) && ps[i] != ps[j]
    {
      assert RowLe(rows[i], rows[j]);
      assert RowIds(rows)[i] != RowIds(rows)[j];
    }
  }

  lemma {:induction false} PlainRows(f: Facts, rows: seq<Row>)
    requires RowsOf(f, rows) && IsRanked(rows) && forall n :: n in f.byId ==> f.byId[n].id == n
    ensures Sorted(RowLe, AllPlain(rows)) && NoRepeats(AllPlain(rows))
    ensures forall p :: p in AllPlain(rows) <==> IsPlainRow(f, p)
  {
    var ps := AllPlain(rows);
    PlainOrder(f, rows);
    forall p | p in ps
      ensures IsPlainRow(f, p)
    {
      var i :| 0 <= i < |ps| && ps[i] == p;
      assert IsRow(f, rows[i]);
    }
    forall p: Row | IsPlainRow(f, p)
      ensures p in ps
    {
      assert HasRow(rows, p.activity.id);
      var i :| 0 <= i < |rows| && rows[i].activity.id == p.activity.id;
      assert IsRow(f, rows[i]);
      assert ps[i] == p;
    }
  }

  lemma {:induction false} IdsOfById(acts: seq<ScoreActivity>)
    requires Distinct(Ids(acts))
    ensures forall n :: n in ById(acts) ==> ById(acts)[n].id == n
  {
    ByIdIs(acts);
    forall n | n in ById(acts)
      ensures ById(acts)[n].id == n
    {
      var i :| 0 <= i < |acts| && Ids(acts)[i] == n;
    }
  }

  lemma {:induction false} SameFactsSameRows(f: Facts, rows: seq<Row>, rows': seq<Row>)
    requires forall n :: n in f.byId ==> f.byId[n].id == n
    requires RowsOf(f, rows) && IsRanked(rows) && RowsOf(f, rows') && IsRanked(rows')
    ensures |rows| == |rows'|
    ensures forall i :: 0 <= i < |rows| ==> rows[i].(onCriticalPath := false) == rows'[i].(onCriticalPath := false)
  {
    PlainRows(f, rows);
    PlainRows(f, rows');
    var ps, ps' := AllPlain(rows), AllPlain(rows');
    SameSetSameMultiset(ps, ps');
    forall x, y | x in ps && y in ps && RowLe(x, y) && RowLe(y, x)
      ensures x == y
    {
      RowLeTie(x, y);
    }
    SortedUnique(RowLe, ps, ps');
    forall i | 0 <= i < |rows|
      ensures rows[i].(onCriticalPath := false) == rows'[i].(onCriticalPath := false)
    {
      assert ps[i] == Plain(rows[i]) && ps'[i] == Plain(rows'[i]);
    }
  }

  /**
   Scores and ranks do not change when activities or edges are permuted or edges
   repeated. The flag `onCriticalPath` is left open: of several longest paths the
   first one found is kept.
   */
  lemma {:induction false} RankingIgnoresOrder(sg: ScoreSubgraph, sg': ScoreSubgraph, bc: Betweenness,
                                               f: Facts, f': Facts, rows: seq<Row>, rows': seq<Row>)
    requires SameInput(sg, sg') && Distinct(Ids(sg.activities))
    requires !KeyClash(Elements(Ids(sg.activities)), sg.precedes)
    requires IsFactsOf(sg, bc, f) && RowsOf(f, rows) && IsRanked(rows) && ExactDepths(sg, f)
    requires IsFactsOf(sg', bc, f') && RowsOf(f', rows') && IsRanked(rows') && ExactDepths(sg', f')
    ensures |rows| == |rows'|
    ensures forall i :: 0 <= i < |rows| ==> rows[i].(onCriticalPath := false) == rows'[i].(onCriticalPath := false)
  {
    SameFacts(sg, sg', bc, f, f');
    FirstByIdOfDistinct(sg.activities);
    IdsOfById(sg.activities);
    SameFactsSameRows(f, rows, rows');
  }

  /** All simple paths of this length go through the same nodes. */
  ghost predicate OneNodeSet(ids: set<Id>, g: Graph, length: nat) {
    forall p, q :: SimplePath(ids, g, p) && SimplePath(ids, g, q) && |p| == |q| == length ==> Elements(p) == Elements(q)
  }

  /** Where the longest paths do not compete, the rows do not depend on the order at all. */
  lemma {:induction false} RowsIgnoreOrder(sg: ScoreSubgraph, sg': ScoreSubgraph, bc: Betweenness, f: Facts, f': Facts,
                                           rows: seq<Row>, rows': seq<Row>,
                                           cp: CriticalPathResult, cp': CriticalPathResult)
    requires SameInput(sg, sg') && Distinct(Ids(sg.activities))
    requires !KeyClash(Elements(Ids(sg.activities)), sg.precedes)
    requires IsFactsOf(sg, bc, f) && RowsOf(f, rows) && IsRanked(rows) && Shows(sg, f, rows, cp) && !cp.Truncated()
    requires IsFactsOf(sg', bc, f') && RowsOf(f', rows') && IsRanked(rows')
    requires Shows(sg', f', rows', cp') && !cp'.Truncated()
    requires OneNodeSet(Elements(ScopedIds(sg)), ScopedGraph(sg), f.length)
    ensures rows == rows'
  {
    DepthsAreExact(sg, f, rows, cp);
    DepthsAreExact(sg', f', rows', cp');
    RankingIgnoresOrder(sg, sg', bc, f, f', rows, rows');
    SameFacts(sg, sg', bc, f, f');
    ScopeOfSameInput(sg, sg');
    SameFlags(Elements(ScopedIds(sg)), ScopedGraph(sg), f.length, cp.onCriticalPath, cp'.onCriticalPath);
    SameButFlags(rows, rows', cp.onCriticalPath);
  }

  lemma {:induction false} SameFlags(ids: set<Id>, g: Graph, length: nat, flagged: set<Id>, flagged': set<Id>)
    requires OneNodeSet(ids, g, length) && FlagsAChain(ids, g, length, flagged) && FlagsAChain(ids, g, length, flagged')
    ensures flagged == flagged'
  {
  }

  lemma {:induction false} SameButFlags(rows: seq<Row>, rows': seq<Row>, flagged: set<Id>)
    requires Flagging(rows, flagged) && Flagging(rows', flagged) && |rows| == |rows'|
    requires forall i :: 0 <= i < |rows| ==> rows[i].(onCriticalPath := false) == rows'[i].(onCriticalPath := false)
    ensures rows == rows'
  {
  }

  // ---------- handoffs are counted from both ends ----------

  ghost function RoleRelation(byId: map<Id, ScoreActivity>, edges: set<ScoreEdge>): set<(Id, Id)> {
    set n, m | n in byId && m in RolePartners(byId, edges, n) :: (n, m)
  }

  ghost function SystemRelation(byId: map<Id, ScoreActivity>, edges: set<ScoreEdge>): set<(Id, Id)> {
    set n, m | n in byId && m in SystemPartners(byId, edges, n) :: (n, m)
  }

  function RoleTotal(handoffs: map<Id, Handoffs>, over: seq<Id>): nat
    requires forall n :: n in over ==> n in handoffs
  {
    if over == [] then 0
    else RoleTotal(handoffs, over[..|over| - 1]) + handoffs[over[|over| - 1]].roleHandoffs
  }

  function SystemTotal(handoffs: map<Id, Handoffs>, over: seq<Id>): nat
    requires forall n :: n in over ==> n in handoffs
  {
    if over == [] then 0
    else SystemTotal(handoffs, over[..|over| - 1]) + handoffs[over[|over| - 1]].systemHandoffs
  }

  lemma {:induction false} RelationsAreAdjacencies(byId: map<Id, ScoreActivity>, edges: set<ScoreEdge>)
    requires forall e :: e in edges ==> e.fromId != e.toId
    ensures Adjacency(RoleRelation(byId, edges)) && Adjacency(SystemRelation(byId, edges))
  {
  }

  lemma {:induction false} RoleTotalIsDegreeSum(byId: map<Id, ScoreActivity>, edges: set<ScoreEdge>,
                                                handoffs: map<Id, Handoffs>, over: seq<Id>)
    requires IsHandoffTable(handoffs, byId, edges) && forall n :: n in over ==> n in byId
    ensures RoleTotal(handoffs, over) == DegreeSum(RoleRelation(byId, edges), byId.Keys, over)
  {
    if over != [] {
      var n := over[|over| - 1];
      RoleTotalIsDegreeSum(byId, edges, handoffs, over[..|over| - 1]);
      assert NeighboursIn(RoleRelation(byId, edges), byId.Keys, n) == RolePartners(byId, edges, n);
    }
  }

  lemma {:induction false} SystemTotalIsDegreeSum(byId: map<Id, ScoreActivity>, edges: set<ScoreEdge>,
                                                  handoffs: map<Id, Handoffs>, over: seq<Id>)
    requires IsHandoffTable(handoffs, byId, edges) && forall n :: n in over ==> n in byId
    ensures SystemTotal(handoffs, over) == DegreeSum(SystemRelation(byId, edges), byId.Keys, over)
  {
    if over != [] {
      var n := over[|over| - 1];
      SystemTotalIsDegreeSum(byId, edges, handoffs, over[..|over| - 1]);
      assert NeighboursIn(SystemRelation(byId, edges), byId.Keys, n) == SystemPartners(byId, edges, n);
    }
  }

  /** Summed over all rows, handoffs are twice the unordered pairs that hand over, in each dimension. */
  lemma {:induction false} HandoffsCountedTwice(sg: ScoreSubgraph, bc: Betweenness, f: Facts, rows: seq<Row>)
    requires IsFactsOf(sg, bc, f) && RowsOf(f, rows)
    ensures var edges := EdgeSet(KeptEdges(Elements(ScopedIds(sg)), sg.precedes));
            && (forall n :: n in RowIds(rows) ==> n in f.handoffs)
            && RoleTotal(f.handoffs, RowIds(rows)) == 2 * |Pairs(RoleRelation(f.byId, edges), f.byId.Keys)|
            && SystemTotal(f.handoffs, RowIds(rows)) == 2 * |Pairs(SystemRelation(f.byId, edges), f.byId.Keys)|
  {
    var scope := Elements(ScopedIds(sg));
    var edges, ids := EdgeSet(KeptEdges(scope, sg.precedes)), RowIds(rows);
    KeptEdgesInScope(scope, sg.precedes);
    OneRowEach(f, rows);
    assert forall n :: n in ids ==> n in Elements(ids);
    RelationsAreAdjacencies(f.byId, edges);
    RoleTotalIsDegreeSum(f.byId, edges, f.handoffs, ids);
    SystemTotalIsDegreeSum(f.byId, edges, f.handoffs, ids);
    Handshake(RoleRelation(f.byId, edges), ids);
    Handshake(SystemRelation(f.byId, edges), ids);
  }

  // ---------- degrees ----------

  function InDegrees(rows: seq<Row>): seq<nat> {
    seq(|rows|, i requires 0 <= i < |rows| => rows[i].inDegree)
  }

  function OutDegrees(rows: seq<Row>): seq<nat> {
    seq(|rows|, i requires 0 <= i < |rows| => rows[i].outDegree)
  }

  /** The edges that end, and those that start, at one of these nodes. */
  ghost function AllInto(edges: set<ScoreEdge>, ns: set<Id>): set<ScoreEdge> {
    set e | e in edges && e.toId in ns
  }

  ghost function AllFrom(edges: set<ScoreEdge>, ns: set<Id>): set<ScoreEdge> {
    set e | e in edges && e.fromId in ns
  }

  lemma {:induction false} InDegreesAddUp(edges: set<ScoreEdge>, ids: seq<Id>, degrees: seq<nat>)
    requires Distinct(ids) && |degrees| == |ids|
    requires forall i :: 0 <= i < |ids| ==> degrees[i] == InDegree(edges, ids[i])
    ensures Sum(degrees) == |AllInto(edges, Elements(ids))|
  {
    if ids == [] {
      assert AllInto(edges, Elements(ids)) == {};
    } else {
      var front, n := ids[..|ids| - 1], ids[|ids| - 1];
      InDegreesAddUp(edges, front, degrees[..|ids| - 1]);
      var before, into := AllInto(edges, Elements(front)), EdgesInto(edges, n);
      assert Elements(ids) == Elements(front) + {n};
      assert AllInto(edges, Elements(ids)) == before + into;
      assert before !! into;
    }
  }

  lemma {:induction false} OutDegreesAddUp(edges: set<ScoreEdge>, ids: seq<Id>, degrees: seq<nat>)
    requires Distinct(ids) && |degrees| == |ids|
    requires forall i :: 0 <= i < |ids| ==> degrees[i] == OutDegree(edges, ids[i])
    ensures Sum(degrees) == |AllFrom(edges, Elements(ids))|
  {
    if ids == [] {
      assert AllFrom(edges, Elements(ids)) == {};
    } else {
      var front, n := ids[..|ids| - 1], ids[|ids| - 1];
      OutDegreesAddUp(edges, front, degrees[..|ids| - 1]);
      var before, out := AllFrom(edges, Elements(front)), EdgesFrom(edges, n);
      assert Elements(ids) == Elements(front) + {n};
      assert AllFrom(edges, Elements(ids)) == before + out;
      assert before !! out;
    }
  }

  /** Every kept edge joins two of the activities. */
  lemma {:induction false} EdgesJoinActivities(sg: ScoreSubgraph, bc: Betweenness, f: Facts)
    requires IsFactsOf(sg, bc, f)
    ensures AllInto(f.edges, f.byId.Keys) == f.edges && AllFrom(f.edges, f.byId.Keys) == f.edges
  {
    var acts := FirstById(sg.activities);
    FirstByIdIs(sg.activities);
    ByIdIs(acts);
    KeptEdgesInScope(Elements(Ids(acts)), sg.precedes);
  }

  lemma {:induction false} RowDegrees(f: Facts, rows: seq<Row>, i: nat)
    requires RowsOf(f, rows) && i < |rows|
    ensures InDegrees(rows)[i] == InDegree(f.edges, RowIds(rows)[i])
    ensures OutDegrees(rows)[i] == OutDegree(f.edges, RowIds(rows)[i])
  {
    assert IsRow(f, rows[i]);
  }

  lemma {:induction false} StartsCount(into: set<ScoreEdge>, n: Id)
    requires forall e :: e in into ==> e.toId == n
    ensures |into| == |set e | e in into :: e.fromId|
  {
    if into != {} {
      var e :| e in into;
      StartsCount(into - {e}, n);
      var starts, starts' := set d | d in into :: d.fromId, set d | d in into - {e} :: d.fromId;
      forall d | d in into && d.fromId == e.fromId ensures d == e { }
      assert starts == starts' + {e.fromId} && e.fromId !in starts';
    }
  }

  lemma {:induction false} TargetsCount(out: set<ScoreEdge>, n: Id)
    requires forall e :: e in out ==> e.fromId == n
    ensures |out| == |set e | e in out :: e.toId|
  {
    if out != {} {
      var e :| e in out;
      TargetsCount(out - {e}, n);
      var ends, ends' := set d | d in out :: d.toId, set d | d in out - {e} :: d.toId;
      forall d | d in out && d.toId == e.toId ensures d == e { }
      assert ends == ends' + {e.toId} && e.toId !in ends';
    }
  }

  ghost function Followed(edges: set<ScoreEdge>, ids: set<Id>, n: Id): set<Id> {
    set m | m in ids && ScoreEdge(m, n) in edges
  }

  ghost function Preceded(edges: set<ScoreEdge>, ids: set<Id>, n: Id): set<Id> {
    set m | m in ids && ScoreEdge(n, m) in edges
  }

  lemma {:induction false} InDegreeIs(edges: set<ScoreEdge>, ids: set<Id>, n: Id)
    requires forall e :: e in edges ==> e.fromId in ids
    ensures InDegree(edges, n) == |Followed(edges, ids, n)|
  {
    var into := EdgesInto(edges, n);
    StartsCount(into, n);
    var starts := set e | e in into :: e.fromId;
    forall m
      ensures m in starts <==> m in Followed(edges, ids, n)
    {
      if m in Followed(edges, ids, n) {
        assert ScoreEdge(m, n) in into;
      }
    }
    assert starts == Followed(edges, ids, n);
  }

  lemma {:induction false} OutDegreeIs(edges: set<ScoreEdge>, ids: set<Id>, n: Id)
    requires forall e :: e in edges ==> e.toId in ids
    ensures OutDegree(edges, n) == |Preceded(edges, ids, n)|
  {
    var out := EdgesFrom(edges, n);
    TargetsCount(out, n);
    var ends := set e | e in out :: e.toId;
    forall m
      ensures m in ends <==> m in Preceded(edges, ids, n)
    {
      if m in Preceded(edges, ids, n) {
        assert ScoreEdge(n, m) in out;
      }
    }
    assert ends == Preceded(edges, ids, n);
  }

  /**
   The evidence of a row: the first activity with its id, the library's
   betweenness, and how many activities it follows and precedes.
   */
  lemma {:induction false} EvidenceIs(sg: ScoreSubgraph, bc: Betweenness, f: Facts, rows: seq<Row>, r: Row)
    requires IsFactsOf(sg, bc, f) && RowsOf(f, rows) && r in rows
    ensures IsFirstOccurrence(sg.activities, r.activity) && r.activity.id in f.byId
    ensures r.betweenness == bc(f.byId.Keys, f.edges, r.activity.id)
    ensures r.inDegree == |Followed(f.edges, f.byId.Keys, r.activity.id)|
    ensures r.outDegree == |Preceded(f.edges, f.byId.Keys, r.activity.id)|
  {
    RowParts(f, r);
    assert IsRow(f, r);
    ActivityOfRow(sg, f.byId, r.activity.id);
    EdgesInScope(sg, bc, f);
    InDegreeIs(f.edges, f.byId.Keys, r.activity.id);
    OutDegreeIs(f.edges, f.byId.Keys, r.activity.id);
  }

  lemma {:induction false} ActivityOfRow(sg: ScoreSubgraph, byId: map<Id, ScoreActivity>, n: Id)
    requires byId == ById(FirstById(sg.activities)) && n in byId
    ensures IsFirstOccurrence(sg.activities, byId[n])
  {
    var acts := FirstById(sg.activities);
    FirstByIdIs(sg.activities);
    ByIdIs(acts);
    var i :| 0 <= i < |Ids(acts)| && Ids(acts)[i] == n;
    assert byId[n] == acts[i] && acts[i] in acts;
  }

  lemma {:induction false} EdgesInScope(sg: ScoreSubgraph, bc: Betweenness, f: Facts)
    requires IsFactsOf(sg, bc, f)
    ensures forall e :: e in f.edges ==> e.fromId in f.byId && e.toId in f.byId
  {
    var acts := FirstById(sg.activities);
    FirstByIdIs(sg.activities);
    ByIdIs(acts);
    KeptEdgesInScope(Elements(Ids(acts)), sg.precedes);
  }

  /** Over all rows the in-degrees, and the out-degrees, add up to the number of edges. */
  lemma {:induction false} DegreesCountEdges(sg: ScoreSubgraph, bc: Betweenness, f: Facts, rows: seq<Row>)
    requires IsFactsOf(sg, bc, f) && RowsOf(f, rows)
    ensures Sum(InDegrees(rows)) == Sum(OutDegrees(rows)) == |f.edges|
  {
    OneRowEach(f, rows);
    forall i | 0 <= i < |rows|
      ensures InDegrees(rows)[i] == InDegree(f.edges, RowIds(rows)[i])
      ensures OutDegrees(rows)[i] == OutDegree(f.edges, RowIds(rows)[i])
    {
      RowDegrees(f, rows, i);
    }
    InDegreesAddUp(f.edges, RowIds(rows), InDegrees(rows));
    OutDegreesAddUp(f.edges, RowIds(rows), OutDegrees(rows));
    EdgesJoinActivities(sg, bc, f);
  }

  // ---------- what the scores of a row mean ----------

  lemma {:induction false} RowParts(f: Facts, r: Row)
    requires IsRow(f, r)
    ensures HasRatios(r, f.maxBetweenness, f.maxHandoff)
    ensures r.betweenness == f.betweenness[r.activity.id] && r.handoffs == f.handoffs[r.activity.id]
  {
  }

  lemma {:induction false} Distributed(w: real, x: real, y: real)
    ensures w * x - w * y == w * (x - y) && (x == 0.0 ==> w * x == 0.0)
  {
  }

  lemma {:induction false} CompositeIsLinear(w: Weights, c: real, p: real, h: real, c': real, p': real, h': real)
    ensures c == p == h == 0.0 ==> Composite(w, c, p, h) == 0.0
    ensures Composite(w, c, p, h) - Composite(w, c', p', h')
         == w.centrality * (c - c') + w.criticalPath * (p - p') + w.handoff * (h - h')
  {
    Distributed(w.centrality, c, c');
    Distributed(w.criticalPath, p, p');
    Distributed(w.handoff, h, h');
  }

  /** Two composites differ by the weighted differences of the three sub-scores. */
  ghost predicate IsWeightedDifference(w: Weights, x: Row, y: Row) {
    x.composite - y.composite ==
      w.centrality * (x.centrality - y.centrality)
      + w.criticalPath * (x.criticalPath - y.criticalPath)
      + w.handoff * (x.handoff - y.handoff)
  }

  ghost predicate HasComposite(w: Weights, r: Row) {
    r.composite == Composite(w, r.centrality, r.criticalPath, r.handoff)
  }

  lemma {:induction false} CompositesDiffer(w: Weights, x: Row, y: Row)
    requires HasComposite(w, x) && HasComposite(w, y)
    ensures x.centrality == x.criticalPath == x.handoff == 0.0 ==> x.composite == 0.0
    ensures IsWeightedDifference(w, x, y)
  {
    CompositeIsLinear(w, x.centrality, x.criticalPath, x.handoff, y.centrality, y.criticalPath, y.handoff);
  }

  lemma {:induction false} RowHasComposite(f: Facts, r: Row)
    requires IsRow(f, r)
    ensures HasComposite(f.weights, r)
  {
  }

  /** The composite is linear in the three sub-scores, with the weights of the input, and zero where they are. */
  lemma {:induction false} CompositesAreWeighted(sg: ScoreSubgraph, bc: Betweenness, f: Facts, rows: seq<Row>,
                                                 x: Row, y: Row)
    requires IsFactsOf(sg, bc, f) && RowsOf(f, rows) && x in rows && y in rows
    ensures x.centrality == x.criticalPath == x.handoff == 0.0 ==> x.composite == 0.0
    ensures IsWeightedDifference(sg.weights, x, y)
  {
    RowHasComposite(f, x);
    RowHasComposite(f, y);
    CompositesDiffer(sg.weights, x, y);
  }

  /** `share` is the part that `part` is of `whole`; nothing when there is no whole. */
  ghost predicate IsShare(share: real, part: real, whole: real) {
    if whole > 0.0 then share * whole == part else share == 0.0
  }

  lemma {:induction false} RatioIsShare(part: real, whole: real)
    ensures IsShare(Ratio(part, whole), part, whole)
  {
  }

  ghost predicate HasRatios(r: Row, maxBetweenness: real, maxHandoff: nat) {
    && r.centrality == Ratio(r.betweenness, maxBetweenness)
    && r.criticalPath == Ratio(r.longestChainDepth as real, r.criticalPathLength as real)
    && r.handoff == Ratio(r.handoffs.Count() as real, maxHandoff as real)
  }

  /**
   Each sub-score is the row's own evidence as a share of the largest one: of the
   largest betweenness, of the length of the critical path, and of the largest
   number of handoffs.
   */
  ghost predicate HasShares(r: Row, maxBetweenness: real, maxHandoff: nat) {
    && IsShare(r.centrality, r.betweenness, maxBetweenness)
    && IsShare(r.criticalPath, r.longestChainDepth as real, r.criticalPathLength as real)
    && IsShare(r.handoff, (r.handoffs.roleHandoffs + r.handoffs.systemHandoffs) as real, maxHandoff as real)
  }

  lemma {:induction false} RatiosAreShares(r: Row, maxBetweenness: real, maxHandoff: nat)
    requires HasRatios(r, maxBetweenness, maxHandoff)
    ensures HasShares(r, maxBetweenness, maxHandoff)
  {
    RatioIsShare(r.betweenness, maxBetweenness);
    RatioIsShare(r.longestChainDepth as real, r.criticalPathLength as real);
    RatioIsShare(r.handoffs.Count() as real, maxHandoff as real);
  }

  lemma {:induction false} SubScoresAreShares(sg: ScoreSubgraph, bc: Betweenness, f: Facts, rows: seq<Row>, r: Row)
    requires IsFactsOf(sg, bc, f) && RowsOf(f, rows) && r in rows
    ensures HasShares(r, f.maxBetweenness, f.maxHandoff)
  {
    RowParts(f, r);
    RatiosAreShares(r, f.maxBetweenness, f.maxHandoff);
  }

  /** The largest betweenness and the largest number of handoffs are those of the rows themselves. */
  lemma {:induction false} LargestAreOfRows(sg: ScoreSubgraph, bc: Betweenness, f: Facts, rows: seq<Row>)
    requires IsFactsOf(sg, bc, f) && RowsOf(f, rows)
    ensures forall r :: r in rows ==> r.betweenness <= f.maxBetweenness
    ensures f.maxBetweenness > 0.0 ==> exists r :: r in rows && r.betweenness == f.maxBetweenness
    ensures forall r :: r in rows ==> r.handoffs.roleHandoffs + r.handoffs.systemHandoffs <= f.maxHandoff
    ensures f.maxHandoff > 0 ==>
              exists r :: r in rows && r.handoffs.roleHandoffs + r.handoffs.systemHandoffs == f.maxHandoff
  {
    forall r | r in rows
      ensures r.betweenness <= f.maxBetweenness && r.handoffs.Count() <= f.maxHandoff
    {
      RowParts(f, r);
    }
    if f.maxBetweenness > 0.0 {
      var n :| n in f.betweenness && f.betweenness[n] == f.maxBetweenness;
      var r := RowFor(f, rows, n);
    }
    if f.maxHandoff > 0 {
      var n :| n in f.handoffs && f.handoffs[n].Count() == f.maxHandoff;
      var r := RowFor(f, rows, n);
    }
  }

  lemma {:induction false} RowFor(f: Facts, rows: seq<Row>, n: Id) returns (r: Row)
    requires RowsOf(f, rows) && n in f.byId
    ensures r in rows && r.activity.id == n && n in f.betweenness && n in f.handoffs
    ensures r.betweenness == f.betweenness[n] && r.handoffs == f.handoffs[n]
  {
    assert HasRow(rows, n);
    r :| r in rows && r.activity.id == n;
    RowParts(f, r);
  }

  /** Both sides have some, and none in common. */
  ghost predicate Separate(a: seq<Id>, b: seq<Id>) {
    |a| > 0 && |b| > 0 && Elements(a) !! Elements(b)
  }

  ghost predicate Adjacent(edges: set<ScoreEdge>, n: Id, m: Id) {
    ScoreEdge(n, m) in edges || ScoreEdge(m, n) in edges
  }

  lemma {:induction false} NeighbourIsAdjacent(edges: set<ScoreEdge>, n: Id, m: Id)
    ensures m in Neighbours(edges, n) <==> Adjacent(edges, n, m)
  {
    if ScoreEdge(n, m) in edges {
      assert ScoreEdge(n, m).toId == m;
    }
    if ScoreEdge(m, n) in edges {
      assert ScoreEdge(m, n).fromId == m;
    }
  }

  lemma {:induction false} HandoffIsSeparation(a: seq<Id>, b: seq<Id>)
    ensures IsHandoff(a, b) <==> Separate(a, b)
  {
    assert forall x :: x in Elements(a) <==> x in a;
    assert forall x :: x in Elements(b) <==> x in b;
  }

  lemma {:induction false} RolePartnersAre(byId: map<Id, ScoreActivity>, edges: set<ScoreEdge>, n: Id)
    requires n in byId
    ensures RolePartners(byId, edges, n)
         == set m | m in byId && Adjacent(edges, n, m) && Separate(byId[n].roleIds, byId[m].roleIds)
  {
    forall m | m in byId
      ensures m in Neighbours(edges, n) <==> Adjacent(edges, n, m)
      ensures IsHandoff(byId[n].roleIds, byId[m].roleIds) <==> Separate(byId[n].roleIds, byId[m].roleIds)
    {
      NeighbourIsAdjacent(edges, n, m);
      HandoffIsSeparation(byId[n].roleIds, byId[m].roleIds);
    }
  }

  lemma {:induction false} SystemPartnersAre(byId: map<Id, ScoreActivity>, edges: set<ScoreEdge>, n: Id)
    requires n in byId
    ensures SystemPartners(byId, edges, n)
         == set m | m in byId && Adjacent(edges, n, m) && Separate(byId[n].systemIds, byId[m].systemIds)
  {
    forall m | m in byId
      ensures m in Neighbours(edges, n) <==> Adjacent(edges, n, m)
      ensures IsHandoff(byId[n].systemIds, byId[m].systemIds) <==> Separate(byId[n].systemIds, byId[m].systemIds)
    {
      NeighbourIsAdjacent(edges, n, m);
      HandoffIsSeparation(byId[n].systemIds, byId[m].systemIds);
    }
  }

  /** What a row counts as handoffs: neighbours with which it shares no role, or no system, where both have some. */
  lemma {:induction false} HandoffsAreSeparations(f: Facts, edges: set<ScoreEdge>, n: Id)
    requires IsHandoffTable(f.handoffs, f.byId, edges) && n in f.byId
    ensures f.handoffs[n].roleHandoffs
         == |set m | m in f.byId && Adjacent(edges, n, m) && Separate(f.byId[n].roleIds, f.byId[m].roleIds)|
    ensures f.handoffs[n].systemHandoffs
         == |set m | m in f.byId && Adjacent(edges, n, m) && Separate(f.byId[n].systemIds, f.byId[m].systemIds)|
  {
    RolePartnersAre(f.byId, edges, n);
    SystemPartnersAre(f.byId, edges, n);
  }

  /** The evidence about chains is the search's answer for the activity, and zero where it has none. */
  lemma {:induction false} RowsShowTheSearch(sg: ScoreSubgraph, f: Facts, rows: seq<Row>, cp: CriticalPathResult,
                                             r: Row)
    requires RowsOf(f, rows) && Shows(sg, f, rows, cp) && r in rows
    ensures r.longestChainDepth == (if r.activity.id in cp.longestThrough then cp.longestThrough[r.activity.id] else 0)
    ensures r.criticalPathLength == cp.criticalPathLength
    ensures r.onCriticalPath <==> r.activity.id in cp.onCriticalPath
  {
    assert IsRow(f, r);
  }
}
