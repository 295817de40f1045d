/**
 The second half of `scoreActivities` (api/src/derive/key-activity-score.ts): all
 rows, their ranking, and the entry point.
 */
module KeyActivityRanking {
  import opened Wrappers
  import opened Paths
  import opened Ordering
  import opened KeyActivitySearch
  import opened KeyActivityPath
  import opened KeyActivityRows
  import opened KeyActivityScore

  /** The rows flag exactly these activities. */
  ghost predicate Flagging(rows: seq<Row>, flagged: set<Id>) {
    forall r :: r in rows ==> r.onCriticalPath == (r.activity.id in flagged)
  }

  /** The rows of the first activities, in order. */
  ghost predicate RowsSoFar(f: Facts, activities: seq<ScoreActivity>, rows: seq<Row>) {
    && |rows| <= |activities|
    && forall j :: 0 <= j < |rows| ==> IsRow(f, rows[j]) && rows[j].activity == activities[j]
  }

  lemma {:induction false} OneMoreRow(f: Facts, activities: seq<ScoreActivity>, flagged: set<Id>, rows: seq<Row>,
                                      r: Row)
    requires RowsSoFar(f, activities, rows) && Flagging(rows, flagged) && |rows| < |activities|
    requires IsRow(f, r) && r.activity == activities[|rows|] && r.onCriticalPath == (r.activity.id in flagged)
    ensures RowsSoFar(f, activities, rows + [r]) && Flagging(rows + [r], flagged)
  {
  }

  lemma {:induction false} AllRows(f: Facts, activities: seq<ScoreActivity>, rows: seq<Row>)
    requires RowsSoFar(f, activities, rows) && |rows| == |activities|
    requires Distinct(Ids(activities)) && f.byId.Keys == Elements(Ids(activities))
    ensures RowsOf(f, rows)
  {
    var ids := Ids(activities);
    DistinctCardinality(ids);
    forall n | n in f.byId
      ensures HasRow(rows, n)
    {
      var i :| 0 <= i < |ids| && ids[i] == n;
      assert rows[i] in rows && rows[i].activity.id == n;
    }
  }

  method ScoreAll(activities: seq<ScoreActivity>, weights: Weights,
                  betweenness: map<Id, real>, maxBetweenness: real, cp: CriticalPathResult,
                  handoffRaw: map<Id, Handoffs>, maxHandoff: nat, edges: set<ScoreEdge>, ghost f: Facts)
    returns (unranked: seq<Row>)
    requires Consistent(cp) && Distinct(Ids(activities))
    requires f == Facts(ById(activities), edges, weights, betweenness, maxBetweenness,
                        cp.longestThrough, cp.criticalPathLength, handoffRaw, maxHandoff)
    requires betweenness.Keys == handoffRaw.Keys == f.byId.Keys
    ensures RowsOf(f, unranked) && Flagging(unranked, cp.onCriticalPath)
  {
    ByIdIs(activities);
    unranked := [];
    for i := 0 to |activities|
      invariant |unranked| == i && RowsSoFar(f, activities, unranked) && Flagging(unranked, cp.onCriticalPath)
    {
      var a := activities[i];
      var r := ScoreRow(a, weights, betweenness, maxBetweenness, cp, handoffRaw, maxHandoff, edges, f);
      OneMoreRow(f, activities, cp.onCriticalPath, unranked, r);
      unranked := unranked + [r];
    }
    AllRows(f, activities, unranked);
  }

  // ---------- the ranking ----------

  lemma {:induction false} RowsOfPermuted(f: Facts, rows: seq<Row>, rows': seq<Row>)
    requires RowsOf(f, rows) && multiset(rows) == multiset(rows')
    ensures RowsOf(f, rows')
  {
    SameElements(rows, rows');
    forall n | n in f.byId
      ensures HasRow(rows', n)
    {
      var r :| r in rows && r.activity.id == n;
      assert r in rows';
    }
  }

  method Rank(unranked: seq<Row>, ghost f: Facts, ghost flagged: set<Id>) returns (rows: seq<Row>)
    requires RowsOf(f, unranked) && Flagging(unranked, flagged)
    ensures RowsOf(f, rows) && IsRanked(rows) && Flagging(rows, flagged)
  {
    var sorted := SortBy(RowLe, unranked);
    SortKeeps(RowLe, unranked);
    RowLeOrder();
    SortSorts(RowLe, unranked);
    RowsOfPermuted(f, unranked, sorted);
    SameElements(unranked, sorted);
    rows := Number(sorted);
    NumberedRows(f, sorted, rows);
    NumberedFlags(sorted, rows, flagged);
  }

  lemma {:induction false} NumberedFlags(sorted: seq<Row>, rows: seq<Row>, flagged: set<Id>)
    requires Flagging(sorted, flagged) && |rows| == |sorted|
    requires forall i :: 0 <= i < |rows| ==> rows[i] == sorted[i].(rank := i + 1)
    ensures Flagging(rows, flagged)
  {
  }

  method Number(sorted: seq<Row>) returns (rows: seq<Row>)
    ensures |rows| == |sorted|
    ensures forall i :: 0 <= i < |rows| ==> rows[i] == sorted[i].(rank := i + 1)
  {
    rows := [];
    for i := 0 to |sorted|
      invariant |rows| == i
      invariant forall j :: 0 <= j < i ==> rows[j] == sorted[j].(rank := j + 1)
    {
      rows := rows + [sorted[i].(rank := i + 1)];
    }
  }

  lemma {:induction false} NumberedRows(f: Facts, sorted: seq<Row>, rows: seq<Row>)
    requires RowsOf(f, sorted) && Sorted(RowLe, sorted) && |rows| == |sorted|
    requires forall i :: 0 <= i < |rows| ==> rows[i] == sorted[i].(rank := i + 1)
    ensures RowsOf(f, rows) && IsRanked(rows)
  {
    forall r | r in rows
      ensures IsRow(f, r)
    {
      var i :| 0 <= i < |rows| && rows[i] == r;
      assert sorted[i] in sorted;
    }
    forall n | n in f.byId
      ensures HasRow(rows, n)
    {
      assert HasRow(sorted, n);
      var i :| 0 <= i < |sorted| && sorted[i].activity.id == n;
      assert rows[i] in rows && rows[i].activity.id == n;
    }
    forall i, j | 0 <= i < j < |rows|
      ensures RowLe(rows[i], rows[j])
    {
      assert RowLe(sorted[i], sorted[j]);
    }
  }

  ghost function ScopedIds(sg: ScoreSubgraph): seq<Id> {
    Ids(FirstById(sg.activities))
  }

  /** The graph in which the chains of a subgraph are searched. */
  ghost function ScopedGraph(sg: ScoreSubgraph): Graph {
    var ids := Elements(ScopedIds(sg));
    OutGraph(ids, KeptEdges(ids, sg.precedes))
  }

  /** The depths are the ones the deterministic search order determines. */
  ghost predicate ExactDepths(sg: ScoreSubgraph, f: Facts) {
    var ids := ScopedIds(sg);
    ExactFor(Elements(ids), ScopedGraph(sg), FinalRoots(ids, ScopedGraph(sg)), f.depth)
  }

  /** Every depth is the node count of a longest chain through the activity. */
  ghost predicate LongestDepths(sg: ScoreSubgraph, f: Facts) {
    var ids := Elements(ScopedIds(sg));
    && (forall n :: n in ids ==>
          IsLongestThrough(ids, ScopedGraph(sg), n, if n in f.depth then f.depth[n] else 1))
    && f.length == if Longest(ids, ScopedGraph(sg)) >= 2 then Longest(ids, ScopedGraph(sg)) else 0
  }

  /** The rows show what the search answered, and the facts record it. */
  ghost predicate Shows(sg: ScoreSubgraph, f: Facts, rows: seq<Row>, cp: CriticalPathResult) {
    && IsAnswer(ScopedIds(sg), ScopedGraph(sg), cp)
    && f.depth == cp.longestThrough && f.length == cp.criticalPathLength
    && Flagging(rows, cp.onCriticalPath)
  }

  /** `cp` is the search's answer; only its depths, length and flags reach the rows. */
  method ScoreActivities(sg: ScoreSubgraph, bc: Betweenness, clock: nat -> int)
    returns (rows: seq<Row>, hasCycle: bool, truncationReason: Option<TruncationReason>,
             ghost f: Facts, ghost cp: CriticalPathResult, ghost recorded: seq<seq<Id>>)
    ensures IsFactsOf(sg, bc, f) && RowsOf(f, rows) && IsRanked(rows)
    ensures forall i, j :: 0 <= i < j < |rows| ==> ComesBefore(rows[i], rows[j])
    ensures Shows(sg, f, rows, cp) && hasCycle == cp.hasCycle && truncationReason == cp.truncationReason
    ensures SpentBudget(ScopedIds(sg), ScopedGraph(sg), clock, truncationReason, recorded)
    ensures OnlySinglesRepeat(recorded)
  {
    var activities, seenIds := Deduplicate(sg.activities);
    FirstByIdIs(sg.activities);
    var ids := Ids(activities);
    var edges := FilterEdges(seenIds, sg.precedes);
    KeptEdgesInScope(seenIds, sg.precedes);
    KeptTwiceNever(seenIds, sg.precedes);
    TidyGraph(seenIds, edges);
    var betweenness, maxBetweenness := MeasureBetweenness(bc, ids, EdgeSet(edges));
    var answer;
    answer, recorded := ComputeCriticalPath(ids, edges, clock);
    cp := answer;
    var handoffRaw, maxHandoff := MeasureHandoffs(activities, edges);
    ByIdIs(activities);
    f := Facts(ById(activities), EdgeSet(edges), sg.weights, betweenness, maxBetweenness,
               answer.longestThrough, answer.criticalPathLength, handoffRaw, maxHandoff);
    LengthOfConsistent(answer);
    var unranked := ScoreAll(activities, sg.weights, betweenness, maxBetweenness, answer, handoffRaw, maxHandoff,
                             EdgeSet(edges), f);
    rows := Rank(unranked, f, answer.onCriticalPath);
    hasCycle, truncationReason := answer.hasCycle, answer.truncationReason;
    RankedComeBefore(rows);
  }

  /** The composite never rises down the ranking; equal ones go by timestamp, and those by id, as plain strings. */
  ghost predicate ComesBefore(x: Row, y: Row) {
    && x.composite >= y.composite
    && (x.composite == y.composite ==>
          && StringLe(x.activity.createdAt, y.activity.createdAt)
          && (x.activity.createdAt == y.activity.createdAt ==> StringLe(x.activity.id, y.activity.id)))
  }

  lemma {:induction false} RankedComeBefore(rows: seq<Row>)
    requires IsRanked(rows)
    ensures forall i, j :: 0 <= i < j < |rows| ==> ComesBefore(rows[i], rows[j])
  {
    forall i, j | 0 <= i < j < |rows|
      ensures ComesBefore(rows[i], rows[j])
    {
      assert RowLe(rows[i], rows[j]);
      StringLeIs(rows[i].activity.createdAt, rows[j].activity.createdAt);
    }
  }

  lemma {:induction false} KeptTwiceNever(ids: set<Id>, edges: seq<ScoreEdge>)
    ensures NoEdgeTwice(KeptEdges(ids, edges))
  {
    var kept := KeptEdges(ids, edges);
    KeptKeysDiffer(ids, edges);
    assert forall i :: 0 <= i < |kept| ==> Keys(kept)[i] == EdgeKey(kept[i]);
  }

  /** What the depths of an untruncated search mean: exact, and longest on an acyclic graph. */
  lemma {:induction false} DepthsAreExact(sg: ScoreSubgraph, f: Facts, rows: seq<Row>, cp: CriticalPathResult)
    requires Shows(sg, f, rows, cp) && !cp.Truncated()
    ensures ExactDepths(sg, f)
    ensures cp.hasCycle <==> HasCycle(Elements(ScopedIds(sg)), ScopedGraph(sg))
    ensures !cp.hasCycle ==> LongestDepths(sg, f)
  {
  }

  lemma {:induction false} LengthOfConsistent(cp: CriticalPathResult)
    requires Consistent(cp)
    ensures IsLength(cp.longestThrough, cp.criticalPathLength)
  {
  }
}
