/**
 What a row of the key-activity ranking says about its activity, stated over sets
 and maps so that nothing depends on the order of the input
 (api/src/derive/key-activity-score.ts, `scoreActivities`).
 */
module KeyActivityRows {
  import opened Wrappers
  import opened Paths
  import opened Ordering
  import opened KeyActivitySearch
  import opened KeyActivityPath

  datatype ScoreActivity = ScoreActivity(
    id: Id, name: string, createdAt: string,
    journeyId: Option<Id>, journeyName: Option<string>,
    roleIds: seq<Id>, systemIds: seq<Id>)

  datatype Weights = Weights(centrality: real, criticalPath: real, handoff: real)

  datatype ScoreSubgraph = ScoreSubgraph(
    activities: seq<ScoreActivity>, precedes: seq<ScoreEdge>, weights: Weights)

  datatype Handoffs = Handoffs(roleHandoffs: nat, systemHandoffs: nat) {
    function Count(): nat { roleHandoffs + systemHandoffs }
  }

  datatype Row = Row(
    activity: ScoreActivity, rank: nat, composite: real,
    centrality: real, criticalPath: real, handoff: real,
    betweenness: real, inDegree: nat, outDegree: nat,
    onCriticalPath: bool, longestChainDepth: nat, criticalPathLength: nat, handoffs: Handoffs)

  /** The library's centrality measure; it sees the graph as a set of nodes and edges. */
  type Betweenness = (set<Id>, set<ScoreEdge>, Id) -> real

  /** Everything the scores depend on, without any order. */
  datatype Facts = Facts(
    byId: map<Id, ScoreActivity>, edges: set<ScoreEdge>, weights: Weights,
    betweenness: map<Id, real>, maxBetweenness: real,
    depth: Through, length: nat,
    handoffs: map<Id, Handoffs>, maxHandoff: nat)

  // ---------- handoffs ----------

  predicate Disjoint(a: seq<Id>, b: seq<Id>) {
    forall x :: x in b ==> x !in a
  }

  /** Both sides must be known: an empty side is no handoff. */
  predicate IsHandoff(a: seq<Id>, b: seq<Id>) {
    a != [] && b != [] && Disjoint(a, b)
  }

  function Neighbours(edges: set<ScoreEdge>, n: Id): set<Id> {
    (set e | e in edges && e.fromId == n :: e.toId) + (set e | e in edges && e.toId == n :: e.fromId)
  }

  function RolePartners(byId: map<Id, ScoreActivity>, edges: set<ScoreEdge>, n: Id): set<Id>
    requires n in byId
  {
    set m | m in Neighbours(edges, n) && m in byId && IsHandoff(byId[n].roleIds, byId[m].roleIds)
  }

  function SystemPartners(byId: map<Id, ScoreActivity>, edges: set<ScoreEdge>, n: Id): set<Id>
    requires n in byId
  {
    set m | m in Neighbours(edges, n) && m in byId && IsHandoff(byId[n].systemIds, byId[m].systemIds)
  }

  function HandoffsOf(byId: map<Id, ScoreActivity>, edges: set<ScoreEdge>, n: Id): Handoffs
    requires n in byId
  {
    Handoffs(|RolePartners(byId, edges, n)|, |SystemPartners(byId, edges, n)|)
  }

  ghost predicate IsHandoffTable(handoffs: map<Id, Handoffs>, byId: map<Id, ScoreActivity>, edges: set<ScoreEdge>) {
    handoffs.Keys == byId.Keys && forall n :: n in handoffs ==> handoffs[n] == HandoffsOf(byId, edges, n)
  }

  /** The largest count, or 0 when there is none. */
  ghost predicate IsMaxHandoff(handoffs: map<Id, Handoffs>, m: nat) {
    && (forall n :: n in handoffs ==> handoffs[n].Count() <= m)
    && (m == 0 || exists n :: n in handoffs && handoffs[n].Count() == m)
  }

  // ---------- the row of one activity ----------

  function EdgesInto(edges: set<ScoreEdge>, n: Id): set<ScoreEdge> {
    set e | e in edges && e.toId == n
  }

  function EdgesFrom(edges: set<ScoreEdge>, n: Id): set<ScoreEdge> {
    set e | e in edges && e.fromId == n
  }

  /** The graph library's degrees: an edge counts once at either end. */
  function InDegree(edges: set<ScoreEdge>, n: Id): nat {
    |EdgesInto(edges, n)|
  }

  function OutDegree(edges: set<ScoreEdge>, n: Id): nat {
    |EdgesFrom(edges, n)|
  }

  function DepthIn(depth: Through, n: Id): nat {
    if n in depth then depth[n] else 0
  }

  function Ratio(part: real, whole: real): real {
    if whole > 0.0 then part / whole else 0.0
  }

  function Composite(w: Weights, centrality: real, criticalPath: real, handoff: real): real {
    w.centrality * centrality + w.criticalPath * criticalPath + w.handoff * handoff
  }

  /** The row of an activity, up to its rank and the flag that depends on which longest path was kept. */
  function RowOf(f: Facts, n: Id, rank: nat, onCriticalPath: bool): Row
    requires n in f.byId && n in f.betweenness && n in f.handoffs
  {
    var centrality := Ratio(f.betweenness[n], f.maxBetweenness);
    var criticalPath := Ratio(DepthIn(f.depth, n) as real, f.length as real);
    var handoff := Ratio(f.handoffs[n].Count() as real, f.maxHandoff as real);
    Row(f.byId[n], rank, Composite(f.weights, centrality, criticalPath, handoff),
        centrality, criticalPath, handoff, f.betweenness[n], InDegree(f.edges, n), OutDegree(f.edges, n),
        onCriticalPath, DepthIn(f.depth, n), f.length, f.handoffs[n])
  }

  /** The first of two rows that differ in composite, then in timestamp, then in id. */
  predicate RowLe(x: Row, y: Row) {
    || x.composite > y.composite
    || (x.composite == y.composite &&
        if x.activity.createdAt != y.activity.createdAt then StringLe(x.activity.createdAt, y.activity.createdAt)
        else StringLe(x.activity.id, y.activity.id))
  }

  lemma {:induction false} RowLeOrder()
    ensures TotalPreorder(RowLe)
  {
    StringLeOrder();
    forall x: Row, y: Row
      ensures RowLe(x, y) || RowLe(y, x)
    {
      StringLeTotal(x.activity.createdAt, y.activity.createdAt);
    }
    forall x: Row, y: Row, z: Row | RowLe(x, y) && RowLe(y, z)
      ensures RowLe(x, z)
    {
      StringLeTotal(x.activity.createdAt, y.activity.createdAt);
      StringLeTotal(y.activity.createdAt, z.activity.createdAt);
    }
  }

  lemma {:induction false} RowLeTie(x: Row, y: Row)
    requires RowLe(x, y) && RowLe(y, x)
    ensures x.composite == y.composite && x.activity.id == y.activity.id
  {
    StringLeTotal(x.activity.createdAt, y.activity.createdAt);
    StringLeTotal(x.activity.id, y.activity.id);
  }

  // ---------- the guarded input ----------

  function Ids(acts: seq<ScoreActivity>): seq<Id> {
    seq(|acts|, i requires 0 <= i < |acts| => acts[i].id)
  }

  /** The first activity of every id, in input order. */
  function FirstById(acts: seq<ScoreActivity>): seq<ScoreActivity> {
    if acts == [] then []
    else
      var kept, a := FirstById(acts[..|acts| - 1]), acts[|acts| - 1];
      if a.id in Ids(kept) then kept else kept + [a]
  }

  /** The text under which an edge is remembered as seen. */
  function EdgeKey(e: ScoreEdge): string {
    e.fromId + "->" + e.toId
  }

  function Keys(edges: seq<ScoreEdge>): seq<string> {
    seq(|edges|, i requires 0 <= i < |edges| => EdgeKey(edges[i]))
  }

  predicate InScope(ids: set<Id>, e: ScoreEdge) {
    e.fromId != e.toId && e.fromId in ids && e.toId in ids
  }

  /** The scoped edges without self-loops, the first of every key. */
  function KeptEdges(ids: set<Id>, edges: seq<ScoreEdge>): seq<ScoreEdge> {
    if edges == [] then []
    else
      var kept, e := KeptEdges(ids, edges[..|edges| - 1]), edges[|edges| - 1];
      if InScope(ids, e) && EdgeKey(e) !in Keys(kept) then kept + [e] else kept
  }

  function ById(acts: seq<ScoreActivity>): map<Id, ScoreActivity> {
    if acts == [] then map[]
    else ById(acts[..|acts| - 1])[acts[|acts| - 1].id := acts[|acts| - 1]]
  }

  ghost predicate IsBetweennessTable(betweenness: map<Id, real>, bc: Betweenness, ids: set<Id>, edges: set<ScoreEdge>) {
    betweenness.Keys == ids && forall n :: n in ids ==> betweenness[n] == bc(ids, edges, n)
  }

  /** The largest centrality, or 0 when none is positive. */
  ghost predicate IsMaxBetweenness(betweenness: map<Id, real>, m: real) {
    && m >= 0.0
    && (forall n :: n in betweenness ==> betweenness[n] <= m)
    && (m == 0.0 || exists n :: n in betweenness && betweenness[n] == m)
  }

  ghost predicate IsLength(depth: Through, length: nat) {
    && (length == 0 <==> depth == map[])
    && (forall n :: n in depth ==> depth[n] <= length)
    && (length > 0 ==> exists n :: n in depth && depth[n] == length)
  }

  /** No earlier activity has the id of activity `i`. */
  ghost predicate IsFirst(acts: seq<ScoreActivity>, i: int) {
    0 <= i < |acts| && acts[i].id !in Ids(acts[..i])
  }

  ghost predicate IsFirstOccurrence(acts: seq<ScoreActivity>, a: ScoreActivity) {
    exists i :: IsFirst(acts, i) && acts[i] == a
  }

  lemma {:induction false} IdsSnoc(acts: seq<ScoreActivity>, a: ScoreActivity)
    ensures Ids(acts + [a]) == Ids(acts) + [a.id]
  {
  }

  /** One row per id is kept, and it is the first one. */
  lemma {:induction false} FirstByIdIs(acts: seq<ScoreActivity>)
    ensures Distinct(Ids(FirstById(acts)))
    ensures forall a :: a in FirstById(acts) ==> IsFirstOccurrence(acts, a)
    ensures forall n :: n in Ids(FirstById(acts)) <==> n in Ids(acts)
  {
    if acts != [] {
      var front, last := acts[..|acts| - 1], acts[|acts| - 1];
      FirstByIdIs(front);
      assert acts == front + [last];
      IdsSnoc(front, last);
      IdsSnoc(FirstById(front), last);
      forall a | a in FirstById(front)
        ensures IsFirstOccurrence(acts, a)
      {
        var i :| IsFirst(front, i) && front[i] == a;
        assert acts[..i] == front[..i];
        assert IsFirst(acts, i);
      }
      if last.id !in Ids(FirstById(front)) {
        assert IsFirst(acts, |acts| - 1);
      }
    }
  }

  lemma {:induction false} ByIdIs(acts: seq<ScoreActivity>)
    requires Distinct(Ids(acts))
    ensures ById(acts).Keys == Elements(Ids(acts))
    ensures forall i :: 0 <= i < |acts| ==> acts[i].id in ById(acts) && ById(acts)[acts[i].id] == acts[i]
  {
    if acts != [] {
      var front, last := acts[..|acts| - 1], acts[|acts| - 1];
      assert acts == front + [last];
      IdsSnoc(front, last);
      DistinctFront(Ids(front), last.id);
      ByIdIs(front);
    }
  }

  lemma {:induction false} DistinctFront(ids: seq<Id>, last: Id)
    requires Distinct(ids + [last])
    ensures Distinct(ids) && last !in ids && Elements(ids + [last]) == Elements(ids) + {last}
  {
    var all := ids + [last];
    assert forall i :: 0 <= i < |ids| ==> all[i] == ids[i];
    assert all[|ids|] == last;
  }

  /** Two different scoped edges that print to the same key. */
  ghost predicate KeyClash(ids: set<Id>, edges: seq<ScoreEdge>) {
    exists e, f :: e in edges && f in edges && InScope(ids, e) && InScope(ids, f) && e != f && EdgeKey(e) == EdgeKey(f)
  }

  ghost function ScopedSet(ids: set<Id>, edges: seq<ScoreEdge>): set<ScoreEdge> {
    set e | e in edges && InScope(ids, e)
  }

  function EdgeSet(edges: seq<ScoreEdge>): set<ScoreEdge> {
    set e | e in edges
  }

  lemma {:induction false} KeptEdgesInScope(ids: set<Id>, edges: seq<ScoreEdge>)
    ensures forall e :: e in KeptEdges(ids, edges) ==> e in edges && InScope(ids, e)
  {
    if edges != [] {
      KeptEdgesInScope(ids, edges[..|edges| - 1]);
    }
  }

  lemma {:induction false} KeptKeysDiffer(ids: set<Id>, edges: seq<ScoreEdge>)
    ensures Distinct(Keys(KeptEdges(ids, edges)))
  {
    if edges != [] {
      var kept, last := KeptEdges(ids, edges[..|edges| - 1]), edges[|edges| - 1];
      KeptKeysDiffer(ids, edges[..|edges| - 1]);
      KeysSnoc(kept, last);
    }
  }

  lemma {:induction false} KeptKeysCover(ids: set<Id>, edges: seq<ScoreEdge>)
    ensures forall e :: e in edges && InScope(ids, e) ==> EdgeKey(e) in Keys(KeptEdges(ids, edges))
  {
    if edges != [] {
      var front, last := edges[..|edges| - 1], edges[|edges| - 1];
      KeptKeysCover(ids, front);
      KeysSnoc(KeptEdges(ids, front), last);
      assert edges == front + [last];
    }
  }

  lemma {:induction false} KeysSnoc(edges: seq<ScoreEdge>, e: ScoreEdge)
    ensures Keys(edges + [e]) == Keys(edges) + [EdgeKey(e)]
  {
  }

  lemma {:induction false} DistinctKeys(edges: seq<ScoreEdge>)
    requires Distinct(Keys(edges))
    ensures forall e, f :: e in edges && f in edges && EdgeKey(e) == EdgeKey(f) ==> e == f
  {
    forall e, f | e in edges && f in edges && EdgeKey(e) == EdgeKey(f)
      ensures e == f
    {
      var i :| 0 <= i < |edges| && edges[i] == e;
      var j :| 0 <= j < |edges| && edges[j] == f;
      assert Keys(edges)[i] == Keys(edges)[j];
    }
  }

  /**
   De-duplicating by the printed key keeps every distinct scoped edge exactly when
   no two of them print alike.
   */
  lemma {:induction false} KeptEdgesComplete(ids: set<Id>, edges: seq<ScoreEdge>)
    ensures EdgeSet(KeptEdges(ids, edges)) == ScopedSet(ids, edges) <==> !KeyClash(ids, edges)
  {
    KeptEdgesInScope(ids, edges);
    KeptKeysDiffer(ids, edges);
    KeptKeysCover(ids, edges);
    var kept := KeptEdges(ids, edges);
    if !KeyClash(ids, edges) {
      forall e | e in ScopedSet(ids, edges)
        ensures e in kept
      {
        var i :| 0 <= i < |Keys(kept)| && Keys(kept)[i] == EdgeKey(e);
        assert kept[i] in EdgeSet(kept);
      }
    } else {
      var e, f :| e in edges && f in edges && InScope(ids, e) && InScope(ids, f) && e != f && EdgeKey(e) == EdgeKey(f);
      DistinctKeys(kept);
      assert e in ScopedSet(ids, edges) && f in ScopedSet(ids, edges);
      assert !(e in EdgeSet(kept) && f in EdgeSet(kept));
    }
  }

  /** No place in the text where the separator of a key could be read. */
  predicate NoArrow(s: string) {
    forall i :: 0 <= i < |s| - 1 ==> !(s[i] == '-' && s[i + 1] == '>')
  }

  /** Ids without the separator print to different keys for different edges. */
  lemma {:induction false} ArrowFreeKeys(e: ScoreEdge, f: ScoreEdge)
    requires NoArrow(e.fromId) && NoArrow(e.toId) && NoArrow(f.fromId) && NoArrow(f.toId)
    requires EdgeKey(e) == EdgeKey(f)
    ensures e == f
  {
    var k := EdgeKey(e);
    if |e.fromId| < |f.fromId| {
      ArrowInside(e, f);
    } else if |f.fromId| < |e.fromId| {
      ArrowInside(f, e);
    } else {
      assert e.fromId == k[..|e.fromId|] == f.fromId;
      assert e.toId == k[|e.fromId| + 2..] == f.toId;
    }
  }

  /** The earlier separator of two different readings lies inside the other reading's source id. */
  lemma {:induction false} ArrowInside(e: ScoreEdge, f: ScoreEdge)
    requires EdgeKey(e) == EdgeKey(f) && |e.fromId| < |f.fromId|
    ensures !NoArrow(f.fromId)
  {
    var k, i := EdgeKey(e), |e.fromId|;
    assert k[i] == '-' && k[i + 1] == '>';
    assert k[i] == EdgeKey(f)[i] == f.fromId[i];
    assert EdgeKey(f)[|f.fromId|] == '-';
    assert i + 1 < |f.fromId|;
    assert EdgeKey(f)[i + 1] == f.fromId[i + 1];
  }

  /** What is kept: edges between two different activities of the scope, one for every key among them. */
  lemma {:induction false} KeptAre(ids: set<Id>, edges: seq<ScoreEdge>)
    ensures forall e :: e in KeptEdges(ids, edges) ==>
              e in edges && e.fromId != e.toId && e.fromId in ids && e.toId in ids
    ensures forall e :: e in edges && e.fromId != e.toId && e.fromId in ids && e.toId in ids ==>
              exists k :: k in KeptEdges(ids, edges) && EdgeKey(k) == EdgeKey(e)
  {
    KeptEdgesInScope(ids, edges);
    KeptKeysCover(ids, edges);
    var kept := KeptEdges(ids, edges);
    forall e | e in edges && e.fromId != e.toId && e.fromId in ids && e.toId in ids
      ensures exists k :: k in kept && EdgeKey(k) == EdgeKey(e)
    {
      assert InScope(ids, e);
      var i :| 0 <= i < |Keys(kept)| && Keys(kept)[i] == EdgeKey(e);
      assert kept[i] in kept;
    }
  }

  // ---------- when the order of the edges matters ----------

  /** The first edge of a key is kept. */
  lemma {:induction false} FirstKept(ids: set<Id>, e: ScoreEdge, more: seq<ScoreEdge>)
    requires InScope(ids, e)
    ensures e in KeptEdges(ids, [e] + more)
  {
    if more == [] {
      assert [e] + more == [e] && [e][..0] == [];
    } else {
      var front := more[..|more| - 1];
      FirstKept(ids, e, front);
      assert ([e] + more)[..|more|] == [e] + front;
    }
  }

  /** Another edge with its key is not. */
  lemma {:induction false} FirstKeptAlone(ids: set<Id>, e: ScoreEdge, f: ScoreEdge, more: seq<ScoreEdge>)
    requires InScope(ids, e) && e != f && EdgeKey(e) == EdgeKey(f)
    ensures e in EdgeSet(KeptEdges(ids, [e] + more)) && f !in EdgeSet(KeptEdges(ids, [e] + more))
  {
    FirstKept(ids, e, more);
    KeptKeysDiffer(ids, [e] + more);
    DistinctKeys(KeptEdges(ids, [e] + more));
  }

  /** The edges with one of them brought to the front. */
  lemma {:induction false} BroughtFirst(edges: seq<ScoreEdge>, e: ScoreEdge) returns (rest: seq<ScoreEdge>)
    requires e in edges
    ensures multiset([e] + rest) == multiset(edges)
  {
    var i :| 0 <= i < |edges| && edges[i] == e;
    rest := edges[..i] + edges[i + 1..];
    assert edges == edges[..i] + [e] + edges[i + 1..];
  }

  ghost predicate OrderDoesNotMatter(ids: set<Id>, edges: seq<ScoreEdge>) {
    forall es :: multiset(es) == multiset(edges) ==> EdgeSet(KeptEdges(ids, es)) == EdgeSet(KeptEdges(ids, edges))
  }

  lemma {:induction false} ClashingOrders(ids: set<Id>, edges: seq<ScoreEdge>)
    requires KeyClash(ids, edges)
    ensures !OrderDoesNotMatter(ids, edges)
  {
    var e, f :| e in edges && f in edges && InScope(ids, e) && InScope(ids, f) && e != f && EdgeKey(e) == EdgeKey(f);
    var es := BroughtFirst(edges, e);
    var fs := BroughtFirst(edges, f);
    FirstKeptAlone(ids, e, f, es);
    FirstKeptAlone(ids, f, e, fs);
    assert EdgeSet(KeptEdges(ids, [e] + es)) != EdgeSet(KeptEdges(ids, [f] + fs));
  }

  lemma {:induction false} SameWithoutClash(ids: set<Id>, edges: seq<ScoreEdge>, es: seq<ScoreEdge>)
    requires !KeyClash(ids, edges) && multiset(es) == multiset(edges)
    ensures EdgeSet(KeptEdges(ids, es)) == EdgeSet(KeptEdges(ids, edges))
  {
    SameElements(es, edges);
    assert ScopedSet(ids, es) == ScopedSet(ids, edges);
    KeptEdgesComplete(ids, edges);
    KeptEdgesComplete(ids, es);
  }

  /** Which edges are kept depends on their order exactly when two different ones print alike. */
  lemma {:induction false} OrderMattersIff(ids: set<Id>, edges: seq<ScoreEdge>)
    ensures OrderDoesNotMatter(ids, edges) <==> !KeyClash(ids, edges)
  {
    if KeyClash(ids, edges) {
      ClashingOrders(ids, edges);
    } else {
      forall es | multiset(es) == multiset(edges)
        ensures EdgeSet(KeptEdges(ids, es)) == EdgeSet(KeptEdges(ids, edges))
      {
        SameWithoutClash(ids, edges, es);
      }
    }
  }

  /** Two different edges with the same key: whichever comes first is the only one kept. */
  lemma {:induction false} ClashDependsOnOrder(ids: set<Id>)
    requires ids == {"a", "b->c", "a->b", "c"}
    ensures var e, f := ScoreEdge("a", "b->c"), ScoreEdge("a->b", "c");
            KeptEdges(ids, [e, f]) == [e] && KeptEdges(ids, [f, e]) == [f]
  {
    var e, f := ScoreEdge("a", "b->c"), ScoreEdge("a->b", "c");
    assert EdgeKey(e) == "a->b->c" == EdgeKey(f);
    KeptPair(ids, e, f);
    KeptPair(ids, f, e);
  }

  lemma {:induction false} KeptPair(ids: set<Id>, e: ScoreEdge, f: ScoreEdge)
    requires InScope(ids, e) && InScope(ids, f) && EdgeKey(e) == EdgeKey(f)
    ensures KeptEdges(ids, [e, f]) == [e]
  {
    assert [e, f][..1] == [e] && [e][..0] == [];
    assert KeptEdges(ids, []) == [];
    assert KeptEdges(ids, [e]) == [e];
    assert Keys([e])[0] == EdgeKey(e);
  }
}
