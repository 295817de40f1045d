/**
 Simple paths and directed cycles in a finite graph given by successor lists.
 These are the independent definitions against which the three hand-written
 depth-first searches (critical path, complexity, key activities) are proved.
 */
module Paths {

  type Id = string

  /** Which budget stopped a search early. */
  datatype TruncationReason = DepthCap | PathBudget | WallClock

  /** Successor lists; a node without an entry has no successors. */
  type Graph = map<Id, seq<Id>>

  function Succs(g: Graph, n: Id): seq<Id> {
    if n in g then g[n] else []
  }

  ghost predicate Edge(g: Graph, a: Id, b: Id) {
    b in Succs(g, a)
  }

  /** Every successor listed for a member is a member. */
  ghost predicate Closed(members: set<Id>, g: Graph) {
    forall a, b :: a in members && Edge(g, a, b) ==> b in members
  }

  function Elements(p: seq<Id>): set<Id> {
    set x | x in p
  }

  ghost predicate Distinct(p: seq<Id>) {
    forall i, j :: 0 <= i < j < |p| ==> p[i] != p[j]
  }

  ghost predicate Walk(g: Graph, p: seq<Id>) {
    && |p| > 0
    && forall i, j :: 0 <= i && j == i + 1 && j < |p| ==> Edge(g, p[i], p[j])
  }

  ghost predicate Within(members: set<Id>, p: seq<Id>) {
    forall i :: 0 <= i < |p| ==> p[i] in members
  }

  function Last(p: seq<Id>): Id
    requires p != []
  {
    p[|p| - 1]
  }

  ghost predicate SimplePath(members: set<Id>, g: Graph, p: seq<Id>) {
    Walk(g, p) && Distinct(p) && Within(members, p)
  }

  /** A path whose last node has an edge back onto the path. */
  ghost predicate Closes(g: Graph, p: seq<Id>) {
    p != [] && exists x :: x in p && Edge(g, Last(p), x)
  }

  /** A closed walk through members; it need not be simple. */
  ghost predicate ClosedWalk(members: set<Id>, g: Graph, c: seq<Id>) {
    Walk(g, c) && Within(members, c) && Edge(g, Last(c), c[0])
  }

  ghost predicate HasCycle(members: set<Id>, g: Graph) {
    exists c :: ClosedWalk(members, g, c)
  }

  /** A simple path that no edge extends to a longer simple path. */
  ghost predicate Maximal(members: set<Id>, g: Graph, p: seq<Id>) {
    SimplePath(members, g, p) && forall x :: Edge(g, Last(p), x) ==> x in p
  }

  ghost predicate HasPredecessor(members: set<Id>, g: Graph, n: Id) {
    exists m :: m in members && Edge(g, m, n)
  }

  // ---------- building and cutting simple paths ----------

  lemma {:induction false} PushSimple(members: set<Id>, g: Graph, s: seq<Id>, n: Id)
    requires SimplePath(members, g, s)
    requires n in members && n !in s && Edge(g, Last(s), n)
    ensures SimplePath(members, g, s + [n])
  {
  }

  /** A longer simple path leaves its prefix through a fresh successor. */
  lemma {:induction false} StepOfExtension(members: set<Id>, g: Graph, s: seq<Id>, p: seq<Id>)
    requires s != [] && SimplePath(members, g, p) && s <= p && |s| < |p|
    ensures Edge(g, Last(s), p[|s|]) && p[|s|] !in s && s + [p[|s|]] <= p
  {
    assert p[|s| - 1] == Last(s);
  }

  lemma {:induction false} PrefixSimple(members: set<Id>, g: Graph, p: seq<Id>, k: nat)
    requires SimplePath(members, g, p) && 0 < k <= |p|
    ensures SimplePath(members, g, p[..k])
  {
  }

  lemma {:induction false} DistinctCardinality(p: seq<Id>)
    requires Distinct(p)
    ensures |Elements(p)| == |p|
  {
    if p != [] {
      var front := p[..|p| - 1];
      DistinctCardinality(front);
      assert Elements(p) == Elements(front) + {Last(p)};
    }
  }

  lemma {:induction false} ElementsBound(p: seq<Id>)
    ensures |Elements(p)| <= |p|
  {
    if p != [] {
      ElementsBound(p[..|p| - 1]);
      assert Elements(p) == Elements(p[..|p| - 1]) + {Last(p)};
    }
  }

  /** A sequence with as many elements as places repeats nothing. */
  lemma {:induction false} DistinctByCount(p: seq<Id>)
    requires |Elements(p)| == |p|
    ensures Distinct(p)
  {
    if p != [] {
      var front := p[..|p| - 1];
      ElementsBound(front);
      assert Elements(p) == Elements(front) + {Last(p)};
      DistinctByCount(front);
      assert Last(p) !in Elements(front);
    }
  }

  lemma {:induction false} SimplePathBound(members: set<Id>, g: Graph, p: seq<Id>)
    requires SimplePath(members, g, p)
    ensures |p| <= |members|
  {
    DistinctCardinality(p);
    SubsetCardinality(Elements(p), members);
  }

  lemma {:induction false} SubsetCardinality<T>(a: set<T>, b: set<T>)
    requires a <= b
    ensures |a| <= |b|
  {
    if a != {} {
      var x :| x in a;
      SubsetCardinality(a - {x}, b - {x});
    }
  }

  // ---------- the longest simple path ----------

  ghost predicate SomePathOfLength(members: set<Id>, g: Graph, k: nat) {
    exists p :: SimplePath(members, g, p) && |p| == k
  }

  ghost function LongestUpTo(members: set<Id>, g: Graph, k: nat): nat {
    if k == 0 || SomePathOfLength(members, g, k) then k else LongestUpTo(members, g, k - 1)
  }

  /** Node count of a longest simple path; 0 exactly when there are no members. */
  ghost function Longest(members: set<Id>, g: Graph): nat {
    LongestUpTo(members, g, |members|)
  }

  lemma {:induction false} LongestUpToIs(members: set<Id>, g: Graph, k: nat)
    ensures var n := LongestUpTo(members, g, k);
            && n <= k
            && (n > 0 ==> SomePathOfLength(members, g, n))
            && forall p :: SimplePath(members, g, p) && |p| <= k ==> |p| <= n
  {
    if k != 0 && !SomePathOfLength(members, g, k) {
      LongestUpToIs(members, g, k - 1);
    }
  }

  /** Longest is attained, and no simple path is longer. */
  lemma {:induction false} LongestIs(members: set<Id>, g: Graph)
    ensures Longest(members, g) > 0 ==> SomePathOfLength(members, g, Longest(members, g))
    ensures forall p :: SimplePath(members, g, p) ==> |p| <= Longest(members, g)
    ensures Longest(members, g) == 0 <==> members == {}
  {
    LongestUpToIs(members, g, |members|);
    forall p | SimplePath(members, g, p)
      ensures |p| <= Longest(members, g)
    {
      SimplePathBound(members, g, p);
    }
    if members != {} {
      var x :| x in members;
      assert SimplePath(members, g, [x]);
    }
  }

  /** A start node is always reported, so a cap below 1 acts like 1. */
  function EffectiveCap(depthCap: int): nat {
    if depthCap < 1 then 1 else depthCap
  }

  function Min(a: int, b: int): int {
    if a < b then a else b
  }

  /** What both chain searches report when nothing but the depth cap can stop them. */
  ghost function CappedLongest(members: set<Id>, g: Graph, depthCap: int): nat {
    Min(EffectiveCap(depthCap), Longest(members, g))
  }

  // ---------- cycles ----------

  lemma {:induction false} ClosingPathGivesCycle(members: set<Id>, g: Graph, p: seq<Id>)
    requires SimplePath(members, g, p) && Closes(g, p)
    ensures HasCycle(members, g)
  {
    var x :| x in p && Edge(g, Last(p), x);
    var i :| 0 <= i < |p| && p[i] == x;
    var c := p[i..];
    forall a, b | 0 <= a && b == a + 1 && b < |c|
      ensures Edge(g, c[a], c[b])
    {
      assert c[a] == p[i + a] && c[b] == p[i + b];
    }
    assert ClosedWalk(members, g, c);
  }

  /** A walk that repeats a node has a simple prefix that closes a cycle. */
  lemma {:induction false} RepeatingWalkCloses(members: set<Id>, g: Graph, w: seq<Id>) returns (p: seq<Id>)
    requires Walk(g, w) && Within(members, w) && !Distinct(w)
    ensures p != [] && p <= w && SimplePath(members, g, p) && Closes(g, p)
  {
    var front := w[..|w| - 1];
    if Distinct(front) {
      p := front;
      assert Edge(g, w[|w| - 2], w[|w| - 1]);
      assert Last(p) == w[|w| - 2];
      assert Last(w) in p;
    } else {
      p := RepeatingWalkCloses(members, g, front);
    }
  }

  /** From a node that reaches a cycle, some simple path closes a cycle. */
  lemma {:induction false} ReachedCycleCloses(members: set<Id>, g: Graph, q: seq<Id>, c: seq<Id>) returns (p: seq<Id>)
    requires Walk(g, q) && Within(members, q) && ClosedWalk(members, g, c) && Last(q) == c[0]
    ensures p != [] && p[0] == q[0] && SimplePath(members, g, p) && Closes(g, p)
  {
    var w := q + c[1..] + [c[0]];
    assert Last(w) == c[0] == w[|q| - 1];
    forall i, j | 0 <= i && j == i + 1 && j < |w|
      ensures Edge(g, w[i], w[j])
    {
      if j >= |q| {
        assert w[i] == c[i - |q| + 1];
        if j < |w| - 1 {
          assert w[j] == c[j - |q| + 1];
        }
      }
    }
    p := RepeatingWalkCloses(members, g, w);
  }

  /** There is a cycle exactly when some simple path closes one. */
  lemma {:induction false} CycleIffSomePathCloses(members: set<Id>, g: Graph)
    ensures HasCycle(members, g) <==> exists p :: SimplePath(members, g, p) && Closes(g, p)
  {
    if HasCycle(members, g) {
      var c :| ClosedWalk(members, g, c);
      var p := ReachedCycleCloses(members, g, [c[0]], c);
    }
    forall p | SimplePath(members, g, p) && Closes(g, p)
      ensures HasCycle(members, g)
    {
      ClosingPathGivesCycle(members, g, p);
    }
  }

  // ---------- extending simple paths ----------

  /** Every simple path is a prefix of a maximal one. */
  lemma {:induction false} ExtendForward(members: set<Id>, g: Graph, q: seq<Id>) returns (p: seq<Id>)
    requires Closed(members, g) && SimplePath(members, g, q)
    ensures q <= p && Maximal(members, g, p)
    decreases |members| - |q|
  {
    if Maximal(members, g, q) {
      p := q;
    } else {
      var x :| Edge(g, Last(q), x) && x !in q;
      PushSimple(members, g, q, x);
      SimplePathBound(members, g, q + [x]);
      p := ExtendForward(members, g, q + [x]);
    }
  }

  /** A predecessor of the head that is on the path itself closes a cycle. */
  lemma {:induction false} PredecessorOnPath(members: set<Id>, g: Graph, q: seq<Id>, m: Id)
    requires SimplePath(members, g, q) && Edge(g, m, q[0])
    ensures m in q ==> HasCycle(members, g)
  {
    if m in q {
      var i :| 0 <= i < |q| && q[i] == m;
      assert ClosedWalk(members, g, q[..i + 1]);
    }
  }

  /** In an acyclic graph every simple path is the tail of one that nothing precedes. */
  lemma {:induction false} ExtendBackward(members: set<Id>, g: Graph, q: seq<Id>) returns (p: seq<Id>)
    requires !HasCycle(members, g) && SimplePath(members, g, q)
    ensures SimplePath(members, g, p) && !HasPredecessor(members, g, p[0])
    ensures |q| <= |p| && p[|p| - |q|..] == q
    decreases |members| - |q|
  {
    SimplePathBound(members, g, q);
    if HasPredecessor(members, g, q[0]) {
      var m :| m in members && Edge(g, m, q[0]);
      PredecessorOnPath(members, g, q, m);
      var longer := [m] + q;
      SimplePathBound(members, g, longer);
      p := ExtendBackward(members, g, longer);
      assert q == longer[1..] == p[|p| - |q|..];
    } else {
      p := q;
    }
  }
}
