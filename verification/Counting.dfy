/** Sums over sequences, and counting related pairs from both ends. */
module Counting {
  import opened Paths

  function Sum(s: seq<nat>): nat {
    if s == [] then 0 else Sum(s[..|s| - 1]) + s[|s| - 1]
  }

  // ---------- every related pair is counted from both ends ----------

  /** A symmetric relation that relates no element to itself. */
  ghost predicate Adjacency(rel: set<(Id, Id)>) {
    && (forall a, b :: (a, b) in rel ==> (b, a) in rel)
    && (forall a :: (a, a) !in rel)
  }

  ghost function NeighboursIn(rel: set<(Id, Id)>, within: set<Id>, a: Id): set<Id> {
    set b | b in within && (a, b) in rel
  }

  ghost function Degree(rel: set<(Id, Id)>, within: set<Id>, a: Id): nat {
    |NeighboursIn(rel, within, a)|
  }

  ghost function DegreeSum(rel: set<(Id, Id)>, within: set<Id>, over: seq<Id>): nat {
    if over == [] then 0
    else DegreeSum(rel, within, over[..|over| - 1]) + Degree(rel, within, over[|over| - 1])
  }

  /** The related pairs, without their order. */
  ghost function Pairs(rel: set<(Id, Id)>, within: set<Id>): set<set<Id>> {
    set e | e in rel && e.0 in within && e.1 in within :: {e.0, e.1}
  }

  lemma {:induction false} DegreeGrows(rel: set<(Id, Id)>, within: set<Id>, v: Id, a: Id)
    requires v !in within
    ensures Degree(rel, within + {v}, a) == Degree(rel, within, a) + if (a, v) in rel then 1 else 0
  {
    var wide, narrow := NeighboursIn(rel, within + {v}, a), NeighboursIn(rel, within, a);
    assert wide == if (a, v) in rel then narrow + {v} else narrow;
  }

  /** Growing the vertex set by one adds one to the degree of each of its neighbours. */
  lemma {:induction false} DegreeSumGrows(rel: set<(Id, Id)>, within: set<Id>, over: seq<Id>, v: Id)
    requires Adjacency(rel) && v !in within && Distinct(over)
    ensures DegreeSum(rel, within + {v}, over)
         == DegreeSum(rel, within, over) + Degree(rel, Elements(over), v)
  {
    if over == [] {
      assert NeighboursIn(rel, Elements(over), v) == {};
    } else {
      var front, a := over[..|over| - 1], over[|over| - 1];
      DegreeSumGrows(rel, within, front, v);
      DegreeGrows(rel, within, v, a);
      assert over == front + [a];
      assert Elements(over) == Elements(front) + {a};
      DegreeGrows(rel, Elements(front), a, v);
    }
  }

  /** The pairs of `v` with each element of `s`. */
  ghost function Star(v: Id, s: set<Id>): set<set<Id>> {
    set b | b in s :: {v, b}
  }

  lemma {:induction false} StarSize(v: Id, s: set<Id>)
    requires v !in s
    ensures |Star(v, s)| == |s|
  {
    if s == {} {
      assert Star(v, s) == {};
    } else {
      var x :| x in s;
      StarSize(v, s - {x});
      assert Star(v, s) == Star(v, s - {x}) + {{v, x}};
      assert forall b :: b in s - {x} ==> x !in {v, b};
    }
  }

  lemma {:induction false} PairsSplit(rel: set<(Id, Id)>, within: set<Id>, v: Id)
    requires Adjacency(rel) && v !in within
    ensures Pairs(rel, within + {v}) == Pairs(rel, within) + Star(v, NeighboursIn(rel, within, v))
  {
    var nb := NeighboursIn(rel, within, v);
    forall p | p in Pairs(rel, within + {v})
      ensures p in Pairs(rel, within) + Star(v, nb)
    {
      var e :| e in rel && e.0 in within + {v} && e.1 in within + {v} && p == {e.0, e.1};
      if e.0 == v {
        assert e.1 in nb && p == {v, e.1};
      } else if e.1 == v {
        assert e.0 in nb && p == {v, e.0};
      }
    }
    forall p | p in Star(v, nb)
      ensures p in Pairs(rel, within + {v})
    {
      var b :| b in nb && p == {v, b};
      var e := (v, b);
      assert e in rel && p == {e.0, e.1};
    }
  }

  lemma {:induction false} PairsGrow(rel: set<(Id, Id)>, within: set<Id>, v: Id)
    requires Adjacency(rel) && v !in within
    ensures |Pairs(rel, within + {v})| == |Pairs(rel, within)| + Degree(rel, within, v)
  {
    var nb := NeighboursIn(rel, within, v);
    StarSize(v, nb);
    PairsSplit(rel, within, v);
    assert forall p :: p in Star(v, nb) ==> v in p;
    assert forall p :: p in Pairs(rel, within) ==> v !in p;
    assert Pairs(rel, within) !! Star(v, nb);
  }

  /** The handshake law. */
  lemma {:induction false} Handshake(rel: set<(Id, Id)>, over: seq<Id>)
    requires Adjacency(rel) && Distinct(over)
    ensures DegreeSum(rel, Elements(over), over) == 2 * |Pairs(rel, Elements(over))|
  {
    if over == [] {
      assert Pairs(rel, Elements(over)) == {};
    } else {
      var front, v := over[..|over| - 1], over[|over| - 1];
      assert over == front + [v];
      assert Elements(over) == Elements(front) + {v};
      Handshake(rel, front);
      DegreeSumGrows(rel, Elements(front), front, v);
      PairsGrow(rel, Elements(front), v);
      DegreeGrows(rel, Elements(front), v, v);
    }
  }
}
