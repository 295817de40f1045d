/**
 The reports about systems: `computeSingleSystem`, `computeConsolidation` and
 `computeSystemMap` (api/src/analytics/single-system.ts, consolidation.ts,
 system-map.ts).
 */
module SystemReports {
  import opened Wrappers
  import opened Paths
  import opened Ordering
  import opened GraphIndex

  datatype Ref = Ref(id: Id, name: string)

  function RefOf(names: map<Id, string>, id: Id): Ref {
    Ref(id, NameIn(names, id))
  }

  // ---------- single-system journeys ----------

  datatype SingleSystemJourney = SingleSystemJourney(journeyId: Id, journeyName: string, system: Ref,
                                                     activityCount: nat)

  /** The member activities that use any system. */
  ghost function UsersIn(ix: Index, edges: seq<GraphEdge>, j: Id): set<Id> {
    set a | a in Members(ix, edges, j) && SystemsOf(ix, edges, a) != {}
  }

  ghost predicate IsSingleSystemEntry(nodes: seq<GraphNode>, edges: seq<GraphEdge>, ix: Index, e: SingleSystemJourney) {
    && SystemsOfJourney(ix, edges, e.journeyId) == {e.system.id}
    && e.activityCount == |UsersIn(ix, edges, e.journeyId)|
    && e.journeyName == NameIn(NameTable(nodes), e.journeyId)
    && e.system == RefOf(NameTable(nodes), e.system.id)
  }

  ghost function SingleSystemJourneys(ix: Index, edges: seq<GraphEdge>, among: set<Id>): set<Id> {
    set j | j in among && |SystemsOfJourney(ix, edges, j)| == 1
  }

  /** One entry for every journey that uses exactly one system, and nothing else. */
  ghost predicate IsSingleSystemReport(nodes: seq<GraphNode>, edges: seq<GraphEdge>, ix: Index, among: set<Id>,
                                       entries: seq<SingleSystemJourney>) {
    && (forall e :: e in entries ==> IsSingleSystemEntry(nodes, edges, ix, e))
    && |entries| == |SingleSystemJourneys(ix, edges, among)|
    && (forall j :: j in SingleSystemJourneys(ix, edges, among) ==> HasEntry(entries, j))
  }

  ghost predicate HasEntry(entries: seq<SingleSystemJourney>, j: Id) {
    exists e :: e in entries && e.journeyId == j
  }

  ghost predicate InJourney(t: Tables, a: Id, j: Id) {
    JourneyEntry(t.journeyByActivity, a) == Some(j)
  }

  ghost predicate UsedIn(t: Tables, done: set<Id>, j: Id, s: Id) {
    exists a :: a in done && InJourney(t, a, j) && s in Entry(t.systemsByActivity, a)
  }

  ghost function UsersAmong(t: Tables, done: set<Id>, j: Id): set<Id> {
    set a | a in done && InJourney(t, a, j) && Entry(t.systemsByActivity, a) != {}
  }

  /** The two tables filled per journey: its systems, and how many of its activities use one. */
  ghost predicate IsUsage(systems: map<Id, set<Id>>, uses: map<Id, nat>, t: Tables, done: set<Id>) {
    SystemsAre(systems, t, done) && UsesAre(uses, t, done) && uses.Keys == systems.Keys
  }

  ghost predicate SystemsAre(systems: map<Id, set<Id>>, t: Tables, done: set<Id>) {
    forall j, s :: s in Entry(systems, j) <==> UsedIn(t, done, j, s)
  }

  ghost predicate UsesAre(uses: map<Id, nat>, t: Tables, done: set<Id>) {
    forall j :: CountIn(uses, j) == |UsersAmong(t, done, j)|
  }

  function CountIn(uses: map<Id, nat>, j: Id): nat {
    if j in uses then uses[j] else 0
  }

  lemma {:induction false} UsedInGrows(t: Tables, done: set<Id>, a: Id)
    ensures forall j, s :: UsedIn(t, done + {a}, j, s) <==>
              UsedIn(t, done, j, s) || (InJourney(t, a, j) && s in Entry(t.systemsByActivity, a))
  {
  }

  lemma {:induction false} UsersGrow(t: Tables, done: set<Id>, a: Id, j: Id)
    requires a !in done
    ensures |UsersAmong(t, done + {a}, j)| ==
            |UsersAmong(t, done, j)| + if InJourney(t, a, j) && Entry(t.systemsByActivity, a) != {} then 1 else 0
  {
    var before := UsersAmong(t, done, j);
    assert UsersAmong(t, done + {a}, j) ==
           if InJourney(t, a, j) && Entry(t.systemsByActivity, a) != {} then before + {a} else before;
  }

  lemma {:induction false} SystemsAdded(t: Tables, done: set<Id>, a: Id, systems: map<Id, set<Id>>)
    requires SystemsAre(systems, t, done) && a in t.journeyByActivity
    ensures
      var j, sysSet := t.journeyByActivity[a], Entry(t.systemsByActivity, a);
      SystemsAre(if sysSet == {} then systems else systems[j := Entry(systems, j) + sysSet], t, done + {a})
  {
    UsedInGrows(t, done, a);
  }

  lemma {:induction false} UsesAdded(t: Tables, done: set<Id>, a: Id, uses: map<Id, nat>)
    requires UsesAre(uses, t, done) && a in t.journeyByActivity && a !in done
    ensures
      var j, sysSet := t.journeyByActivity[a], Entry(t.systemsByActivity, a);
      UsesAre(if sysSet == {} then uses else uses[j := CountIn(uses, j) + 1], t, done + {a})
  {
    var j, sysSet := t.journeyByActivity[a], Entry(t.systemsByActivity, a);
    var uses' := if sysSet == {} then uses else uses[j := CountIn(uses, j) + 1];
    forall k
      ensures CountIn(uses', k) == |UsersAmong(t, done + {a}, k)|
    {
      UsersGrow(t, done, a, k);
    }
  }

  method AddUsage(t: Tables, ghost done: set<Id>, a: Id, systems: map<Id, set<Id>>, uses: map<Id, nat>)
    returns (systems': map<Id, set<Id>>, uses': map<Id, nat>)
    requires IsUsage(systems, uses, t, done) && a in t.journeyByActivity && a !in done
    ensures IsUsage(systems', uses', t, done + {a})
  {
    systems', uses' := systems, uses;
    var j := t.journeyByActivity[a];
    var sysSet := Entry(t.systemsByActivity, a);
    if sysSet != {} {
      systems' := systems[j := Entry(systems, j) + sysSet];
      uses' := uses[j := CountIn(uses, j) + 1];
    }
    SystemsAdded(t, done, a, systems);
    UsesAdded(t, done, a, uses);
  }

  method CollectUsage(t: Tables) returns (systemsByJourney: map<Id, set<Id>>, activityUseByJourney: map<Id, nat>)
    ensures IsUsage(systemsByJourney, activityUseByJourney, t, t.journeyByActivity.Keys)
  {
    systemsByJourney, activityUseByJourney := map[], map[];
    var todo := t.journeyByActivity.Keys;
    ghost var done: set<Id> := {};
    while todo != {}
      invariant todo + done == t.journeyByActivity.Keys && todo !! done
      invariant IsUsage(systemsByJourney, activityUseByJourney, t, done)
      decreases todo
    {
      var a :| a in todo;
      systemsByJourney, activityUseByJourney := AddUsage(t, done, a, systemsByJourney, activityUseByJourney);
      todo, done := todo - {a}, done + {a};
    }
  }

  /** In terms of the index: the per-journey tables are the journey's systems and users. */
  lemma {:induction false} UsageOfJourney(systems: map<Id, set<Id>>, uses: map<Id, nat>, t: Tables, ix: Index,
                                          edges: seq<GraphEdge>, j: Id)
    requires IsTables(t, ix, edges) && IsUsage(systems, uses, t, t.journeyByActivity.Keys)
    ensures Entry(systems, j) == SystemsOfJourney(ix, edges, j)
    ensures CountIn(uses, j) == |UsersIn(ix, edges, j)|
  {
    forall a
      ensures a in Members(ix, edges, j) <==> a in t.journeyByActivity.Keys && InJourney(t, a, j)
      ensures Entry(t.systemsByActivity, a) == SystemsOf(ix, edges, a)
    {
      assert JourneyEntry(t.journeyByActivity, a) == JourneyOf(ix.acts, ix.journeys, edges, a);
    }
    forall s
      ensures s in Entry(systems, j) <==> s in SystemsOfJourney(ix, edges, j)
    {
      assert s in Entry(systems, j) <==> UsedIn(t, t.journeyByActivity.Keys, j, s);
    }
    assert UsersAmong(t, t.journeyByActivity.Keys, j) == UsersIn(ix, edges, j);
  }

  /** The entry of a journey, when it uses exactly one system. */
  method ReportOne(nameById: map<Id, string>, systems: map<Id, set<Id>>, uses: map<Id, nat>, j: Id, ghost ix: Index,
                   ghost t: Tables, ghost nodes: seq<GraphNode>, ghost edges: seq<GraphEdge>)
    returns (entry: Option<SingleSystemJourney>)
    requires nameById == NameTable(nodes) && IsTables(t, ix, edges) && j in systems
    requires IsUsage(systems, uses, t, t.journeyByActivity.Keys)
    ensures entry.Some? <==> |SystemsOfJourney(ix, edges, j)| == 1
    ensures entry.Some? ==> entry.value.journeyId == j && IsSingleSystemEntry(nodes, edges, ix, entry.value)
  {
    UsageOfJourney(systems, uses, t, ix, edges, j);
    if |systems[j]| != 1 {
      return None;
    }
    var systemId := TheElement(systems[j]);
    entry := Some(SingleSystemJourney(j, NameIn(nameById, j), RefOf(nameById, systemId), CountIn(uses, j)));
  }

  lemma {:induction false} HandOver(todo: set<Id>, done: set<Id>, x: Id)
    requires todo !! done && x in todo
    ensures (todo - {x}) + (done + {x}) == todo + done && (todo - {x}) !! (done + {x})
  {
  }

  method ReportJourneys(nameById: map<Id, string>, systems: map<Id, set<Id>>, uses: map<Id, nat>, ghost ix: Index,
                        ghost t: Tables, ghost nodes: seq<GraphNode>, ghost edges: seq<GraphEdge>)
    returns (entries: seq<SingleSystemJourney>)
    requires nameById == NameTable(nodes) && IsTables(t, ix, edges)
    requires IsUsage(systems, uses, t, t.journeyByActivity.Keys)
    ensures IsSingleSystemReport(nodes, edges, ix, systems.Keys, entries)
  {
    entries := [];
    var todo := systems.Keys;
    ghost var done: set<Id> := {};
    while todo != {}
      invariant todo + done == systems.Keys && todo !! done
      invariant IsSingleSystemReport(nodes, edges, ix, done, entries)
      decreases todo
    {
      var j :| j in todo;
      var e := ReportOne(nameById, systems, uses, j, ix, t, nodes, edges);
      if e.Some? {
        ReportGrows(nodes, edges, ix, done, entries, e.value);
        entries := entries + [e.value];
      } else {
        ReportKeeps(nodes, edges, ix, done, j, entries);
      }
      HandOver(todo, done, j);
      todo, done := todo - {j}, done + {j};
    }
  }

  lemma {:induction false} ReportKeeps(nodes: seq<GraphNode>, edges: seq<GraphEdge>, ix: Index, done: set<Id>, j: Id,
                                       entries: seq<SingleSystemJourney>)
    requires IsSingleSystemReport(nodes, edges, ix, done, entries)
    requires |SystemsOfJourney(ix, edges, j)| != 1
    ensures IsSingleSystemReport(nodes, edges, ix, done + {j}, entries)
  {
    assert SingleSystemJourneys(ix, edges, done + {j}) == SingleSystemJourneys(ix, edges, done);
  }

  lemma {:induction false} ReportGrows(nodes: seq<GraphNode>, edges: seq<GraphEdge>, ix: Index, done: set<Id>,
                                       entries: seq<SingleSystemJourney>, e: SingleSystemJourney)
    requires IsSingleSystemReport(nodes, edges, ix, done, entries) && e.journeyId !in done
    requires |SystemsOfJourney(ix, edges, e.journeyId)| == 1 && IsSingleSystemEntry(nodes, edges, ix, e)
    ensures IsSingleSystemReport(nodes, edges, ix, done + {e.journeyId}, entries + [e])
  {
    var j, before := e.journeyId, SingleSystemJourneys(ix, edges, done);
    assert SingleSystemJourneys(ix, edges, done + {j}) == before + {j};
    EntriesGrow(entries, e, before);
  }

  lemma {:induction false} EntriesGrow(entries: seq<SingleSystemJourney>, e: SingleSystemJourney, known: set<Id>)
    requires forall k :: k in known ==> HasEntry(entries, k)
    ensures forall k :: k in known + {e.journeyId} ==> HasEntry(entries + [e], k)
    ensures forall f :: f in entries + [e] <==> f in entries || f == e
  {
  }

  method ComputeSingleSystem(nodes: seq<GraphNode>, edges: seq<GraphEdge>, collate: (string, string) -> bool)
    returns (journeys: seq<SingleSystemJourney>, ix: Index)
    ensures IsIndex(ix, nodes) && IsSingleSystemReport(nodes, edges, ix, ix.journeys, journeys)
    ensures TotalPreorder(collate) ==> forall i, j :: 0 <= i < j < |journeys| ==>
              && journeys[i].activityCount >= journeys[j].activityCount
              && (journeys[i].activityCount == journeys[j].activityCount ==>
                    collate(journeys[i].journeyName, journeys[j].journeyName))
  {
    var nameById, ix', journeyIds := IndexNodes(nodes);
    ix := ix';
    var t := ScanEdges(ix, edges);
    var systems, uses := CollectUsage(t);
    var unsorted := ReportJourneys(nameById, systems, uses, ix, t, nodes, edges);
    AllJourneysCovered(systems, uses, t, ix, edges);
    journeys := SortBy(ByUse(collate), unsorted);
    SortIs(ByUse(collate), unsorted);
    forall j | j in SingleSystemJourneys(ix, edges, ix.journeys)
      ensures HasEntry(journeys, j)
    {
      var e :| e in unsorted && e.journeyId == j;
      assert e in journeys;
    }
    if TotalPreorder(collate) {
      ByUseOrder(collate);
      BusiestComeFirst(collate, journeys);
    }
  }

  /** Looking only at journeys with a table entry misses none that uses one system. */
  lemma {:induction false} AllJourneysCovered(systems: map<Id, set<Id>>, uses: map<Id, nat>, t: Tables, ix: Index,
                                              edges: seq<GraphEdge>)
    requires IsTables(t, ix, edges) && IsUsage(systems, uses, t, t.journeyByActivity.Keys)
    ensures SingleSystemJourneys(ix, edges, systems.Keys) == SingleSystemJourneys(ix, edges, ix.journeys)
  {
    forall j | |SystemsOfJourney(ix, edges, j)| == 1
      ensures j in systems && j in ix.journeys
    {
      UsageOfJourney(systems, uses, t, ix, edges, j);
      assert SystemsOfJourney(ix, edges, j) != {};
      var a :| a in Members(ix, edges, j);
      JourneyIsKnown(ix, edges, a);
    }
  }

  lemma {:induction false} JourneyIsKnown(ix: Index, edges: seq<GraphEdge>, a: Id)
    ensures var j := JourneyOf(ix.acts, ix.journeys, edges, a); j.Some? ==> j.value in ix.journeys
  {
    if edges != [] {
      JourneyIsKnown(ix, edges[..|edges| - 1], a);
    }
  }

  function ByUse(collate: (string, string) -> bool): (SingleSystemJourney, SingleSystemJourney) -> bool {
    (x, y) => BusierFirst(collate, x, y)
  }

  lemma {:induction false} ByUseOrder(collate: (string, string) -> bool)
    requires TotalPreorder(collate)
    ensures TotalPreorder(ByUse(collate))
  {
  }

  /** The busiest journeys come first, and equally busy ones by name. */
  lemma {:induction false} BusiestComeFirst(collate: (string, string) -> bool, journeys: seq<SingleSystemJourney>)
    requires Sorted(ByUse(collate), journeys)
    ensures forall i, j :: 0 <= i < j < |journeys| ==>
              && journeys[i].activityCount >= journeys[j].activityCount
              && (journeys[i].activityCount == journeys[j].activityCount ==>
                    collate(journeys[i].journeyName, journeys[j].journeyName))
  {
    forall i, j | 0 <= i < j < |journeys|
      ensures BusierFirst(collate, journeys[i], journeys[j])
    {
      assert ByUse(collate)(journeys[i], journeys[j]);
    }
  }

  predicate BusierFirst(collate: (string, string) -> bool, x: SingleSystemJourney, y: SingleSystemJourney) {
    x.activityCount > y.activityCount || (x.activityCount == y.activityCount && collate(x.journeyName, y.journeyName))
  }

  method TheElement(s: set<Id>) returns (x: Id)
    requires |s| == 1
    ensures s == {x}
  {
    x :| x in s;
    assert |s - {x}| == 0;
    assert s == {x};
  }

  // ---------- consolidation candidates ----------

  const CONSOLIDATION_MIN_SYSTEMS := 2

  datatype Candidate = Candidate(
    activityId: Id, activityName: string, systems: seq<Ref>, systemCount: nat, journey: Option<Ref>)

  function RefIdSet(refs: seq<Ref>): set<Id> {
    set r | r in refs :: r.id
  }

  ghost predicate IsCandidate(nodes: seq<GraphNode>, edges: seq<GraphEdge>, ix: Index, c: Candidate) {
    var names := NameTable(nodes);
    && c.systemCount == |SystemsOf(ix, edges, c.activityId)| >= CONSOLIDATION_MIN_SYSTEMS
    && RefIdSet(c.systems) == SystemsOf(ix, edges, c.activityId)
    && |c.systems| == c.systemCount
    && (forall r :: r in c.systems ==> r == RefOf(names, r.id))
    && c.activityName == NameIn(names, c.activityId)
    && c.journey == match JourneyOf(ix.acts, ix.journeys, edges, c.activityId) {
         case None => None
         case Some(j) => Some(RefOf(names, j))
       }
  }

  ghost function Overlapping(ix: Index, edges: seq<GraphEdge>, among: set<Id>): set<Id> {
    set a | a in among && |SystemsOf(ix, edges, a)| >= CONSOLIDATION_MIN_SYSTEMS
  }

  ghost predicate HasCandidate(candidates: seq<Candidate>, a: Id) {
    exists c :: c in candidates && c.activityId == a
  }

  /** One candidate for every activity that uses two systems or more, and nothing else. */
  ghost predicate IsConsolidation(nodes: seq<GraphNode>, edges: seq<GraphEdge>, ix: Index, among: set<Id>,
                                  candidates: seq<Candidate>) {
    && (forall c :: c in candidates ==> IsCandidate(nodes, edges, ix, c))
    && |candidates| == |Overlapping(ix, edges, among)|
    && (forall a :: a in Overlapping(ix, edges, among) ==> HasCandidate(candidates, a))
  }

  /** Every id once, with its name. */
  ghost predicate ListsRefs(names: map<Id, string>, ids: set<Id>, refs: seq<Ref>) {
    RefIdSet(refs) == ids && |refs| == |ids| && forall r :: r in refs ==> r == RefOf(names, r.id)
  }

  /** Two systems are enough, and one is not. */
  lemma {:induction false} TwoSystemsOverlap(ix: Index, edges: seq<GraphEdge>, a: Id)
    ensures a in Overlapping(ix, edges, ix.acts) <==>
              a in ix.acts && exists s, s' :: s != s' && s in SystemsOf(ix, edges, a) && s' in SystemsOf(ix, edges, a)
  {
    var systems := SystemsOf(ix, edges, a);
    if a in Overlapping(ix, edges, ix.acts) {
      var s :| s in systems;
      assert |systems - {s}| == |systems| - 1;
      var s' :| s' in systems - {s};
    }
    if s, s' :| s != s' && s in systems && s' in systems {
      assert {s, s'} <= systems;
      SubsetSize({s, s'}, systems);
    }
  }

  lemma {:induction false} SubsetSize(a: set<Id>, b: set<Id>)
    requires a <= b
    ensures |a| <= |b|
  {
    assert a + (b - a) == b;
  }

  method RefsSortedByName(names: map<Id, string>, ids: set<Id>, collate: (string, string) -> bool)
    returns (refs: seq<Ref>)
    ensures RefIdSet(refs) == ids && |refs| == |ids|
    ensures forall r :: r in refs ==> r == RefOf(names, r.id)
    ensures TotalPreorder(collate) ==> InNameOrder(collate, refs)
  {
    var unsorted := RefsInSomeOrder(names, ids);
    refs := SortBy(ByName(collate), unsorted);
    SortIs(ByName(collate), unsorted);
    assert RefIdSet(refs) == RefIdSet(unsorted);
    if TotalPreorder(collate) {
      ByNameOrder(collate);
      assert forall i, j :: 0 <= i < j < |refs| ==> ByName(collate)(refs[i], refs[j]);
    }
  }

  method RefsInSomeOrder(names: map<Id, string>, ids: set<Id>) returns (unsorted: seq<Ref>)
    ensures ListsRefs(names, ids, unsorted)
  {
    unsorted := [];
    var todo, done: set<Id> := ids, {};
    while todo != {}
      invariant todo + done == ids && todo !! done
      invariant ListsRefs(names, done, unsorted)
      decreases todo
    {
      var id :| id in todo;
      OneMoreRef(names, done, unsorted, id);
      unsorted := unsorted + [RefOf(names, id)];
      HandOver(todo, done, id);
      todo, done := todo - {id}, done + {id};
    }
  }

  lemma {:induction false} OneMoreRef(names: map<Id, string>, ids: set<Id>, refs: seq<Ref>, id: Id)
    requires ListsRefs(names, ids, refs) && id !in ids
    ensures ListsRefs(names, ids + {id}, refs + [RefOf(names, id)])
  {
  }

  ghost predicate InNameOrder(collate: (string, string) -> bool, refs: seq<Ref>) {
    forall i, j :: 0 <= i < j < |refs| ==> collate(refs[i].name, refs[j].name)
  }

  predicate NameLe(collate: (string, string) -> bool, x: Ref, y: Ref) {
    collate(x.name, y.name)
  }

  function ByName(collate: (string, string) -> bool): (Ref, Ref) -> bool {
    (x, y) => NameLe(collate, x, y)
  }

  lemma {:induction false} ByNameOrder(collate: (string, string) -> bool)
    requires TotalPreorder(collate)
    ensures TotalPreorder(ByName(collate))
  {
  }

  method CandidateOf(nameById: map<Id, string>, t: Tables, a: Id, collate: (string, string) -> bool, ghost ix: Index,
                     ghost nodes: seq<GraphNode>, ghost edges: seq<GraphEdge>)
    returns (candidate: Option<Candidate>)
    requires nameById == NameTable(nodes) && IsTables(t, ix, edges) && a in t.systemsByActivity
    ensures candidate.Some? <==> |SystemsOf(ix, edges, a)| >= CONSOLIDATION_MIN_SYSTEMS
    ensures candidate.Some? ==> candidate.value.activityId == a && IsCandidate(nodes, edges, ix, candidate.value)
    ensures candidate.Some? && TotalPreorder(collate) ==> InNameOrder(collate, candidate.value.systems)
  {
    var sysSet := t.systemsByActivity[a];
    assert Entry(t.systemsByActivity, a) == SystemsOf(ix, edges, a);
    assert JourneyEntry(t.journeyByActivity, a) == JourneyOf(ix.acts, ix.journeys, edges, a);
    if |sysSet| < CONSOLIDATION_MIN_SYSTEMS {
      return None;
    }
    var systems := RefsSortedByName(nameById, sysSet, collate);
    var journey := if a in t.journeyByActivity then Some(RefOf(nameById, t.journeyByActivity[a])) else None;
    candidate := Some(Candidate(a, NameIn(nameById, a), systems, |systems|, journey));
  }

  /** Each candidate lists its systems by name. */
  ghost predicate SystemsByName(collate: (string, string) -> bool, candidates: seq<Candidate>) {
    forall c :: c in candidates ==> InNameOrder(collate, c.systems)
  }

  method ComputeConsolidation(nodes: seq<GraphNode>, edges: seq<GraphEdge>, collate: (string, string) -> bool)
    returns (candidates: seq<Candidate>, ix: Index)
    ensures IsIndex(ix, nodes) && IsConsolidation(nodes, edges, ix, ix.acts, candidates)
    ensures TotalPreorder(collate) ==> forall i, j :: 0 <= i < j < |candidates| ==>
              && candidates[i].systemCount >= candidates[j].systemCount
              && (candidates[i].systemCount == candidates[j].systemCount ==>
                    collate(candidates[i].activityName, candidates[j].activityName))
    ensures TotalPreorder(collate) ==> SystemsByName(collate, candidates)
  {
    var nameById, ix', journeyIds := IndexNodes(nodes);
    ix := ix';
    var t := ScanEdges(ix, edges);
    var unsorted := ListCandidates(nameById, t, collate, ix, nodes, edges);
    AllOverlapsCovered(t, ix, edges);
    candidates := SortCandidates(unsorted, collate, nodes, edges, ix);
  }

  /** The loop of the report, over every activity with a table entry. */
  method ListCandidates(nameById: map<Id, string>, t: Tables, collate: (string, string) -> bool, ghost ix: Index,
                        ghost nodes: seq<GraphNode>, ghost edges: seq<GraphEdge>)
    returns (unsorted: seq<Candidate>)
    requires nameById == NameTable(nodes) && IsTables(t, ix, edges)
    ensures IsConsolidation(nodes, edges, ix, t.systemsByActivity.Keys, unsorted)
    ensures TotalPreorder(collate) ==> SystemsByName(collate, unsorted)
  {
    unsorted := [];
    var todo := t.systemsByActivity.Keys;
    ghost var done: set<Id> := {};
    while todo != {}
      invariant todo + done == t.systemsByActivity.Keys && todo !! done
      invariant IsConsolidation(nodes, edges, ix, done, unsorted)
      invariant TotalPreorder(collate) ==> SystemsByName(collate, unsorted)
      decreases todo
    {
      var a :| a in todo;
      var c := CandidateOf(nameById, t, a, collate, ix, nodes, edges);
      CandidatesGrow(nodes, edges, ix, done, a, unsorted, c);
      if c.Some? {
        unsorted := unsorted + [c.value];
      }
      HandOver(todo, done, a);
      todo, done := todo - {a}, done + {a};
    }
  }

  method SortCandidates(unsorted: seq<Candidate>, collate: (string, string) -> bool, ghost nodes: seq<GraphNode>,
                        ghost edges: seq<GraphEdge>, ghost ix: Index)
    returns (candidates: seq<Candidate>)
    requires IsConsolidation(nodes, edges, ix, ix.acts, unsorted)
    ensures IsConsolidation(nodes, edges, ix, ix.acts, candidates)
    ensures TotalPreorder(collate) ==> forall i, j :: 0 <= i < j < |candidates| ==>
              && candidates[i].systemCount >= candidates[j].systemCount
              && (candidates[i].systemCount == candidates[j].systemCount ==>
                    collate(candidates[i].activityName, candidates[j].activityName))
    ensures SystemsByName(collate, unsorted) ==> SystemsByName(collate, candidates)
  {
    candidates := SortBy(BySystemCount(collate), unsorted);
    SortIs(BySystemCount(collate), unsorted);
    forall a | a in Overlapping(ix, edges, ix.acts)
      ensures HasCandidate(candidates, a)
    {
      var c :| c in unsorted && c.activityId == a;
      assert c in candidates;
    }
    if TotalPreorder(collate) {
      BySystemCountOrder(collate);
      MostOverlappingComeFirst(collate, candidates);
    }
  }

  /** The activities with most systems come first, and those with equally many by name. */
  lemma {:induction false} MostOverlappingComeFirst(collate: (string, string) -> bool, candidates: seq<Candidate>)
    requires Sorted(BySystemCount(collate), candidates)
    ensures forall i, j :: 0 <= i < j < |candidates| ==>
              && candidates[i].systemCount >= candidates[j].systemCount
              && (candidates[i].systemCount == candidates[j].systemCount ==>
                    collate(candidates[i].activityName, candidates[j].activityName))
  {
    forall i, j | 0 <= i < j < |candidates|
      ensures MoreSystems(collate, candidates[i], candidates[j])
    {
      assert BySystemCount(collate)(candidates[i], candidates[j]);
    }
  }

  predicate MoreSystems(collate: (string, string) -> bool, x: Candidate, y: Candidate) {
    x.systemCount > y.systemCount || (x.systemCount == y.systemCount && collate(x.activityName, y.activityName))
  }

  function BySystemCount(collate: (string, string) -> bool): (Candidate, Candidate) -> bool {
    (x, y) => MoreSystems(collate, x, y)
  }

  lemma {:induction false} BySystemCountOrder(collate: (string, string) -> bool)
    requires TotalPreorder(collate)
    ensures TotalPreorder(BySystemCount(collate))
  {
  }

  lemma {:induction false} CandidatesGrow(nodes: seq<GraphNode>, edges: seq<GraphEdge>, ix: Index, done: set<Id>, a: Id,
                                          candidates: seq<Candidate>, candidate: Option<Candidate>)
    requires IsConsolidation(nodes, edges, ix, done, candidates) && a !in done
    requires candidate.Some? <==> |SystemsOf(ix, edges, a)| >= CONSOLIDATION_MIN_SYSTEMS
    requires candidate.Some? ==> candidate.value.activityId == a && IsCandidate(nodes, edges, ix, candidate.value)
    ensures IsConsolidation(nodes, edges, ix, done + {a},
                            if candidate.Some? then candidates + [candidate.value] else candidates)
  {
    OverlappingGrows(ix, edges, done, a);
    if candidate.Some? {
      CandidateAdded(nodes, edges, ix, done, candidates, candidate.value);
    }
  }

  lemma {:induction false} CandidateAdded(nodes: seq<GraphNode>, edges: seq<GraphEdge>, ix: Index, done: set<Id>,
                                          candidates: seq<Candidate>, added: Candidate)
    requires IsConsolidation(nodes, edges, ix, done, candidates) && added.activityId !in done
    requires IsCandidate(nodes, edges, ix, added)
    ensures IsConsolidation(nodes, edges, ix, done + {added.activityId}, candidates + [added])
  {
    var before, a := Overlapping(ix, edges, done), added.activityId;
    OverlappingGrows(ix, edges, done, a);
    assert Overlapping(ix, edges, done + {a}) == before + {a};
    OneMoreCandidate(candidates, added);
    forall b | b in before || b == a
      ensures HasCandidate(candidates + [added], b)
    {
      HasCandidateGrows(candidates, added, b);
    }
  }

  lemma {:induction false} OverlappingGrows(ix: Index, edges: seq<GraphEdge>, done: set<Id>, a: Id)
    ensures Overlapping(ix, edges, done + {a}) ==
            Overlapping(ix, edges, done) + if |SystemsOf(ix, edges, a)| >= CONSOLIDATION_MIN_SYSTEMS then {a} else {}
  {
  }

  lemma {:induction false} OneMoreCandidate(candidates: seq<Candidate>, added: Candidate)
    ensures forall c :: c in candidates + [added] <==> c in candidates || c == added
  {
  }

  lemma {:induction false} HasCandidateGrows(candidates: seq<Candidate>, c: Candidate, b: Id)
    requires HasCandidate(candidates, b) || c.activityId == b
    ensures HasCandidate(candidates + [c], b)
  {
  }

  lemma {:induction false} AllOverlapsCovered(t: Tables, ix: Index, edges: seq<GraphEdge>)
    requires IsTables(t, ix, edges)
    ensures Overlapping(ix, edges, t.systemsByActivity.Keys) == Overlapping(ix, edges, ix.acts)
  {
  }
}
