/**
 pwa/src/route.ts:18-234: the shipped surfaces, virtual tabs and aliases, and the
 proof that they are well formed, so that every theorem of HashRoute applies to them.
 */
module RouteCatalogue {
  import opened Text
  import opened Wrappers
  import opened HashRoute

  // The tab lists, in short runs so that each is checked on its own.
  const BROWSE := ["domains", "journeys", "activities", "roles"]
  const PLACES := ["systems", "locations", "path-finder"]
  const CURATE := ["review", "add", "quarterly"]
  const MODELLING := ["models", "canvas", "stories"]
  const IMPACT := ["key-activities", "kpi-impact", "systems", "export"]
  const ANALYSIS := ["overview", "systems", "matrix", "complexity", "context-alignment"]
  const REPORTS := ["consolidation", "single-system", "critical-paths", "ai", "exec-summary"]
  const BUSINESS := ["finance", "people", "transform", "performance"]
  const OPERATIONS := ["functions", "metrics", "funnels", "benchmarks", "operator"]
  const TARGETS := ["kpi-management", "okr-management", "roll-down", "roll-down-analytics"]
  const CONTROL := ["risk", "compliance", "programs"]
  const SCHEMA := ["catalog", "erd", "editor", "edges"]
  const HISTORY := ["versions", "audit", "glossary", "generator"]
  const EXCHANGE := ["map", "import", "export", "endpoints", "errors"]
  const SETUP := ["personas", "rbac-roles", "users", "platform", "settings"]

  const EXPLORER := Surface("explorer", BROWSE + PLACES + CURATE)
  const MODEL := Surface("model", MODELLING + IMPACT)
  const INSIGHTS := Surface("insights", ANALYSIS + REPORTS + BUSINESS + OPERATIONS)
  const GOVERN := Surface("govern", TARGETS + CONTROL)
  const ONTOLOGY := Surface("ontology", SCHEMA + HISTORY)
  const DATA := Surface("data", EXCHANGE)
  const ADMIN := Surface("admin", SETUP)

  const SURFACES := [EXPLORER, MODEL, INSIGHTS, GOVERN, ONTOLOGY, DATA, ADMIN]

  const VIRTUAL_TABS := map["explorer" := {"domain-detail", "product-detail"}]

  function TabRow(fromSurface: string, fromTab: string, toSurface: string, toTab: string): AliasRow {
    AliasRow(fromSurface, Some(fromTab), toSurface, toTab, NoTransform, false)
  }

  function BareRow(fromSurface: string, toSurface: string, toTab: string): AliasRow {
    AliasRow(fromSurface, None, toSurface, toTab, NoTransform, true)
  }

  const SME_ROWS := [
    TabRow("sme", "review", "explorer", "review"), TabRow("sme", "add", "explorer", "add"),
    TabRow("sme", "quarterly", "explorer", "quarterly"), TabRow("sme", "home", "admin", "settings")]

  const ANALYTICS_ROWS := [
    TabRow("analytics", "overview", "insights", "overview"), TabRow("analytics", "systems", "insights", "systems"),
    TabRow("analytics", "matrix", "insights", "matrix"),
    TabRow("analytics", "consolidation", "insights", "consolidation"),
    TabRow("analytics", "complexity", "insights", "complexity"),
    TabRow("analytics", "single-system", "insights", "single-system"),
    TabRow("analytics", "critical-paths", "insights", "critical-paths"), TabRow("analytics", "ai", "insights", "ai"),
    TabRow("analytics", "exec-summary", "insights", "exec-summary")]

  const API_ROWS := [
    TabRow("api", "endpoints", "data", "endpoints"), TabRow("api", "errors", "data", "errors"),
    TabRow("api", "import", "data", "import")]

  const EXEC_ROWS := [
    TabRow("exec", "ops", "admin", "platform"), TabRow("exec", "finance", "insights", "finance"),
    TabRow("exec", "people", "insights", "people"), TabRow("exec", "transform", "insights", "transform"),
    TabRow("exec", "risk", "govern", "risk"), TabRow("exec", "kpi-management", "govern", "kpi-management"),
    TabRow("exec", "okr-management", "govern", "okr-management"),
    TabRow("exec", "performance", "insights", "performance"), TabRow("exec", "operator", "insights", "operator")]

  const JOURNEY_ROWS := [
    AliasRow("explorer", Some("journey-detail"), "explorer", "journeys", JourneyDetail, false),
    AliasRow("explorer", Some("journey-graph"), "explorer", "journeys", JourneyGraph, false)]

  const BARE_ROWS := [
    BareRow("analytics", "insights", "overview"), BareRow("exec", "insights", "finance"),
    BareRow("sme", "explorer", "review"), BareRow("api", "data", "endpoints")]

  const ROUTE_ALIASES := SME_ROWS + ANALYTICS_ROWS + API_ROWS + EXEC_ROWS + JOURNEY_ROWS + BARE_ROWS

  const DEFAULT_ROUTE := Route("explorer", "domains", None, None, map[])

  const CATALOGUE := Catalogue(SURFACES, VIRTUAL_TABS, ROUTE_ALIASES, DEFAULT_ROUTE)

  // ---------- finding surfaces ----------

  lemma {:induction false} FindAt(surfaces: seq<Surface>, i: nat)
    requires i < |surfaces|
    requires forall j :: 0 <= j < i ==> surfaces[j].id != surfaces[i].id
    ensures FindSurface(surfaces, surfaces[i].id) == Some(surfaces[i])
    decreases i
  {
    if i > 0 {
      assert surfaces[0].id != surfaces[i].id;
      FindAt(surfaces[1..], i - 1);
    }
  }

  /** No two surfaces start with the same letter. */
  lemma {:induction false} Initials()
    ensures forall i, j :: 0 <= i < j < |SURFACES| ==> SURFACES[i].id != SURFACES[j].id
  {
  }

  lemma {:induction false} Found(i: nat)
    requires i < |SURFACES|
    ensures FindSurface(SURFACES, SURFACES[i].id) == Some(SURFACES[i])
  {
    Initials();
    FindAt(SURFACES, i);
  }

  // ---------- checking the tables ----------

  predicate AllClean(tabs: seq<string>) {
    forall t :: t in tabs ==> Clean(t)
  }

  predicate Lands(row: AliasRow) {
    RealTab(CATALOGUE, row.toSurface, row.toTab)
  }

  /**
   A row never starts at a virtual tab: it leaves another surface, or a tab of
   the explorer that no longer exists.
   */
  predicate Leaves(row: AliasRow) {
    || row.fromSurface != "explorer"
    || (!row.bareSurfaceDefault && row.fromTab.Some? && |row.fromTab.value| > 0 && row.fromTab.value[0] == 'j')
  }

  lemma {:induction false} LandsOn(i: nat, row: AliasRow)
    requires i < |SURFACES| && row.toSurface == SURFACES[i].id && row.toTab in SURFACES[i].tabs
    ensures Lands(row)
  {
    Found(i);
  }

  lemma {:induction false} SmeLands()
    ensures forall row :: row in SME_ROWS ==> Lands(row) && Leaves(row)
  {
    forall row | row in SME_ROWS ensures Lands(row) && Leaves(row) {
      assert |row.fromSurface| == 3;
      if row.toSurface == "admin" {
        assert row.toTab in SETUP;
        LandsOn(6, row);
      } else {
        assert row.toTab in CURATE;
        LandsOn(0, row);
      }
    }
  }

  lemma {:induction false} AnalyticsLands()
    ensures forall row :: row in ANALYTICS_ROWS ==> Lands(row) && Leaves(row)
  {
    forall row | row in ANALYTICS_ROWS ensures Lands(row) && Leaves(row) {
      assert |row.fromSurface| == 9;
      assert row.toTab in ANALYSIS || row.toTab in REPORTS;
      LandsOn(2, row);
    }
  }

  lemma {:induction false} ApiLands()
    ensures forall row :: row in API_ROWS ==> Lands(row) && Leaves(row)
  {
    forall row | row in API_ROWS ensures Lands(row) && Leaves(row) {
      assert |row.fromSurface| == 3;
      assert row.toTab in EXCHANGE;
      LandsOn(5, row);
    }
  }

  lemma {:induction false} ExecLands()
    ensures forall row :: row in EXEC_ROWS ==> Lands(row) && Leaves(row)
  {
    forall row | row in EXEC_ROWS ensures Lands(row) && Leaves(row) {
      assert |row.fromSurface| == 4;
      if row.toSurface == "admin" {
        assert row.toTab in SETUP;
        LandsOn(6, row);
      } else if row.toSurface == "govern" {
        assert row.toTab in TARGETS || row.toTab in CONTROL;
        LandsOn(3, row);
      } else {
        assert row.toTab in BUSINESS || row.toTab in OPERATIONS;
        LandsOn(2, row);
      }
    }
  }

  lemma {:induction false} JourneyLands()
    ensures forall row :: row in JOURNEY_ROWS ==> Lands(row) && Leaves(row)
  {
    forall row | row in JOURNEY_ROWS ensures Lands(row) && Leaves(row) {
      assert row.toTab in BROWSE;
      LandsOn(0, row);
    }
  }

  lemma {:induction false} BareLands()
    ensures forall row :: row in BARE_ROWS ==> Lands(row) && Leaves(row)
  {
    forall row | row in BARE_ROWS ensures Lands(row) && Leaves(row) {
      assert |row.fromSurface| != 8;
      if row.toSurface == "data" {
        assert row.toTab in EXCHANGE;
        LandsOn(5, row);
      } else if row.toSurface == "explorer" {
        assert row.toTab in CURATE;
        LandsOn(0, row);
      } else {
        assert row.toTab in ANALYSIS || row.toTab in BUSINESS;
        LandsOn(2, row);
      }
    }
  }

  predicate CleanSurface(s: Surface) {
    |s.tabs| >= 1 && Clean(s.id) && AllClean(s.tabs)
  }

  lemma {:induction false} BrowseIsClean()
    ensures AllClean(BROWSE)
  {
  }

  lemma {:induction false} PlacesAreClean()
    ensures AllClean(PLACES)
  {
  }

  lemma {:induction false} CurateIsClean()
    ensures AllClean(CURATE)
  {
  }

  lemma {:induction false} ExplorerIsClean()
    ensures CleanSurface(EXPLORER)
  {
    BrowseIsClean();
    PlacesAreClean();
    CurateIsClean();
  }

  lemma {:induction false} ModellingIsClean()
    ensures AllClean(MODELLING)
  {
  }

  lemma {:induction false} ImpactIsClean()
    ensures AllClean(IMPACT)
  {
  }

  lemma {:induction false} ModelIsClean()
    ensures CleanSurface(MODEL)
  {
    ModellingIsClean();
    ImpactIsClean();
  }

  lemma {:induction false} AnalysisIsClean()
    ensures AllClean(ANALYSIS)
  {
  }

  lemma {:induction false} ReportsAreClean()
    ensures AllClean(REPORTS)
  {
  }

  lemma {:induction false} BusinessIsClean()
    ensures AllClean(BUSINESS)
  {
  }

  lemma {:induction false} OperationsAreClean()
    ensures AllClean(OPERATIONS)
  {
  }

  lemma {:induction false} InsightsIsClean()
    ensures CleanSurface(INSIGHTS)
  {
    AnalysisIsClean();
    ReportsAreClean();
    BusinessIsClean();
    OperationsAreClean();
  }

  lemma {:induction false} TargetsAreClean()
    ensures AllClean(TARGETS)
  {
  }

  lemma {:induction false} GovernIsClean()
    ensures CleanSurface(GOVERN)
  {
    TargetsAreClean();
    assert AllClean(CONTROL);
  }

  lemma {:induction false} SchemaIsClean()
    ensures AllClean(SCHEMA)
  {
  }

  lemma {:induction false} HistoryIsClean()
    ensures AllClean(HISTORY)
  {
  }

  lemma {:induction false} OntologyIsClean()
    ensures CleanSurface(ONTOLOGY)
  {
    SchemaIsClean();
    HistoryIsClean();
  }

  lemma {:induction false} DataIsClean()
    ensures CleanSurface(DATA)
  {
    assert AllClean(EXCHANGE);
  }

  lemma {:induction false} AdminIsClean()
    ensures CleanSurface(ADMIN)
  {
    assert AllClean(SETUP);
  }

  lemma {:induction false} SurfacesAreClean(s: Surface)
    requires s in SURFACES
    ensures CleanSurface(s)
  {
    ExplorerIsClean(); ModelIsClean(); InsightsIsClean(); GovernIsClean();
    OntologyIsClean(); DataIsClean(); AdminIsClean();
  }

  lemma {:induction false} AliasesLand(row: AliasRow)
    requires row in ROUTE_ALIASES
    ensures Lands(row) && Leaves(row)
  {
    SmeLands();
    AnalyticsLands();
    ApiLands();
    ExecLands();
    JourneyLands();
    BareLands();
  }

  lemma {:induction false} VirtualTabsAreKnown(s: string, t: string)
    requires VirtualTab(CATALOGUE, s, t)
    ensures s == "explorer" && Clean(t) && |t| > 0 && t[0] != 'j'
  {
    assert t == "domain-detail" || t == "product-detail";
  }

  /** The shipped catalogue is well formed. */
  lemma {:induction false} CatalogueIsWellFormed()
    ensures WellFormed(CATALOGUE)
  {
    forall s | s in CATALOGUE.surfaces
      ensures |s.tabs| >= 1 && Clean(s.id) && (forall t :: t in s.tabs ==> Clean(t))
    {
      SurfacesAreClean(s);
      assert AllClean(s.tabs);
    }
    forall s, t | VirtualTab(CATALOGUE, s, t) ensures Clean(t) {
      VirtualTabsAreKnown(s, t);
    }
    forall row | row in CATALOGUE.aliases ensures RealTab(CATALOGUE, row.toSurface, row.toTab) {
      AliasesLand(row);
    }
    forall row, s, t | row in CATALOGUE.aliases && VirtualTab(CATALOGUE, s, t) ensures !Matches(row, s, t) {
      VirtualTabsAreKnown(s, t);
      AliasesLand(row);
    }
    assert RealTab(CATALOGUE, "explorer", "domains") by {
      Found(0);
      assert "domains" in BROWSE;
    }
  }

  /** The guarantees of HashRoute, for the shipped tables. */
  lemma {:induction false} ShippedRouter(q: QueryCodec, hash: string, r: Route)
    requires Faithful(q)
    ensures Named(CATALOGUE, Parsed(q, CATALOGUE, hash).surface, Parsed(q, CATALOGUE, hash).tab)
    ensures Named(CATALOGUE, r.surface, r.tab) ==>
      (Parsed(q, CATALOGUE, HashOf(q, r)) == r <==>
       Survives(r) && r.entityId != Some("") && r.mode != Some(""))
    ensures Replacement(q, CATALOGUE, hash).Some? ==>
      (Parsed(q, CATALOGUE, Replacement(q, CATALOGUE, hash).value) == Parsed(q, CATALOGUE, hash) <==>
       Survives(Aliased(CATALOGUE, Written(q, hash))))
  {
    CatalogueIsWellFormed();
    ParsedIsNamed(q, CATALOGUE, hash);
    if Named(CATALOGUE, r.surface, r.tab) { RoundTrip(q, CATALOGUE, r); }
    if Replacement(q, CATALOGUE, hash).Some? { ReplacementAgrees(q, CATALOGUE, hash); }
  }

  /** A hash of an older release that named an entity of the review tab. */
  function OldReview(entity: string): string {
    "#/" + Join(["sme", "review", entity], "/")
  }

  lemma {:induction false} OldReviewReads(q: QueryCodec, entity: string)
    requires Clean(entity)
    ensures Written(q, OldReview(entity)) == Route("sme", "review", Some(entity), None, map[])
  {
    var segments := ["sme", "review", entity];
    var path := Join(segments, "/");
    assert Strip(OldReview(entity)) == path;
    assert Clean("sme") && Clean("review");
    JoinAvoids(segments, "/", '?');
    SplitWhole(path, '?');
    SplitUndoesJoin(segments, '/');
  }

  lemma {:induction false} ReviewMoves(w: Route)
    requires w.surface == "sme" && w.tab == "review"
    ensures Aliased(CATALOGUE, w) == w.(surface := "explorer", tab := "review")
  {
    var row := TabRow("sme", "review", "explorer", "review");
    assert ROUTE_ALIASES[0] == row;
    assert FirstRow(ROUTE_ALIASES, false, "sme", "review") == Some(row);
    assert !RealTab(CATALOGUE, "sme", "review");
  }

  /** The hash that replaces it gives the same route exactly when the entity needs no percent sign. */
  lemma {:induction false} MovedEntity(q: QueryCodec, entity: string)
    requires Faithful(q) && Clean(entity) && entity != ""
    ensures Replacement(q, CATALOGUE, OldReview(entity)).Some?
    ensures
      var canonical := Replacement(q, CATALOGUE, OldReview(entity)).value;
      Parsed(q, CATALOGUE, canonical) == Parsed(q, CATALOGUE, OldReview(entity)) <==> Plain(entity)
  {
    CatalogueIsWellFormed();
    OldReviewReads(q, entity);
    ReviewMoves(Written(q, OldReview(entity)));
    ReplacementAgrees(q, CATALOGUE, OldReview(entity));
  }

  /** `#/sme/review/a%20b` is read as one route and, once replaced, as another. */
  lemma {:induction false} MovedSpace(q: QueryCodec)
    requires Faithful(q)
    ensures
      var hash, moved := OldReview("a%20b"), Replacement(q, CATALOGUE, OldReview("a%20b"));
      moved.Some? && Parsed(q, CATALOGUE, moved.value) != Parsed(q, CATALOGUE, hash)
  {
    assert !Unreserved("a%20b"[1]);
    MovedEntity(q, "a%20b");
  }
}
