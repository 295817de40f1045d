/**
 pwa/src/route.ts: the hash router. `ToHash` prints a route, `ParseHash` reads a
 hash, and a table of aliases keeps the hashes of older releases working.
 Everything is proved for an arbitrary surface catalogue that is well formed;
 RouteCatalogue shows that the shipped one is.
 */
module HashRoute {
  import opened Text
  import opened Wrappers

  type Params = map<string, string>

  datatype Surface = Surface(id: string, tabs: seq<string>)

  datatype Transform = NoTransform | JourneyDetail | JourneyGraph

  datatype AliasRow = AliasRow(fromSurface: string, fromTab: Option<string>, toSurface: string, toTab: string,
                               transform: Transform, bareSurfaceDefault: bool)

  datatype Catalogue = Catalogue(surfaces: seq<Surface>, virtualTabs: map<string, set<string>>,
                                 aliases: seq<AliasRow>, home: Route)

  datatype Route = Route(surface: string, tab: string, entityId: Option<string>, mode: Option<string>,
                         params: Params)

  /** The platform's URLSearchParams, as a printer and an iterator of pairs. */
  datatype QueryCodec = QueryCodec(write: Params -> string, pairs: string -> seq<(string, string)>)

  /** JavaScript's truth test on a string that may be undefined. */
  predicate Truthy(o: Option<string>) {
    o.Some? && o.value != ""
  }

  // ---------- encodeURIComponent ----------

  predicate Unreserved(c: char) {
    'A' <= c <= 'Z' || 'a' <= c <= 'z' || '0' <= c <= '9' || c in "-_.!~*'()"
  }

  predicate Plain(s: string) {
    forall i :: 0 <= i < |s| ==> Unreserved(s[i])
  }

  function Hex(d: nat): (c: char)
    requires d < 16
    ensures Unreserved(c)
  {
    if d < 10 then '0' + d as char else 'A' + (d - 10) as char
  }

  function Octets(c: char): (os: seq<nat>)
    ensures |os| >= 1 && forall i :: 0 <= i < |os| ==> os[i] < 256
  {
    var n := c as int;
    if n < 0x80 then [n]
    else if n < 0x800 then [0xC0 + n / 64, 0x80 + n % 64]
    else if n < 0x10000 then [0xE0 + n / 4096, 0x80 + n / 64 % 64, 0x80 + n % 64]
    else [0xF0 + n / 262144, 0x80 + n / 4096 % 64, 0x80 + n / 64 % 64, 0x80 + n % 64]
  }

  function Percent(os: seq<nat>): string
    requires forall i :: 0 <= i < |os| ==> os[i] < 256
  {
    if os == [] then "" else ['%', Hex(os[0] / 16), Hex(os[0] % 16)] + Percent(os[1..])
  }

  /**
   encodeURIComponent: unreserved characters stand, the others become the
   percent-escaped octets of their UTF-8 form.
   */
  function Encode(s: string): string {
    if s == "" then ""
    else (if Unreserved(s[0]) then [s[0]] else Percent(Octets(s[0]))) + Encode(s[1..])
  }

  lemma {:induction false} PercentIsSafe(os: seq<nat>)
    requires forall i :: 0 <= i < |os| ==> os[i] < 256
    ensures '/' !in Percent(os) && '?' !in Percent(os)
    ensures |Percent(os)| == 3 * |os| && (os != [] ==> Percent(os)[0] == '%')
    decreases |os|
  {
    if os != [] {
      PercentIsSafe(os[1..]);
    }
  }

  /** An encoded component never splits a path and never starts the query. */
  lemma {:induction false} EncodeIsSafe(s: string)
    ensures '/' !in Encode(s) && '?' !in Encode(s)
    ensures |Encode(s)| >= |s|
    decreases |s|
  {
    if s != "" {
      EncodeIsSafe(s[1..]);
      PercentIsSafe(Octets(s[0]));
    }
  }

  /** Encoding leaves exactly the plain strings alone. */
  lemma {:induction false} EncodeFixesPlain(s: string)
    ensures Encode(s) == s <==> Plain(s)
    decreases |s|
  {
    if s != "" {
      EncodeFixesPlain(s[1..]);
      var head := if Unreserved(s[0]) then [s[0]] else Percent(Octets(s[0]));
      assert Encode(s) == head + Encode(s[1..]);
      if Unreserved(s[0]) {
        assert Encode(s)[1..] == Encode(s[1..]);
        assert [s[0]] + s[1..] == s;
        assert Plain(s) <==> Plain(s[1..]) by {
          assert forall i :: 0 <= i < |s| - 1 ==> s[1..][i] == s[i + 1];
          if Plain(s[1..]) {
            forall i | 0 <= i < |s| ensures Unreserved(s[i]) {
              if i > 0 { assert Unreserved(s[1..][i - 1]); }
            }
          }
        }
      } else {
        PercentIsSafe(Octets(s[0]));
        EncodeIsSafe(s[1..]);
        assert |Encode(s)| > |s|;
      }
    }
  }

  // ---------- the catalogue ----------

  function FindSurface(surfaces: seq<Surface>, id: string): (r: Option<Surface>)
    ensures r.Some? ==> r.value.id == id && r.value in surfaces
  {
    if surfaces == [] then None
    else if surfaces[0].id == id then Some(surfaces[0])
    else FindSurface(surfaces[1..], id)
  }

  predicate RealTab(cat: Catalogue, surface: string, tab: string) {
    var s := FindSurface(cat.surfaces, surface);
    s.Some? && tab in s.value.tabs
  }

  predicate VirtualTab(cat: Catalogue, surface: string, tab: string) {
    FindSurface(cat.surfaces, surface).Some? && surface in cat.virtualTabs && tab in cat.virtualTabs[surface]
  }

  predicate Named(cat: Catalogue, surface: string, tab: string) {
    RealTab(cat, surface, tab) || VirtualTab(cat, surface, tab)
  }

  predicate Clean(s: string) {
    '/' !in s && '?' !in s
  }

  predicate Matches(row: AliasRow, surface: string, tab: string) {
    row.fromSurface == surface && (row.bareSurfaceDefault || row.fromTab == Some(tab))
  }

  ghost predicate WellFormed(cat: Catalogue) {
    && (forall s :: s in cat.surfaces ==> |s.tabs| >= 1 && Clean(s.id) && (forall t :: t in s.tabs ==> Clean(t)))
    && (forall s, t :: VirtualTab(cat, s, t) ==> Clean(t))
    && (forall row :: row in cat.aliases ==> RealTab(cat, row.toSurface, row.toTab))
    && (forall row, s, t :: row in cat.aliases && VirtualTab(cat, s, t) ==> !Matches(row, s, t))
    && RealTab(cat, cat.home.surface, cat.home.tab)
  }

  // ---------- aliases ----------

  function Transformed(t: Transform, r: Route): Route {
    match t
    case NoTransform => r
    case JourneyDetail => r
    case JourneyGraph =>
      if Truthy(r.entityId) then r.(mode := Some("graph"), params := map[])
      else if "journey" in r.params && r.params["journey"] != "" then
        r.(entityId := Some(r.params["journey"]), mode := Some("graph"), params := map[])
      else r.(params := r.params["view" := "graph"])
  }

  /** The first row that matches, looking only at tab rows or only at bare rows. */
  function FirstRow(rows: seq<AliasRow>, bare: bool, surface: string, tab: string): (r: Option<AliasRow>)
    ensures r.Some? ==> r.value in rows && Matches(r.value, surface, tab)
    ensures r.None? ==> forall row :: row in rows && row.bareSurfaceDefault == bare ==> !Matches(row, surface, tab)
  {
    if rows == [] then None
    else if rows[0].bareSurfaceDefault == bare && Matches(rows[0], surface, tab) then Some(rows[0])
    else FirstRow(rows[1..], bare, surface, tab)
  }

  function Aliased(cat: Catalogue, r: Route): Route {
    if RealTab(cat, r.surface, r.tab) then r
    else
      var byTab := FirstRow(cat.aliases, false, r.surface, r.tab);
      var bare := FirstRow(cat.aliases, true, r.surface, r.tab);
      if byTab.Some? then
        Transformed(byTab.value.transform, r.(surface := byTab.value.toSurface, tab := byTab.value.toTab))
      else if bare.Some? then r.(surface := bare.value.toSurface, tab := bare.value.toTab)
      else r
  }

  /** The row's transform, which may answer undefined for any of its three parts. */
  method ParamTransform(t: Transform, r: Route)
    returns (p: Option<Params>, e: Option<string>, m: Option<string>)
    ensures Transformed(t, r) == r.(params := if p.Some? then p.value else r.params,
                                    entityId := if e.Some? then e else r.entityId,
                                    mode := if m.Some? then m else r.mode)
  {
    p, e, m := None, None, None;
    match t
    case NoTransform =>
    case JourneyDetail =>
      if Truthy(r.entityId) { e := r.entityId; }
    case JourneyGraph =>
      if Truthy(r.entityId) {
        p, e, m := Some(map[]), r.entityId, Some("graph");
      } else if "journey" in r.params && r.params["journey"] != "" {
        p, e, m := Some(map[]), Some(r.params["journey"]), Some("graph");
      } else {
        p := Some(r.params["view" := "graph"]);
      }
  }

  method ApplyRow(row: AliasRow, r: Route) returns (result: Route)
    ensures result == Transformed(row.transform, r.(surface := row.toSurface, tab := row.toTab))
  {
    result := r.(surface := row.toSurface, tab := row.toTab);
    var p, e, m := ParamTransform(row.transform, result);
    if p.Some? { result := result.(params := p.value); }
    if e.Some? { result := result.(entityId := e); }
    if m.Some? { result := result.(mode := m); }
  }

  method ApplyAliases(cat: Catalogue, r: Route) returns (result: Route)
    ensures result == Aliased(cat, r)
  {
    var surface := FindSurface(cat.surfaces, r.surface);
    if surface.Some? && r.tab in surface.value.tabs { return r; }
    var rows := cat.aliases;
    for i := 0 to |rows|
      invariant FirstRow(rows[i..], false, r.surface, r.tab) == FirstRow(rows, false, r.surface, r.tab)
    {
      var row := rows[i];
      assert rows[i..][0] == row && rows[i..][1..] == rows[i + 1..];
      if row.bareSurfaceDefault { continue; }
      if row.fromSurface == r.surface && row.fromTab == Some(r.tab) {
        result := ApplyRow(row, r);
        return;
      }
    }
    for i := 0 to |rows|
      invariant FirstRow(rows[i..], true, r.surface, r.tab) == FirstRow(rows, true, r.surface, r.tab)
    {
      var row := rows[i];
      assert rows[i..][0] == row && rows[i..][1..] == rows[i + 1..];
      if !row.bareSurfaceDefault { continue; }
      if row.fromSurface == r.surface {
        return r.(surface := row.toSurface, tab := row.toTab);
      }
    }
    return r;
  }

  // ---------- printing ----------

  function Segments(r: Route): (segs: seq<string>)
    ensures |segs| >= 2
  {
    [r.surface] + [r.tab]
    + (if !Truthy(r.entityId) then []
       else [Encode(r.entityId.value)] + (if Truthy(r.mode) then [Encode(r.mode.value)] else []))
  }

  function HashOf(q: QueryCodec, r: Route): string {
    "#/" + Join(Segments(r), "/") + (if r.params == map[] then "" else "?" + q.write(r.params))
  }

  lemma {:induction false} OneMoreSegment(segs: seq<string>, segment: string)
    requires segs != []
    ensures "#/" + Join(segs + [segment], "/") == "#/" + Join(segs, "/") + "/" + segment
  {
    JoinOneMore(segs, "/", segment);
  }

  method ToHash(q: QueryCodec, r: Route) returns (hash: string)
    ensures hash == HashOf(q, r)
  {
    var base := "#/" + r.surface + "/" + r.tab;
    ghost var segs := [r.surface];
    OneMoreSegment(segs, r.tab);
    segs := segs + [r.tab];
    if Truthy(r.entityId) {
      var entity := Encode(r.entityId.value);
      base := base + "/" + entity;
      OneMoreSegment(segs, entity);
      segs := segs + [entity];
      if Truthy(r.mode) {
        var mode := Encode(r.mode.value);
        base := base + "/" + mode;
        OneMoreSegment(segs, mode);
        segs := segs + [mode];
      }
    }
    assert segs == Segments(r);
    if |r.params| == 0 { return base; }
    return base + "?" + q.write(r.params);
  }

  // ---------- parsing ----------

  /** Later pairs overwrite earlier ones. */
  function Filled(pairs: seq<(string, string)>): Params {
    if pairs == [] then map[]
    else
      var last := pairs[|pairs| - 1];
      Filled(pairs[..|pairs| - 1])[last.0 := last.1]
  }

  function Strip(hash: string): string {
    if |hash| >= 2 && hash[0] == '#' && hash[1] == '/' then hash[2..]
    else if |hash| >= 1 && hash[0] == '#' then hash[1..]
    else hash
  }

  function At(parts: seq<string>, i: nat): Option<string> {
    if i < |parts| then Some(parts[i]) else None
  }

  /** What the text of the hash says, before aliases. Segments are not decoded. */
  function Written(q: QueryCodec, hash: string): Route {
    var halves := Split(Strip(hash), '?');
    var segments := Split(halves[0], '/');
    var query := At(halves, 1);
    Route(segments[0], if |segments| > 1 then segments[1] else "", At(segments, 2), At(segments, 3),
          if Truthy(query) then Filled(q.pairs(query.value)) else map[])
  }

  predicate Moved(cat: Catalogue, w: Route) {
    var a := Aliased(cat, w);
    a.surface != w.surface || a.tab != w.tab
  }

  /** What the route is read from: the alias' answer if it moved the hash elsewhere. */
  function Settled(cat: Catalogue, w: Route): Route {
    if Moved(cat, w) then Aliased(cat, w) else w.(params := Aliased(cat, w).params)
  }

  function Presence(o: Option<string>): Option<string> {
    if Truthy(o) then o else None
  }

  function Resolved(cat: Catalogue, r: Route): Route {
    var s := FindSurface(cat.surfaces, r.surface);
    if s.None? then cat.home
    else
      var virtual := r.surface in cat.virtualTabs && r.tab in cat.virtualTabs[r.surface];
      var tab := if r.tab in s.value.tabs || virtual then r.tab
                 else if s.value.tabs == [] then "" else s.value.tabs[0];
      Route(r.surface, tab, Presence(r.entityId), Presence(r.mode), r.params)
  }

  function Parsed(q: QueryCodec, cat: Catalogue, hash: string): Route {
    Resolved(cat, Settled(cat, Written(q, hash)))
  }

  /** The hash put in place of one that an alias moved. */
  function Replacement(q: QueryCodec, cat: Catalogue, hash: string): Option<string> {
    var w := Written(q, hash);
    if Moved(cat, w) then Some(HashOf(q, Aliased(cat, w))) else None
  }

  method ReadParams(q: QueryCodec, query: Option<string>) returns (params: Params)
    ensures params == if Truthy(query) then Filled(q.pairs(query.value)) else map[]
  {
    params := map[];
    if Truthy(query) {
      var pairs := q.pairs(query.value);
      for i := 0 to |pairs|
        invariant params == Filled(pairs[..i])
      {
        assert pairs[..i + 1][..i] == pairs[..i];
        params := params[pairs[i].0 := pairs[i].1];
      }
      assert pairs[..|pairs|] == pairs;
    }
  }

  /** parseHash. `replaced` is the hash handed to history.replaceState. */
  method ParseHash(q: QueryCodec, cat: Catalogue, hash: string) returns (route: Route, replaced: Option<string>)
    requires forall s :: s in cat.surfaces ==> |s.tabs| >= 1
    ensures route == Parsed(q, cat, hash)
    ensures replaced == Replacement(q, cat, hash)
  {
    var halves := Split(Strip(hash), '?');
    var segments := Split(halves[0], '/');
    var surfaceId := segments[0];
    var tabId := if |segments| > 1 then segments[1] else "";
    var entityId := At(segments, 2);
    var mode := At(segments, 3);
    var params := ReadParams(q, At(halves, 1));
    replaced := None;
    ghost var w := Written(q, hash);
    assert w == Route(surfaceId, tabId, entityId, mode, params);

    var aliased := ApplyAliases(cat, Route(surfaceId, tabId, entityId, mode, params));
    if aliased.surface != surfaceId || aliased.tab != tabId {
      surfaceId, tabId, entityId, mode := aliased.surface, aliased.tab, aliased.entityId, aliased.mode;
      var canonical := ToHash(q, Route(surfaceId, tabId, entityId, mode, aliased.params));
      replaced := Some(canonical);
    }

    ghost var settled := Settled(cat, w);
    assert settled == Route(surfaceId, tabId, entityId, mode, aliased.params);
    assert Parsed(q, cat, hash) == Resolved(cat, settled);

    var surface := FindSurface(cat.surfaces, surfaceId);
    if surface.None? { return cat.home, replaced; }
    var resolvedTab: string;
    if tabId in surface.value.tabs {
      resolvedTab := tabId;
    } else if surface.value.id in cat.virtualTabs && tabId in cat.virtualTabs[surface.value.id] {
      resolvedTab := tabId;
    } else {
      resolvedTab := surface.value.tabs[0];
    }
    route := Route(surface.value.id, resolvedTab, None, None, aliased.params);
    if Truthy(entityId) { route := route.(entityId := entityId); }
    if Truthy(mode) { route := route.(mode := mode); }
  }

  // ---------- theorems ----------

  /**
   What is assumed of URLSearchParams: a printed non-empty record is a
   non-empty text without '?', and reading it back fills the same record.
   */
  ghost predicate Faithful(q: QueryCodec) {
    forall p: Params :: p != map[] ==>
      q.write(p) != "" && '?' !in q.write(p) && Filled(q.pairs(q.write(p))) == p
  }

  /** A printed hash carries these parts unharmed. A mode needs an entity. */
  predicate Survives(r: Route) {
    && (Truthy(r.entityId) ==> Plain(r.entityId.value))
    && (Truthy(r.mode) ==> Truthy(r.entityId) && Plain(r.mode.value))
  }

  /** Whatever the text, the route names an existing surface and one of its tabs. */
  lemma {:induction false} ParsedIsNamed(q: QueryCodec, cat: Catalogue, hash: string)
    requires WellFormed(cat)
    ensures Named(cat, Parsed(q, cat, hash).surface, Parsed(q, cat, hash).tab)
  {
  }

  lemma {:induction false} SegmentsAreSafe(r: Route, seg: string)
    requires Clean(r.surface) && Clean(r.tab) && seg in Segments(r)
    ensures '/' !in seg && '?' !in seg
  {
    if Truthy(r.entityId) { EncodeIsSafe(r.entityId.value); }
    if Truthy(r.mode) { EncodeIsSafe(r.mode.value); }
  }

  /** Reading a printed hash gives the encoded parts, and no mode without an entity. */
  lemma {:induction false} WrittenOfHash(q: QueryCodec, r: Route)
    requires Faithful(q) && Clean(r.surface) && Clean(r.tab)
    ensures Written(q, HashOf(q, r)) ==
            Route(r.surface, r.tab,
                  if Truthy(r.entityId) then Some(Encode(r.entityId.value)) else None,
                  if Truthy(r.entityId) && Truthy(r.mode) then Some(Encode(r.mode.value)) else None,
                  r.params)
  {
    var segs := Segments(r);
    forall seg | seg in segs ensures '/' !in seg && '?' !in seg { SegmentsAreSafe(r, seg); }
    var path := Join(segs, "/");
    SplitUndoesJoin(segs, '/');
    JoinAvoids(segs, "/", '?');
    var hash := HashOf(q, r);
    if r.params == map[] {
      assert Strip(hash) == path;
      SplitWhole(path, '?');
    } else {
      var query := q.write(r.params);
      assert Strip(hash) == path + ['?'] + query;
      SplitFirst(path, '?', query);
      SplitWhole(query, '?');
    }
  }

  /** A real or virtual tab is never moved by an alias. */
  lemma {:induction false} NamedStays(cat: Catalogue, r: Route)
    requires WellFormed(cat) && Named(cat, r.surface, r.tab)
    ensures Aliased(cat, r) == r && Settled(cat, r) == r
    ensures Clean(r.surface) && Clean(r.tab)
  {
  }

  /**
   Printing and parsing any route that names a tab keeps everything but the
   encoding of its entity and mode.
   */
  lemma {:induction false} ParsedOfHash(q: QueryCodec, cat: Catalogue, r: Route)
    requires WellFormed(cat) && Faithful(q) && Named(cat, r.surface, r.tab)
    ensures Replacement(q, cat, HashOf(q, r)) == None
    ensures Parsed(q, cat, HashOf(q, r)) ==
            Route(r.surface, r.tab,
                  if Truthy(r.entityId) then Some(Encode(r.entityId.value)) else None,
                  if Truthy(r.entityId) && Truthy(r.mode) then Some(Encode(r.mode.value)) else None,
                  r.params)
  {
    NamedStays(cat, r);
    WrittenOfHash(q, r);
    var w := Written(q, HashOf(q, r));
    NamedStays(cat, w);
    if Truthy(r.entityId) { EncodeIsSafe(r.entityId.value); }
    if Truthy(r.mode) { EncodeIsSafe(r.mode.value); }
  }

  lemma {:induction false} EncodedSurvives(q: QueryCodec, cat: Catalogue, r: Route)
    requires WellFormed(cat) && Faithful(q) && Named(cat, r.surface, r.tab)
    ensures Parsed(q, cat, HashOf(q, r)) == Resolved(cat, r) <==> Survives(r)
  {
    ParsedOfHash(q, cat, r);
    if Truthy(r.entityId) { EncodeFixesPlain(r.entityId.value); }
    if Truthy(r.mode) { EncodeFixesPlain(r.mode.value); }
  }

  /**
   The route round trip, with its exact condition: an entity or mode is either
   absent or a non-empty run of unreserved characters, and a mode comes with an
   entity.
   */
  lemma {:induction false} RoundTrip(q: QueryCodec, cat: Catalogue, r: Route)
    requires WellFormed(cat) && Faithful(q) && Named(cat, r.surface, r.tab)
    ensures Parsed(q, cat, HashOf(q, r)) == r <==>
            Survives(r) && r.entityId != Some("") && r.mode != Some("")
  {
    EncodedSurvives(q, cat, r);
    ParsedOfHash(q, cat, r);
    if r.entityId != Some("") && r.mode != Some("") {
      assert Resolved(cat, r) == r;
    }
  }

  /**
   A hash moved by an alias lands on a real tab. The hash that replaces it is
   left alone when it is read again, and it gives the same route exactly when
   the moved entity and mode survive printing.
   */
  lemma {:induction false} ReplacementAgrees(q: QueryCodec, cat: Catalogue, hash: string)
    requires WellFormed(cat) && Faithful(q) && Replacement(q, cat, hash).Some?
    ensures
      var moved := Aliased(cat, Written(q, hash));
      var canonical := Replacement(q, cat, hash).value;
      && RealTab(cat, moved.surface, moved.tab)
      && Replacement(q, cat, canonical) == None
      && (Parsed(q, cat, canonical) == Parsed(q, cat, hash) <==> Survives(moved))
  {
    var w := Written(q, hash);
    var byTab := FirstRow(cat.aliases, false, w.surface, w.tab);
    var bare := FirstRow(cat.aliases, true, w.surface, w.tab);
    assert !RealTab(cat, w.surface, w.tab);
    assert byTab.Some? || bare.Some?;
    var moved := Aliased(cat, w);
    assert RealTab(cat, moved.surface, moved.tab);
    ParsedOfHash(q, cat, moved);
    EncodedSurvives(q, cat, moved);
  }

  lemma {:induction false} EncodeSpace()
    ensures Encode("a b") == "a%20b"
  {
    assert Percent([32]) == "%20" by {
      assert [32][1..] == [];
      assert Percent([]) == "";
    }
    assert "b"[1..] == "" && Encode("") == "" && Encode("b") == "b";
    assert " b"[1..] == "b" && Octets(' ') == [32];
    assert Encode(" b") == "%20" + "b";
    assert "a b"[1..] == " b";
  }

  /** A route printed with a space in its entity does not come back. */
  lemma {:induction false} SpacesAreLost(q: QueryCodec, cat: Catalogue, r: Route)
    requires WellFormed(cat) && Faithful(q) && Named(cat, r.surface, r.tab) && r.entityId == Some("a b")
    ensures Parsed(q, cat, HashOf(q, r)).entityId == Some("a%20b")
    ensures Parsed(q, cat, HashOf(q, r)) != r
  {
    ParsedOfHash(q, cat, r);
    EncodeSpace();
  }

  // ---------- what a hash says ----------

  /** The value of a query parameter is that of the last pair with its name. */
  lemma {:induction false} LastPairWins(pairs: seq<(string, string)>, i: nat)
    requires i < |pairs| && forall k :: i < k < |pairs| ==> pairs[k].0 != pairs[i].0
    ensures pairs[i].0 in Filled(pairs) && Filled(pairs)[pairs[i].0] == pairs[i].1
  {
    var last := |pairs| - 1;
    if i < last {
      assert pairs[last].0 != pairs[i].0;
      LastPairWins(pairs[..last], i);
    }
  }

  lemma {:induction false} NoOtherParameters(pairs: seq<(string, string)>, name: string)
    requires forall k :: 0 <= k < |pairs| ==> pairs[k].0 != name
    ensures name !in Filled(pairs)
  {
    if pairs != [] {
      assert pairs[|pairs| - 1].0 != name;
      NoOtherParameters(pairs[..|pairs| - 1], name);
    }
  }

  /** The text in front of the query: with `#/`, with `#` alone, or bare. */
  predicate Lead(lead: string) {
    lead == "#/" || lead == "#" || lead == ""
  }

  /** A path can be told from what leads it. */
  predicate StartsPlainly(path: string) {
    path == "" || (path[0] != '#' && path[0] != '/')
  }

  lemma {:induction false} LeadIsStripped(lead: string, path: string)
    requires Lead(lead) && StartsPlainly(path)
    ensures Strip(lead + path) == path
  {
    var hash := lead + path;
    if lead == "#/" {
      assert hash[2..] == path;
    } else if lead == "#" {
      assert path != "" ==> hash[1] == path[0];
      assert hash[1..] == path;
    } else {
      assert hash == path;
    }
  }

  /** The parts between slashes are surface, tab, entity and mode; what follows them is ignored. */
  lemma {:induction false} PathReads(q: QueryCodec, lead: string, segs: seq<string>, query: string)
    requires Lead(lead) && segs != [] && StartsPlainly(Join(segs, "/"))
    requires forall seg :: seg in segs ==> '/' !in seg && '?' !in seg
    requires '?' !in query
    ensures var w := Written(q, lead + (Join(segs, "/") + ['?'] + query));
            && w.surface == segs[0]
            && w.tab == (if |segs| > 1 then segs[1] else "")
            && w.entityId == (if |segs| > 2 then Some(segs[2]) else None)
            && w.mode == (if |segs| > 3 then Some(segs[3]) else None)
            && w.params == (if query == "" then map[] else Filled(q.pairs(query)))
  {
    var path := Join(segs, "/");
    LeadIsStripped(lead, path + ['?'] + query);
    JoinAvoids(segs, "/", '?');
    SplitFirst(path, '?', query);
    SplitWhole(query, '?');
    SplitUndoesJoin(segs, '/');
  }

  /** The same without a query. */
  lemma {:induction false} PathAlone(q: QueryCodec, lead: string, segs: seq<string>)
    requires Lead(lead) && segs != [] && StartsPlainly(Join(segs, "/"))
    requires forall seg :: seg in segs ==> '/' !in seg && '?' !in seg
    ensures Written(q, lead + Join(segs, "/"))
         == Route(segs[0], if |segs| > 1 then segs[1] else "", if |segs| > 2 then Some(segs[2]) else None,
                  if |segs| > 3 then Some(segs[3]) else None, map[])
  {
    LeadIsStripped(lead, Join(segs, "/"));
    JoinAvoids(segs, "/", '?');
    SplitWhole(Join(segs, "/"), '?');
    SplitUndoesJoin(segs, '/');
  }

  /** A part of the path that is printed only where there is one. */
  function Optional(o: Option<string>): string {
    if o == None || o == Some("") then "" else "/" + Encode(o.value)
  }

  lemma {:induction false} SlashJoins(path: string, part: string)
    ensures path + "/" + part == path + ("/" + part)
    ensures path + "" == path
  {
  }

  lemma {:induction false} SegmentsJoined(r: Route)
    ensures "#/" + Join(Segments(r), "/")
         == "#/" + r.surface + "/" + r.tab + Optional(r.entityId)
            + Optional(if Truthy(r.entityId) then r.mode else None)
  {
    var segs := [r.surface, r.tab];
    OneMoreSegment([r.surface], r.tab);
    assert [r.surface] + [r.tab] == segs;
    var base := "#/" + r.surface + "/" + r.tab;
    if Truthy(r.entityId) {
      var entity := Encode(r.entityId.value);
      OneMoreSegment(segs, entity);
      SlashJoins(base, entity);
      if Truthy(r.mode) {
        OneMoreSegment(segs + [entity], Encode(r.mode.value));
        SlashJoins(base + "/" + entity, Encode(r.mode.value));
        assert segs + [entity] + [Encode(r.mode.value)] == Segments(r);
      } else {
        assert segs + [entity] == Segments(r);
      }
    } else {
      assert segs == Segments(r);
    }
  }

  /** What is printed, part by part: a mode only behind an entity, and a query only where there are parameters. */
  lemma {:induction false} HashSays(q: QueryCodec, r: Route)
    ensures var mode := if r.entityId == None || r.entityId == Some("") then None else r.mode;
            var query := if r.params == map[] then "" else "?" + q.write(r.params);
            HashOf(q, r) == "#/" + r.surface + "/" + r.tab + Optional(r.entityId) + Optional(mode) + query
  {
    SegmentsJoined(r);
  }

  // ---------- where it leads ----------

  lemma {:induction false} FirstSurface(surfaces: seq<Surface>, i: nat)
    requires i < |surfaces| && forall k :: 0 <= k < i ==> surfaces[k].id != surfaces[i].id
    ensures FindSurface(surfaces, surfaces[i].id) == Some(surfaces[i])
  {
    if i > 0 {
      assert surfaces[0].id != surfaces[i].id;
      FirstSurface(surfaces[1..], i - 1);
    }
  }

  lemma {:induction false} NoSurface(surfaces: seq<Surface>, id: string)
    requires forall k :: 0 <= k < |surfaces| ==> surfaces[k].id != id
    ensures FindSurface(surfaces, id) == None
  {
    if surfaces != [] {
      assert surfaces[0].id != id;
      NoSurface(surfaces[1..], id);
    }
  }

  /** An unknown surface leads home. */
  lemma {:induction false} UnknownSurfaceLeadsHome(cat: Catalogue, r: Route)
    requires forall k :: 0 <= k < |cat.surfaces| ==> cat.surfaces[k].id != r.surface
    ensures Resolved(cat, r) == cat.home
  {
    NoSurface(cat.surfaces, r.surface);
  }

  /**
   On a known surface a tab it does not have, real or virtual, gives way to the
   first one; the rest of the route stays, an empty entity or mode counting as none.
   */
  lemma {:induction false} UnknownTabFallsBack(cat: Catalogue, r: Route, i: nat)
    requires i < |cat.surfaces| && cat.surfaces[i].id == r.surface && cat.surfaces[i].tabs != []
    requires forall k :: 0 <= k < i ==> cat.surfaces[k].id != r.surface
    ensures var route, tabs := Resolved(cat, r), cat.surfaces[i].tabs;
            && route.surface == r.surface && route.params == r.params
            && route.tab == (if r.tab in tabs || (r.surface in cat.virtualTabs && r.tab in cat.virtualTabs[r.surface])
                             then r.tab else tabs[0])
            && (route.entityId == if r.entityId == Some("") then None else r.entityId)
            && (route.mode == if r.mode == Some("") then None else r.mode)
  {
    FirstSurface(cat.surfaces, i);
  }

  // ---------- which alias moves it ----------

  lemma {:induction false} FirstRowIs(rows: seq<AliasRow>, bare: bool, surface: string, tab: string, i: nat)
    requires i < |rows| && rows[i].bareSurfaceDefault == bare && rows[i].fromSurface == surface
    requires bare || rows[i].fromTab == Some(tab)
    requires forall k :: 0 <= k < i && rows[k].bareSurfaceDefault == bare && rows[k].fromSurface == surface ==>
               !bare && rows[k].fromTab != Some(tab)
    ensures FirstRow(rows, bare, surface, tab) == Some(rows[i])
  {
    if i > 0 {
      FirstRowIs(rows[1..], bare, surface, tab, i - 1);
    }
  }

  lemma {:induction false} NoRow(rows: seq<AliasRow>, bare: bool, surface: string, tab: string)
    requires forall k :: 0 <= k < |rows| && rows[k].bareSurfaceDefault == bare && rows[k].fromSurface == surface ==>
               !bare && rows[k].fromTab != Some(tab)
    ensures FirstRow(rows, bare, surface, tab) == None
  {
    if rows != [] {
      NoRow(rows[1..], bare, surface, tab);
    }
  }

  /** The first row for the surface and the tab moves a hash; without a transform nothing else changes. */
  lemma {:induction false} TabRowMoves(cat: Catalogue, r: Route, i: nat)
    requires !RealTab(cat, r.surface, r.tab) && i < |cat.aliases|
    requires var row := cat.aliases[i];
             !row.bareSurfaceDefault && row.fromSurface == r.surface && row.fromTab == Some(r.tab)
    requires forall k :: 0 <= k < i && !cat.aliases[k].bareSurfaceDefault ==>
               cat.aliases[k].fromSurface != r.surface || cat.aliases[k].fromTab != Some(r.tab)
    ensures var row, moved := cat.aliases[i], Aliased(cat, r);
            && moved.surface == row.toSurface && moved.tab == row.toTab
            && (row.transform == JourneyGraph ==> IsJourneyGraph(r, moved))
            && (row.transform != JourneyGraph ==>
                  moved.entityId == r.entityId && moved.mode == r.mode && moved.params == r.params)
  {
    FirstRowIs(cat.aliases, false, r.surface, r.tab, i);
  }

  /** A journey that was shown as a graph is now the journey in graph mode; without one, the list with a graph view. */
  ghost predicate IsJourneyGraph(r: Route, moved: Route) {
    if r.entityId != None && r.entityId != Some("") then
      moved.entityId == r.entityId && moved.mode == Some("graph") && moved.params == map[]
    else if "journey" in r.params && r.params["journey"] != "" then
      moved.entityId == Some(r.params["journey"]) && moved.mode == Some("graph") && moved.params == map[]
    else
      moved.entityId == r.entityId && moved.mode == r.mode && moved.params == r.params["view" := "graph"]
  }

  /** Only where there is no such row does the surface's own default move it, and without one it stays. */
  lemma {:induction false} BareRowMoves(cat: Catalogue, r: Route, i: nat)
    requires !RealTab(cat, r.surface, r.tab) && i <= |cat.aliases|
    requires forall k :: 0 <= k < |cat.aliases| && !cat.aliases[k].bareSurfaceDefault ==>
               cat.aliases[k].fromSurface != r.surface || cat.aliases[k].fromTab != Some(r.tab)
    requires i < |cat.aliases| ==> cat.aliases[i].bareSurfaceDefault && cat.aliases[i].fromSurface == r.surface
    requires forall k :: 0 <= k < i && cat.aliases[k].bareSurfaceDefault ==> cat.aliases[k].fromSurface != r.surface
    ensures Aliased(cat, r)
         == if i < |cat.aliases| then r.(surface := cat.aliases[i].toSurface, tab := cat.aliases[i].toTab) else r
  {
    NoRow(cat.aliases, false, r.surface, r.tab);
    if i < |cat.aliases| {
      FirstRowIs(cat.aliases, true, r.surface, r.tab, i);
    } else {
      NoRow(cat.aliases, true, r.surface, r.tab);
    }
  }

  /** A row of the table that applies to a hash which names no real tab. */
  ghost predicate Applies(row: AliasRow, w: Route) {
    row.fromSurface == w.surface && (row.bareSurfaceDefault || row.fromTab == Some(w.tab))
  }

  /**
   A hash is replaced exactly when some row applies to it and it names no real tab
   of its own, and then by what is printed for the route it is moved to; either way
   the answer is read from that route.
   */
  lemma {:induction false} ReplacedIff(q: QueryCodec, cat: Catalogue, hash: string)
    requires WellFormed(cat)
    ensures var w := Written(q, hash);
            var moves := !RealTab(cat, w.surface, w.tab) && exists row :: row in cat.aliases && Applies(row, w);
            && Replacement(q, cat, hash) == (if moves then Some(HashOf(q, Aliased(cat, w))) else None)
            && Parsed(q, cat, hash) == Resolved(cat, Aliased(cat, w))
            && (!moves ==> Aliased(cat, w) == w)
  {
    var w := Written(q, hash);
    var byTab := FirstRow(cat.aliases, false, w.surface, w.tab);
    var bare := FirstRow(cat.aliases, true, w.surface, w.tab);
    if byTab.Some? {
      assert Applies(byTab.value, w);
    } else if bare.Some? {
      assert Applies(bare.value, w);
    }
  }

  /** The digits of an escape, as encodeURIComponent writes them. */
  lemma {:induction false} HexIs(d: nat)
    requires d < 16
    ensures Hex(d) == "0123456789ABCDEF"[d]
  {
    if d >= 10 {
      assert 'A' as int + (d - 10) == 55 + d;
    }
  }

  /** Letters, digits and nine marks are the characters that stand for themselves. */
  lemma {:induction false} UnreservedAre(c: char)
    ensures Encode([c]) == [c] <==>
              var n := c as int;
              || 48 <= n <= 57 || 65 <= n <= 90 || 97 <= n <= 122
              || n == 33 || 39 <= n <= 42 || n == 45 || n == 46 || n == 95 || n == 126
  {
    EncodeFixesPlain([c]);
    assert Plain([c]) <==> Unreserved([c][0]);
  }
}
