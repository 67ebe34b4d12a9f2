/** Exposures to routes in tools/ojos-service/src/lib.rs: `compile` selects operations by exposure,
    counts the selections, and rejects colliding routes. */
module ContractRoutes {
  import opened Basics

  /** `detail` stands for everything else: authentication, permission, parameters, bodies. */
  datatype Operation = Operation(operationId: string, apiId: string, audience: string, verb: string, path: string, detail: int)

  datatype Exposure = Exposure(id: string, api: string, audience: string, mount: string)

  datatype Route = Route(exposureId: string, audience: string, verb: string, path: string,
                         apiId: string, operationId: string, providerPath: string, detail: int)

  datatype CompileError = UnknownApi | MatchesNothing | InternalExposed | NotExactlyOnce | Collision

  const INTERNAL := "internal"

  // ----- paths ----------------------------------------------------------------------------

  function TrimLeft(s: string): string {
    if s != "" && s[0] == '/' then TrimLeft(s[1..]) else s
  }

  function TrimRight(s: string): string {
    if s != "" && s[|s|-1] == '/' then TrimRight(s[..|s|-1]) else s
  }

  /** The segments between slashes; the empty path has one empty segment. */
  function Segments(path: string): seq<string> {
    Split(TrimRight(TrimLeft(path)), '/')
  }

  predicate IsParameter(segment: string) {
    segment != "" && segment[0] == '{' && segment[|segment|-1] == '}'
  }

  /** `paths_overlap`. */
  predicate PathsOverlap(left: string, right: string) {
    var l, r := Segments(left), Segments(right);
    |l| == |r| && forall i :: 0 <= i < |l| ==> SegmentsOverlap(l[i], r[i])
  }

  predicate SegmentsOverlap(l: string, r: string) {
    l == r || IsParameter(l) || IsParameter(r)
  }

  /** `methods_overlap`. */
  predicate MethodsOverlap(left: string, right: string) {
    left == right || (left == "GET" && right == "HEAD") || (left == "HEAD" && right == "GET")
  }

  /** `join_mount`. */
  function JoinMount(mount: string, providerPath: string): string {
    if providerPath == "/" then mount
    else if mount == "/" then providerPath
    else mount + providerPath
  }

  /** A request path, by segment, is matched by a template: a parameter stands for any
      non-empty segment. */
  ghost predicate Matches(template: seq<string>, path: seq<string>) {
    && |template| == |path|
    && forall i :: 0 <= i < |path| ==> SegmentMatches(template[i], path[i])
  }

  ghost predicate SegmentMatches(template: string, segment: string) {
    if |template| >= 2 && template[0] == '{' && template[|template|-1] == '}' then segment != "" else template == segment
  }

  /** If some request path is matched by both templates, the check reports it. */
  lemma CommonPathOverlaps(left: string, right: string, path: seq<string>)
    requires Matches(Segments(left), path) && Matches(Segments(right), path)
    ensures PathsOverlap(left, right)
  {
    var l, r := Segments(left), Segments(right);
    forall i | 0 <= i < |l| ensures SegmentsOverlap(l[i], r[i]) {
      assert SegmentMatches(l[i], path[i]) && SegmentMatches(r[i], path[i]);
    }
  }

  /** Overlap is exactly having a common request path, but for one kind of false alarm: an
      empty segment against a parameter, as the root path against any one-parameter path. */
  lemma OverlapIsExactBut(left: string, right: string)
    ensures (exists path :: Matches(Segments(left), path) && Matches(Segments(right), path)) <==>
              && PathsOverlap(left, right)
              && forall i :: 0 <= i < |Segments(left)| ==> !EmptyMeetsParameter(Segments(left)[i], Segments(right)[i])
  {
    var l, r := Segments(left), Segments(right);
    if path :| Matches(l, path) && Matches(r, path) {
      CommonPathOverlaps(left, right, path);
      forall i | 0 <= i < |l| ensures !EmptyMeetsParameter(l[i], r[i]) {
        assert SegmentMatches(l[i], path[i]) && SegmentMatches(r[i], path[i]);
      }
    }
    if PathsOverlap(left, right) && forall i :: 0 <= i < |l| ==> !EmptyMeetsParameter(l[i], r[i]) {
      var path := seq(|l|, i requires 0 <= i < |l| => if IsParameter(l[i]) then r[i] else l[i]);
      forall i | 0 <= i < |l| ensures SegmentMatches(l[i], path[i]) && SegmentMatches(r[i], path[i]) {
        assert SegmentsOverlap(l[i], r[i]) && !EmptyMeetsParameter(l[i], r[i]);
      }
      assert Matches(l, path) && Matches(r, path);
    }
  }

  /** The false alarm: the root and a one-parameter path are reported, yet share no request. */
  lemma RootMeetsParameter(path: seq<string>)
    ensures PathsOverlap("/", "/{id}")
    ensures !(Matches(Segments("/"), path) && Matches(Segments("/{id}"), path))
  {
    RootSegments();
    assert TrimLeft("/{id}") == "{id}" by { assert "/{id}"[1..] == "{id}"; }
    SplitOne("{id}", '/');
    assert Segments("/{id}") == ["{id}"];
    assert IsParameter("{id}");
  }

  predicate EmptyMeetsParameter(l: string, r: string) {
    (l == "" && IsParameter(r)) || (IsParameter(l) && r == "")
  }

  // ----- selection ------------------------------------------------------------------------

  predicate Selects(e: Exposure, o: Operation) {
    o.apiId == e.api && o.audience == e.audience
  }

  function RouteOf(e: Exposure, o: Operation): Route {
    Route(e.id, e.audience, o.verb, JoinMount(e.mount, o.path), o.apiId, o.operationId, o.path, o.detail)
  }

  /** The routes one exposure contributes, in the order of the operations. */
  function RoutesFor(e: Exposure, operations: seq<Operation>): seq<Route> {
    if operations == [] then []
    else
      var n := |operations| - 1;
      RoutesFor(e, operations[..n]) + Contribution(e, operations[n])
  }

  function Contribution(e: Exposure, o: Operation): seq<Route> {
    if Selects(e, o) then [RouteOf(e, o)] else []
  }

  /** All routes, in the order of the exposures. */
  function AllRoutes(exposures: seq<Exposure>, operations: seq<Operation>): seq<Route> {
    if exposures == [] then []
    else AllRoutes(exposures[..|exposures|-1], operations) + RoutesFor(exposures[|exposures|-1], operations)
  }

  function CountId(routes: seq<Route>, id: string): nat {
    if routes == [] then 0
    else CountId(routes[..|routes|-1], id) + (if routes[|routes|-1].operationId == id then 1 else 0)
  }

  function CountSelecting(exposures: seq<Exposure>, o: Operation): nat {
    if exposures == [] then 0
    else CountSelecting(exposures[..|exposures|-1], o) + (if Selects(exposures[|exposures|-1], o) then 1 else 0)
  }

  ghost predicate UniqueIds(operations: seq<Operation>) {
    forall i, j :: 0 <= i < j < |operations| ==> operations[i].operationId != operations[j].operationId
  }

  ghost predicate Collides(a: Route, b: Route) {
    a.audience == b.audience && MethodsOverlap(a.verb, b.verb) && PathsOverlap(a.path, b.path)
  }

  ghost predicate CollisionFree(routes: seq<Route>) {
    forall i, j :: 0 <= i < j < |routes| ==> !Collides(routes[i], routes[j])
  }

  /** What `compile` demands of exposures and operations. */
  ghost predicate Compilable(exposures: seq<Exposure>, operations: seq<Operation>, apis: set<string>) {
    && (forall i :: 0 <= i < |exposures| ==> exposures[i].api in apis)
    && (forall i :: 0 <= i < |exposures| ==> SelectsSome(exposures[i], operations))
    && SelectedProperly(exposures, operations)
    && CollisionFree(AllRoutes(exposures, operations))
  }

  ghost predicate SelectedProperly(exposures: seq<Exposure>, operations: seq<Operation>) {
    forall i :: 0 <= i < |operations| ==>
      CountSelecting(exposures, operations[i]) == if operations[i].audience == INTERNAL then 0 else 1
  }

  ghost predicate SelectsSome(e: Exposure, operations: seq<Operation>) {
    exists i :: 0 <= i < |operations| && Selects(e, operations[i])
  }

  // ----- counting -------------------------------------------------------------------------

  lemma {:induction false} CountIdConcat(a: seq<Route>, b: seq<Route>, id: string)
    ensures CountId(a + b, id) == CountId(a, id) + CountId(b, id)
    decreases |b|
  {
    if b == [] {
      assert a + b == a;
    } else {
      var n := |b| - 1;
      assert (a + b)[..|a| + n] == a + b[..n];
      CountIdConcat(a, b[..n], id);
    }
  }

  ghost predicate SelectsId(e: Exposure, operations: seq<Operation>, id: string) {
    exists i :: 0 <= i < |operations| && operations[i].operationId == id && Selects(e, operations[i])
  }

  /** An exposure contributes one route for an operation it selects, none for others. */
  lemma {:induction false} CountRoutesFor(e: Exposure, operations: seq<Operation>, id: string)
    requires UniqueIds(operations)
    ensures CountId(RoutesFor(e, operations), id) == if SelectsId(e, operations, id) then 1 else 0
    decreases |operations|
  {
    if operations != [] {
      var n := |operations| - 1;
      var rest, last := operations[..n], operations[n];
      CountRoutesFor(e, rest, id);
      CountIdConcat(RoutesFor(e, rest), Contribution(e, last), id);
      assert CountId(Contribution(e, last), id) == if Selects(e, last) && last.operationId == id then 1 else 0;
      SelectsIdStep(e, operations, id);
    }
  }

  lemma SelectsIdStep(e: Exposure, operations: seq<Operation>, id: string)
    requires UniqueIds(operations) && operations != []
    ensures var n := |operations| - 1;
            && (SelectsId(e, operations, id) <==>
                  SelectsId(e, operations[..n], id) || (Selects(e, operations[n]) && operations[n].operationId == id))
            && !(SelectsId(e, operations[..n], id) && operations[n].operationId == id)
  {
    var n := |operations| - 1;
    assert forall i :: 0 <= i < n ==> operations[..n][i] == operations[i];
    if SelectsId(e, operations[..n], id) {
      var i :| 0 <= i < n && operations[..n][i].operationId == id && Selects(e, operations[..n][i]);
      assert operations[i].operationId == id && Selects(e, operations[i]);
    }
  }

  /** So each operation gets one route per exposure that selects it. */
  lemma {:induction false} CountAllRoutes(exposures: seq<Exposure>, operations: seq<Operation>, k: nat)
    requires UniqueIds(operations) && k < |operations|
    ensures CountId(AllRoutes(exposures, operations), operations[k].operationId) == CountSelecting(exposures, operations[k])
    decreases |exposures|
  {
    if exposures != [] {
      var n, id := |exposures| - 1, operations[k].operationId;
      CountAllRoutes(exposures[..n], operations, k);
      CountIdConcat(AllRoutes(exposures[..n], operations), RoutesFor(exposures[n], operations), id);
      CountRoutesFor(exposures[n], operations, id);
      assert SelectsId(exposures[n], operations, id) <==> Selects(exposures[n], operations[k]);
    }
  }

  // ----- the compiler ---------------------------------------------------------------------

  /** The inner loop over operations, with the running counts by operation id. */
  method Expose(e: Exposure, operations: seq<Operation>, before: seq<Route>, counted: map<string, nat>)
    returns (routes: seq<Route>, counts: map<string, nat>)
    requires forall id :: Get(counted, id) == CountId(before, id)
    ensures routes == before + RoutesFor(e, operations)
    ensures forall id :: Get(counts, id) == CountId(routes, id)
  {
    routes, counts := before, counted;
    for i := 0 to |operations|
      invariant routes == before + RoutesFor(e, operations[..i])
      invariant forall id :: Get(counts, id) == CountId(routes, id)
    {
      var o := operations[i];
      assert operations[..i+1][..i] == operations[..i];
      if Selects(e, o) {
        counts := counts[o.operationId := Get(counts, o.operationId) + 1];
        assert (routes + [RouteOf(e, o)])[..|routes|] == routes;
        routes := routes + [RouteOf(e, o)];
      }
    }
    assert operations[..|operations|] == operations;
  }

  function Get(counts: map<string, nat>, id: string): nat {
    if id in counts then counts[id] else 0
  }

  /** `validate_route_collisions`. */
  method ValidateRouteCollisions(routes: seq<Route>) returns (ok: bool)
    ensures ok <==> CollisionFree(routes)
  {
    for i := 0 to |routes|
      invariant forall a, b :: 0 <= a < i && a < b < |routes| ==> !Collides(routes[a], routes[b])
    {
      for j := i + 1 to |routes|
        invariant forall b :: i < b < j ==> !Collides(routes[i], routes[b])
      {
        var l, r := routes[i], routes[j];
        if l.audience == r.audience && MethodsOverlap(l.verb, r.verb) && PathsOverlap(l.path, r.path) {
          assert Collides(routes[i], routes[j]);
          return false;
        }
      }
    }
    return true;
  }

  /** The route part of `compile`, up to sorting. It succeeds exactly on compilable input, and
      then every external operation has exactly one route and every internal one none. */
  method CompileRoutes(exposures: seq<Exposure>, operations: seq<Operation>, apis: set<string>)
    returns (r: Result<seq<Route>, CompileError>)
    requires UniqueIds(operations)
    ensures r.Ok? <==> Compilable(exposures, operations, apis)
    ensures r.Ok? ==> r.value == AllRoutes(exposures, operations)
    ensures r.Ok? ==> forall k :: 0 <= k < |operations| ==>
              CountId(r.value, operations[k].operationId) == if operations[k].audience == INTERNAL then 0 else 1
    ensures r.Ok? ==> CollisionFree(r.value)
  {
    var routes, counts, unmatched := ExposeAll(exposures, operations, apis);
    if unmatched.Some? { return Err(unmatched.value); }
    var wrong := CheckCounts(exposures, operations, routes, counts);
    if wrong.Some? { return Err(wrong.value); }
    var ok := ValidateRouteCollisions(routes);
    return if ok then Ok(routes) else Err(Collision);
  }

  /** The loop over exposures: each must name a known API and select something in it. */
  method ExposeAll(exposures: seq<Exposure>, operations: seq<Operation>, apis: set<string>)
    returns (routes: seq<Route>, counts: map<string, nat>, wrong: Option<CompileError>)
    ensures wrong.None? <==>
            forall i :: 0 <= i < |exposures| ==> exposures[i].api in apis && SelectsSome(exposures[i], operations)
    ensures wrong.None? ==> routes == AllRoutes(exposures, operations) && forall id :: Get(counts, id) == CountId(routes, id)
  {
    hide RoutesFor, SelectsSome;
    routes, counts := [], map[];
    for i := 0 to |exposures|
      invariant routes == AllRoutes(exposures[..i], operations)
      invariant forall id :: Get(counts, id) == CountId(routes, id)
      invariant forall j :: 0 <= j < i ==> exposures[j].api in apis && SelectsSome(exposures[j], operations)
    {
      if exposures[i].api !in apis { return routes, counts, Some(UnknownApi); }
      assert exposures[..i+1][..i] == exposures[..i];
      routes, counts := Expose(exposures[i], operations, routes, counts);
      var some := MatchesAny(exposures[i], operations);
      if !some { return routes, counts, Some(MatchesNothing); }
    }
    assert exposures[..|exposures|] == exposures;
    return routes, counts, None;
  }

  method MatchesAny(e: Exposure, operations: seq<Operation>) returns (some: bool)
    ensures some <==> SelectsSome(e, operations)
  {
    for i := 0 to |operations|
      invariant forall j :: 0 <= j < i ==> !Selects(e, operations[j])
    {
      if Selects(e, operations[i]) { return true; }
    }
    return false;
  }

  /** Internal operations must not be selected, external ones exactly once. */
  method CheckCounts(exposures: seq<Exposure>, operations: seq<Operation>, routes: seq<Route>, counts: map<string, nat>)
    returns (wrong: Option<CompileError>)
    requires UniqueIds(operations) && routes == AllRoutes(exposures, operations)
    requires forall id :: Get(counts, id) == CountId(routes, id)
    ensures wrong.None? <==> SelectedProperly(exposures, operations)
    ensures wrong.None? ==> forall k :: 0 <= k < |operations| ==>
              CountId(routes, operations[k].operationId) == if operations[k].audience == INTERNAL then 0 else 1
  {
    hide AllRoutes, CountId, CountSelecting;
    for k := 0 to |operations|
      invariant forall j :: 0 <= j < k ==>
                  CountSelecting(exposures, operations[j]) == CountId(routes, operations[j].operationId)
                    == if operations[j].audience == INTERNAL then 0 else 1
    {
      CountAllRoutes(exposures, operations, k);
      var count := Get(counts, operations[k].operationId);
      if operations[k].audience == INTERNAL && count != 0 { return Some(InternalExposed); }
      if operations[k].audience != INTERNAL && count != 1 { return Some(NotExactlyOnce); }
    }
    return None;
  }

  // ----- the route table ------------------------------------------------------------------

  /** Which requests a route answers; GET and HEAD are one. */
  ghost predicate Answers(r: Route, audience: string, verb: string, path: seq<string>) {
    r.audience == audience && Canonical(r.verb) == Canonical(verb) && Matches(Segments(r.path), path)
  }

  function Canonical(verb: string): string {
    if verb == "HEAD" then "GET" else verb
  }

  /** Methods overlap exactly if a request can have both. */
  lemma MethodsOverlapExactly(left: string, right: string)
    ensures MethodsOverlap(left, right) <==> exists verb :: Canonical(left) == Canonical(verb) && Canonical(right) == Canonical(verb)
  {
    assert Canonical(left) == Canonical(left);
  }

  /** Two routes collide exactly if a request can be answered by both, but for the false alarm of
      an empty segment against a parameter. */
  lemma CollidesExactlyBut(a: Route, b: Route)
    ensures (exists audience, verb, path :: Answers(a, audience, verb, path) && Answers(b, audience, verb, path)) <==>
              && Collides(a, b)
              && forall i :: 0 <= i < |Segments(a.path)| ==> !EmptyMeetsParameter(Segments(a.path)[i], Segments(b.path)[i])
  {
    hide Segments;
    OverlapIsExactBut(a.path, b.path);
    MethodsOverlapExactly(a.verb, b.verb);
    if path :| a.audience == b.audience && MethodsOverlap(a.verb, b.verb)
               && Matches(Segments(a.path), path) && Matches(Segments(b.path), path) {
      assert Answers(a, a.audience, a.verb, path) && Answers(b, a.audience, a.verb, path);
    }
  }

  /** The compiled table is unambiguous: no request is answered by two routes. */
  lemma Unambiguous(routes: seq<Route>, audience: string, verb: string, path: seq<string>, i: nat, j: nat)
    requires CollisionFree(routes) && i < |routes| && j < |routes|
    requires Answers(routes[i], audience, verb, path) && Answers(routes[j], audience, verb, path)
    ensures i == j
  {
    CommonPathOverlaps(routes[i].path, routes[j].path, path);
    CommonPathOverlaps(routes[j].path, routes[i].path, path);
    if i < j {
      assert Collides(routes[i], routes[j]);
      assert false;
    } else if j < i {
      assert Collides(routes[j], routes[i]);
      assert false;
    }
  }

  // ----- where operations are mounted -------------------------------------------------------

  /** What `validate_path` demands of mounts and of paths, as far as slashes go. */
  ghost predicate Normalized(path: string) {
    && path != "" && path[0] == '/' && (|path| > 1 ==> path[|path|-1] != '/')
    && forall i :: 0 < i < |path| ==> path[i-1] != '/' || path[i] != '/'
  }

  /** The segments below the root, which itself has none. */
  ghost function Below(path: string): seq<string> {
    if path == "/" then [] else Segments(path)
  }

  /** The segments of a request path; those of the root are one empty segment. */
  ghost function AsPath(below: seq<string>): seq<string> {
    if below == [] then [""] else below
  }

  lemma BelowRoot(path: string)
    requires Normalized(path) && path != "/"
    ensures Below(path) == Split(path[1..], '/')
  {
    assert path[1] != '/' && path[1..][0] == path[1];
    assert TrimLeft(path) == path[1..];
    assert path[1..][|path|-2] == path[|path|-1];
  }

  /** A joined path is the mount followed by the operation's path. */
  lemma JoinedPath(mount: string, path: string)
    requires Normalized(mount) && Normalized(path)
    ensures Normalized(JoinMount(mount, path)) && Below(JoinMount(mount, path)) == Below(mount) + Below(path)
  {
    if path != "/" && mount != "/" {
      var joined := mount + path;
      assert joined[|joined|-1] == path[|path|-1];
      forall i | 0 < i < |joined| ensures joined[i-1] != '/' || joined[i] != '/' {
        assert i > |mount| ==> joined[i-1] == path[i-1-|mount|] && joined[i] == path[i-|mount|];
      }
      assert joined[1..] == mount[1..] + ['/'] + path[1..];
      SplitAt(mount[1..], path[1..], '/');
      hide Below;
      BelowRoot(mount);
      BelowRoot(path);
      BelowRoot(joined);
    }
  }

  lemma RootSegments()
    ensures Segments("/") == [""]
  {
    assert TrimLeft("/") == "" by { assert "/"[1..] == ""; }
  }

  /** An operation is served where its exposure mounts it: its route answers exactly the requests
      of its method for the mount followed by segments that the operation's path matches. */
  lemma AnswersUnderMount(e: Exposure, o: Operation, audience: string, verb: string, below: seq<string>)
    requires Normalized(e.mount) && Normalized(o.path) && "" !in below
    ensures var n := |Below(e.mount)|;
            Answers(RouteOf(e, o), audience, verb, AsPath(below)) <==>
              && audience == e.audience && Canonical(verb) == Canonical(o.verb)
              && n <= |below| && Matches(Below(e.mount), below[..n]) && Matches(Below(o.path), below[n..])
  {
    hide Segments;
    JoinedPath(e.mount, o.path);
    RootSegments();
    var a, b, path := Below(e.mount), Below(o.path), JoinMount(e.mount, o.path);
    if path == "/" {
      assert a + b == [] ==> |a| == 0 && |b| == 0;
      if below != [] { assert below[0] in below; }
    } else {
      NotEmpty(path);
      MatchesConcat(a, b, below);
    }
  }

  lemma NotEmpty(path: string)
    requires Normalized(path) && path != "/"
    ensures !Matches(Segments(path), [""]) && Segments(path) != []
  {
    BelowRoot(path);
    if Matches(Segments(path), [""]) {
      assert SegmentMatches(Segments(path)[0], "");
      JoinSplit(path[1..], '/');
      assert false;
    }
  }

  lemma MatchesConcat(a: seq<string>, b: seq<string>, path: seq<string>)
    ensures Matches(a + b, path) <==> |a| <= |path| && Matches(a, path[..|a|]) && Matches(b, path[|a|..])
  {
    if Matches(a + b, path) {
      forall i | 0 <= i < |a| ensures SegmentMatches(a[i], path[..|a|][i]) {
        assert SegmentMatches((a + b)[i], path[i]);
      }
      forall i | 0 <= i < |b| ensures SegmentMatches(b[i], path[|a|..][i]) {
        assert SegmentMatches((a + b)[|a| + i], path[|a| + i]);
      }
    }
    if |a| <= |path| && Matches(a, path[..|a|]) && Matches(b, path[|a|..]) {
      forall i | 0 <= i < |path| ensures SegmentMatches((a + b)[i], path[i]) {
        if i < |a| { assert SegmentMatches(a[i], path[..|a|][i]); } else { assert SegmentMatches(b[i-|a|], path[|a|..][i-|a|]); }
      }
    }
  }

  /** The routes are those of the operations whose API and audience an exposure names. */
  lemma {:induction false} RoutesAreSelections(exposures: seq<Exposure>, operations: seq<Operation>, r: Route)
    ensures r in AllRoutes(exposures, operations) <==>
            exists e, o :: e in exposures && o in operations && o.apiId == e.api && o.audience == e.audience && r == RouteOf(e, o)
    decreases |exposures|
  {
    if exposures != [] {
      var n := |exposures| - 1;
      assert exposures == exposures[..n] + [exposures[n]];
      RoutesAreSelections(exposures[..n], operations, r);
      ExposureSelects(exposures[n], operations, r);
    }
  }

  lemma {:induction false} ExposureSelects(e: Exposure, operations: seq<Operation>, r: Route)
    ensures r in RoutesFor(e, operations) <==>
            exists o :: o in operations && o.apiId == e.api && o.audience == e.audience && r == RouteOf(e, o)
    decreases |operations|
  {
    if operations != [] {
      var n := |operations| - 1;
      assert operations == operations[..n] + [operations[n]];
      ExposureSelects(e, operations[..n], r);
    }
  }

  /** In a compiled table, a request for an operation below the mount of its exposure is answered
      by that operation's route and by no other. */
  lemma ServedByItsRoute(exposures: seq<Exposure>, operations: seq<Operation>, e: Exposure, o: Operation,
                         verb: string, base: seq<string>, rest: seq<string>)
    requires CollisionFree(AllRoutes(exposures, operations))
    requires e in exposures && o in operations && o.apiId == e.api && o.audience == e.audience
    requires Normalized(e.mount) && Normalized(o.path) && "" !in base + rest
    requires Matches(Below(e.mount), base) && Matches(Below(o.path), rest) && Canonical(verb) == Canonical(o.verb)
    ensures exists i :: 0 <= i < |AllRoutes(exposures, operations)|
              && ServedAt(AllRoutes(exposures, operations), i, o, e, verb, AsPath(base + rest))
  {
    hide Segments, AllRoutes;
    var routes, path := AllRoutes(exposures, operations), AsPath(base + rest);
    RoutesAreSelections(exposures, operations, RouteOf(e, o));
    var i :| 0 <= i < |routes| && routes[i] == RouteOf(e, o);
    assert (base + rest)[..|base|] == base && (base + rest)[|base|..] == rest;
    AnswersUnderMount(e, o, e.audience, verb, base + rest);
    forall j | 0 <= j < |routes| && Answers(routes[j], e.audience, verb, path) ensures j == i {
      Unambiguous(routes, e.audience, verb, path, i, j);
    }
    assert ServedAt(routes, i, o, e, verb, path);
  }

  /** Route `i` alone answers the request, and it leads to the operation. */
  ghost predicate ServedAt(routes: seq<Route>, i: nat, o: Operation, e: Exposure, verb: string, path: seq<string>)
    requires i < |routes|
  {
    && routes[i].operationId == o.operationId && routes[i].apiId == o.apiId && routes[i].providerPath == o.path
    && routes[i].exposureId == e.id && routes[i].detail == o.detail
    && (forall j :: 0 <= j < |routes| ==> (Answers(routes[j], e.audience, verb, path) <==> j == i))
  }
}
