/** The contract comparison `compare` of tools/ojos-service/src/compatibility.rs, and what its
    verdict means for the requests an old client sends. */
module ContractCompat {
  import opened Basics
  import opened SchemaCompat

  datatype Parameter = Parameter(location: string, name: string, required: bool, schema: Schema)
  datatype Media = Media(mediaType: string, schema: Option<Schema>)
  datatype Body = Body(required: bool, content: seq<Media>)
  datatype Response = Response(status: string, content: seq<Media>)
  datatype Scope = System | Scoped(scope: string)

  datatype Operation = Operation(
    operationId: string, apiId: string, major: nat,
    path: string, verb: string, auth: string,
    permission: Option<string>, permissionScope: Option<Scope>,
    parameters: seq<Parameter>, body: Option<Body>, responses: seq<Response>)

  datatype Surface = Surface(apiId: string, major: nat)
  datatype Route = Route(operationId: string, apiId: string, audience: string, verb: string, path: string)
  datatype Event = Event(eventType: string, version: nat, digest: string, delivery: string)

  datatype Contract = Contract(
    serviceId: string, version: int,
    operations: seq<Operation>, surfaces: seq<Surface>, routes: seq<Route>,
    publishes: seq<Event>, subscribes: seq<Event>)

  datatype Kind =
    | OperationRemoved | ApiChanged | PathChanged | MethodChanged
    | AuthStrengthened | PermissionChanged | PermissionScopeChanged
    | RequiredInputAdded(location: string, name: string)
    | InputBecameRequired(location: string, name: string)
    | InputNarrowed(location: string, name: string, detail: Break)
    | RequiredBodyAdded | BodyRemoved | BodyBecameRequired
    | MediaRemoved(place: string, mediaType: string)
    | MediaNarrowed(place: string, mediaType: string, detail: Break)
    | ResponseRemoved(status: string)
    | RouteRemoved | RouteChanged
    | EventRemoved(published: bool) | EventSchemaChanged(published: bool) | EventDeliveryChanged(published: bool)

  datatype Issue = Issue(kind: Kind, apiId: string, operationId: string, accepted: bool)

  datatype Report = Report(compatible: bool, issues: set<Issue>)

  datatype CompareError = OtherService | NotNewer

  /** Collecting a list into a map by key: the last entry of a key wins. */
  function ByKey<K(==), V(==)>(items: seq<V>, key: V -> K): (m: map<K, V>)
    ensures forall k :: k in m ==> m[k] in items && key(m[k]) == k
    ensures forall v :: v in items ==> key(v) in m
  {
    if items == [] then map[]
    else
      var last := items[|items| - 1];
      assert items == items[..|items| - 1] + [last];
      ByKey(items[..|items| - 1], key)[key(last) := last]
  }

  lemma {:induction false} LastEntryWins<K, V>(items: seq<V>, key: V -> K, i: nat)
    requires i < |items| && forall j :: i < j < |items| ==> key(items[j]) != key(items[i])
    ensures ByKey(items, key)[key(items[i])] == items[i]
    decreases |items|
  {
    if i < |items| - 1 { LastEntryWins(items[..|items| - 1], key, i); }
  }

  function OperationsOf(c: Contract): map<string, Operation> { ByKey(c.operations, (o: Operation) => o.operationId) }
  function SurfacesOf(c: Contract): map<string, Surface> { ByKey(c.surfaces, (s: Surface) => s.apiId) }
  function RoutesOf(c: Contract): map<string, Route> { ByKey(c.routes, (r: Route) => r.operationId) }
  function ParametersOf(o: Operation): map<(string, string), Parameter> {
    ByKey(o.parameters, (p: Parameter) => (p.location, p.name))
  }
  function MediaOf(content: seq<Media>): map<string, Media> { ByKey(content, (m: Media) => m.mediaType) }
  function ResponsesOf(o: Operation): map<string, Response> { ByKey(o.responses, (r: Response) => r.status) }

  function AuthRank(auth: string): nat {
    if auth == "anonymous" then 0 else if auth == "optional" then 1 else if auth == "required" then 2 else 3
  }

  function EffectiveScope(o: Operation): Option<Scope> {
    if o.permissionScope.Some? then o.permissionScope
    else if o.permission.Some? then Some(System) else None
  }

  // ----- one operation ----------------------------------------------------------------

  /** `compare_parameters`, for one parameter of the new operation. */
  function ParameterKinds(olds: map<(string, string), Parameter>, p: Parameter): set<Kind> {
    var key := (p.location, p.name);
    if key !in olds then When(p.required, RequiredInputAdded(p.location, p.name))
    else
      When(!olds[key].required && p.required, InputBecameRequired(p.location, p.name))
      + set x | x in Breaks(olds[key].schema, p.schema, [], true) :: InputNarrowed(p.location, p.name, x)
  }

  /** `compare_media`, for one media type of the old content. */
  function MediaKinds(m: Media, news: map<string, Media>, input: bool, place: string): set<Kind> {
    if m.mediaType !in news then {MediaRemoved(place, m.mediaType)}
    else if m.schema.Some? && news[m.mediaType].schema.Some? then
      set x | x in Breaks(m.schema.value, news[m.mediaType].schema.value, [], input) :: MediaNarrowed(place, m.mediaType, x)
    else {}
  }

  function ContentKinds(olds: seq<Media>, news: seq<Media>, input: bool, place: string): set<Kind> {
    set m, k | m in olds && k in MediaKinds(m, MediaOf(news), input, place) :: k
  }

  function BodyKinds(old_: Option<Body>, new_: Option<Body>): set<Kind> {
    match (old_, new_)
    case (None, Some(b)) => When(b.required, RequiredBodyAdded)
    case (Some(_), None) => {BodyRemoved}
    case (Some(a), Some(b)) =>
      When(!a.required && b.required, BodyBecameRequired) + ContentKinds(a.content, b.content, true, "request")
    case (None, None) => {}
  }

  function ResponseKinds(r: Response, news: map<string, Response>): set<Kind> {
    if r.status !in news then {ResponseRemoved(r.status)}
    else ContentKinds(r.content, news[r.status].content, false, "response " + r.status)
  }

  /** Issues that only leaving the API line accepts. */
  function SchemaKinds(old_: Operation, new_: Operation): set<Kind> {
    (set key, k | key in ParametersOf(new_) && k in ParameterKinds(ParametersOf(old_), ParametersOf(new_)[key]) :: k)
    + BodyKinds(old_.body, new_.body)
    + (set r, k | r in old_.responses && k in ResponseKinds(r, ResponsesOf(new_)) :: k)
  }

  /** Issues that a major bump accepts. */
  function ShapeKinds(old_: Operation, new_: Operation): set<Kind> {
    When(old_.apiId != new_.apiId, ApiChanged)
    + When(old_.path != new_.path, PathChanged)
    + When(old_.verb != new_.verb, MethodChanged)
    + When(AuthRank(new_.auth) > AuthRank(old_.auth), AuthStrengthened)
    + When(old_.permission != new_.permission, PermissionChanged)
    + When(EffectiveScope(old_) != EffectiveScope(new_), PermissionScopeChanged)
  }

  /** The major the operation has now, or else the one its API surface has now. */
  function CurrentMajor(old_: Operation, current: Contract): Option<nat> {
    if old_.operationId in OperationsOf(current) then Some(OperationsOf(current)[old_.operationId].major)
    else if old_.apiId in SurfacesOf(current) then Some(SurfacesOf(current)[old_.apiId].major)
    else None
  }

  predicate Bumped(old_: Operation, current: Contract) {
    CurrentMajor(old_, current).Some? && CurrentMajor(old_, current).value > old_.major
  }

  predicate SameApiLine(old_: Operation, new_: Operation) {
    old_.apiId == new_.apiId && new_.major == old_.major
  }

  function OperationIssues(old_: Operation, current: Contract): set<Issue> {
    var bumped := Bumped(old_, current);
    if old_.operationId !in OperationsOf(current) then
      {Issue(OperationRemoved, old_.apiId, old_.operationId, bumped)}
    else
      var new_ := OperationsOf(current)[old_.operationId];
      (set k | k in ShapeKinds(old_, new_) :: Issue(k, old_.apiId, old_.operationId, bumped))
      + set k | k in SchemaKinds(old_, new_) :: Issue(k, old_.apiId, old_.operationId, !SameApiLine(old_, new_))
  }

  // ----- routes and events ------------------------------------------------------------

  /** `compare_routes`, for one old route. Here the API surface decides alone. */
  function RouteIssues(r: Route, previous: Contract, current: Contract): set<Issue> {
    if r.operationId !in OperationsOf(previous) then {}
    else
      var operation := OperationsOf(previous)[r.operationId];
      var bumped := operation.apiId in SurfacesOf(current) && SurfacesOf(current)[operation.apiId].major > operation.major;
      if r.operationId !in RoutesOf(current) then {Issue(RouteRemoved, r.apiId, r.operationId, bumped)}
      else
        var n := RoutesOf(current)[r.operationId];
        if r.audience != n.audience || r.verb != n.verb || r.path != n.path
        then {Issue(RouteChanged, r.apiId, r.operationId, bumped)} else {}
  }

  function EventsOf(events: seq<Event>): map<(string, nat), Event> {
    ByKey(events, (e: Event) => (e.eventType, e.version))
  }

  /** Some event of the type has a higher major; what the maximum over the list decides. */
  predicate Superseded(e: Event, current: seq<Event>) {
    exists n :: n in current && n.eventType == e.eventType && n.version > e.version
  }

  /** `compare_event_side`, for one old event. */
  function EventIssues(e: Event, current: seq<Event>, published: bool): set<Issue> {
    IssuesOf(e, EventsOf(current), Superseded(e, current), published)
  }

  function IssuesOf(e: Event, news: map<(string, nat), Event>, superseded: bool, published: bool): set<Issue> {
    if (e.eventType, e.version) !in news then
      {Issue(EventRemoved(published), "events", e.eventType, superseded)}
    else
      var n := news[(e.eventType, e.version)];
      (if e.digest != n.digest then {Issue(EventSchemaChanged(published), "events", e.eventType, false)} else {})
      + (if e.delivery != n.delivery then {Issue(EventDeliveryChanged(published), "events", e.eventType, false)} else {})
  }

  // ----- the comparison ---------------------------------------------------------------

  ghost function OperationsSide(previous: Contract, current: Contract): set<Issue> {
    set id, i | id in OperationsOf(previous) && i in OperationIssues(OperationsOf(previous)[id], current) :: i
  }

  ghost function RoutesSide(previous: Contract, current: Contract): set<Issue> {
    set r, i | r in previous.routes && i in RouteIssues(r, previous, current) :: i
  }

  ghost function EventsSide(previous: seq<Event>, current: seq<Event>, published: bool): set<Issue> {
    set e, i | e in previous && i in EventIssues(e, current, published) :: i
  }

  ghost function AllIssues(previous: Contract, current: Contract): set<Issue> {
    OperationsSide(previous, current) + RoutesSide(previous, current)
    + EventsSide(previous.publishes, current.publishes, true)
    + EventsSide(previous.subscribes, current.subscribes, false)
  }

  method CompareOperations(previous: Contract, current: Contract) returns (issues: set<Issue>)
    ensures issues == OperationsSide(previous, current)
  {
    hide OperationIssues;
    issues := {};
    var olds := OperationsOf(previous);
    var todo := olds.Keys;
    while todo != {}
      invariant todo <= olds.Keys
      invariant issues == set id, i | id in olds.Keys - todo && i in OperationIssues(olds[id], current) :: i
    {
      var id :| id in todo;
      assert olds.Keys - (todo - {id}) == (olds.Keys - todo) + {id};
      issues := issues + OperationIssues(olds[id], current);
      todo := todo - {id};
    }
  }

  method CompareRoutes(previous: Contract, current: Contract) returns (issues: set<Issue>)
    ensures issues == RoutesSide(previous, current)
  {
    hide RouteIssues;
    issues := {};
    for n := 0 to |previous.routes|
      invariant issues == set x, i | x in previous.routes[..n] && i in RouteIssues(x, previous, current) :: i
    {
      assert previous.routes[..n+1] == previous.routes[..n] + [previous.routes[n]];
      issues := issues + RouteIssues(previous.routes[n], previous, current);
    }
    assert previous.routes[..|previous.routes|] == previous.routes;
  }

  /** The highest version of each event type, folded over the list. */
  method LatestVersions(events: seq<Event>) returns (latest: map<string, nat>)
    ensures forall e: Event :: Superseded(e, events) <==> e.eventType in latest && latest[e.eventType] > e.version
  {
    latest := map[];
    for i := 0 to |events|
      invariant forall j :: 0 <= j < i ==> events[j].eventType in latest && events[j].version <= latest[events[j].eventType]
      invariant forall t :: t in latest ==> exists j :: 0 <= j < i && events[j].eventType == t && events[j].version == latest[t]
    {
      var e := events[i];
      if e.eventType !in latest || latest[e.eventType] < e.version {
        latest := latest[e.eventType := e.version];
      }
    }
    forall e: Event ensures Superseded(e, events) <==> e.eventType in latest && latest[e.eventType] > e.version {
      if e.eventType in latest {
        var j :| 0 <= j < |events| && events[j].eventType == e.eventType && events[j].version == latest[e.eventType];
        assert events[j] in events;
      }
    }
  }

  lemma MoreEvents(previous: seq<Event>, current: seq<Event>, published: bool, n: nat)
    requires n < |previous|
    ensures EventsSide(previous[..n+1], current, published) ==
            EventsSide(previous[..n], current, published) + EventIssues(previous[n], current, published)
  {
    hide EventIssues;
    assert previous[..n+1] == previous[..n] + [previous[n]];
  }

  method CompareEventSide(previous: seq<Event>, current: seq<Event>, published: bool) returns (issues: set<Issue>)
    ensures issues == EventsSide(previous, current, published)
  {
    hide IssuesOf, EventsOf;
    var news := EventsOf(current);
    var latest := LatestVersions(current);
    issues := {};
    for n := 0 to |previous|
      invariant issues == EventsSide(previous[..n], current, published)
    {
      var e := previous[n];
      var superseded := e.eventType in latest && latest[e.eventType] > e.version;
      MoreEvents(previous, current, published, n);
      issues := issues + IssuesOf(e, news, superseded, published);
    }
    assert previous[..|previous|] == previous;
  }

  /** `compare`. Order and repetition of the reported issues are not modelled. */
  method Compare(previous: Contract, current: Contract) returns (r: Result<Report, CompareError>)
    ensures r.Err? <==> previous.serviceId != current.serviceId || current.version <= previous.version
    ensures r.Ok? ==> r.value.issues == AllIssues(previous, current)
    ensures r.Ok? ==> (r.value.compatible <==> Compatible(previous, current))
  {
    if previous.serviceId != current.serviceId { return Err(OtherService); }
    if current.version <= previous.version { return Err(NotNewer); }
    var operations := CompareOperations(previous, current);
    var routes := CompareRoutes(previous, current);
    var published := CompareEventSide(previous.publishes, current.publishes, true);
    var subscribed := CompareEventSide(previous.subscribes, current.subscribes, false);
    var issues := operations + routes + published + subscribed;
    r := Ok(Report(forall i: Issue | i in issues :: i.accepted, issues));
  }

  ghost predicate Compatible(previous: Contract, current: Contract) {
    forall i :: i in AllIssues(previous, current) ==> i.accepted
  }

  // ----- the verdict, spelled out -------------------------------------------------------

  /** The operation is called as before, with no more authority. */
  ghost predicate ShapeKept(a: Operation, b: Operation) {
    && a.apiId == b.apiId && a.path == b.path && a.verb == b.verb && a.permission == b.permission
    && (a.auth == "anonymous" ==> b.auth == "anonymous")
    && (a.auth == "optional" ==> b.auth == "anonymous" || b.auth == "optional")
    && (a.auth == "required" ==> b.auth == "anonymous" || b.auth == "optional" || b.auth == "required")
    && (a.permissionScope == b.permissionScope
        || (a.permission.Some? && ImplicitlySystem(a.permissionScope) && ImplicitlySystem(b.permissionScope)))
  }

  /** A permission without a scope is one for the whole system. */
  ghost predicate ImplicitlySystem(scope: Option<Scope>) {
    scope == None || scope == Some(System)
  }

  /** A parameter is optional or was required before, and accepts what it did. */
  ghost predicate ParameterKept(olds: map<(string, string), Parameter>, p: Parameter) {
    var key := (p.location, p.name);
    if key !in olds then !p.required
    else (p.required ==> olds[key].required) && Replaces(olds[key].schema, p.schema, true)
  }

  ghost predicate MediaKept(m: Media, news: map<string, Media>, input: bool) {
    && m.mediaType in news
    && (m.schema.Some? && news[m.mediaType].schema.Some? ==>
          Replaces(m.schema.value, news[m.mediaType].schema.value, input))
  }

  ghost predicate ContentKept(olds: seq<Media>, news: seq<Media>, input: bool) {
    forall m :: m in olds ==> MediaKept(m, MediaOf(news), input)
  }

  ghost predicate BodyKept(a: Option<Body>, b: Option<Body>) {
    && (a.None? && b.Some? ==> !b.value.required)
    && (a.Some? ==> b.Some? && (b.value.required ==> a.value.required) && ContentKept(a.value.content, b.value.content, true))
  }

  ghost predicate ResponseKept(r: Response, news: map<string, Response>) {
    r.status in news && ContentKept(r.content, news[r.status].content, false)
  }

  ghost predicate SchemasKept(a: Operation, b: Operation) {
    && (forall key :: key in ParametersOf(b) ==> ParameterKept(ParametersOf(a), ParametersOf(b)[key]))
    && BodyKept(a.body, b.body)
    && (forall r :: r in a.responses ==> ResponseKept(r, ResponsesOf(b)))
  }

  /** What becomes of an operation in a compatible contract. It may go only if its API has a
      higher major now, it may be called otherwise only at a higher major of its own, and on the
      same line of its API its schemas are kept. */
  ghost predicate OperationKept(a: Operation, current: Contract) {
    if a.operationId in OperationsOf(current) then
      var b := OperationsOf(current)[a.operationId];
      && (b.major > a.major || ShapeKept(a, b))
      && (b.apiId == a.apiId && b.major == a.major ==> SchemasKept(a, b))
    else
      a.apiId in SurfacesOf(current) && SurfacesOf(current)[a.apiId].major > a.major
  }

  /** An exposed operation stays where it is unless its API has a higher major now. */
  ghost predicate RouteKept(r: Route, previous: Contract, current: Contract) {
    r.operationId in OperationsOf(previous) ==>
      var a := OperationsOf(previous)[r.operationId];
      || (a.apiId in SurfacesOf(current) && SurfacesOf(current)[a.apiId].major > a.major)
      || (r.operationId in RoutesOf(current)
          && var n := RoutesOf(current)[r.operationId]; n.audience == r.audience && n.verb == r.verb && n.path == r.path)
  }

  /** An event keeps its schema and delivery, or a higher version takes its place. */
  ghost predicate EventKept(e: Event, news: seq<Event>) {
    if (e.eventType, e.version) in EventsOf(news) then
      var n := EventsOf(news)[(e.eventType, e.version)]; n.digest == e.digest && n.delivery == e.delivery
    else exists n :: n in news && n.eventType == e.eventType && n.version > e.version
  }

  lemma ShapeSpelledOut(a: Operation, b: Operation)
    ensures ShapeKinds(a, b) == {} <==> ShapeKept(a, b)
    ensures ApiChanged in ShapeKinds(a, b) <==> a.apiId != b.apiId
    ensures PathChanged in ShapeKinds(a, b) <==> a.path != b.path
    ensures MethodChanged in ShapeKinds(a, b) <==> a.verb != b.verb
    ensures PermissionChanged in ShapeKinds(a, b) <==> a.permission != b.permission
  {
    var kinds := ShapeKinds(a, b);
    assert AuthStrengthened in kinds <==> AuthRank(b.auth) > AuthRank(a.auth);
    assert PermissionScopeChanged in kinds <==> EffectiveScope(a) != EffectiveScope(b);
    assert forall k :: k in kinds ==>
      k.ApiChanged? || k.PathChanged? || k.MethodChanged? || k.AuthStrengthened? || k.PermissionChanged? || k.PermissionScopeChanged?;
    assert kinds == {} <==> forall k :: k !in kinds;
  }

  lemma OperationSpelledOut(a: Operation, current: Contract)
    ensures (forall i :: i in OperationIssues(a, current) ==> i.accepted) <==> OperationKept(a, current)
  {
    hide ShapeKinds, SchemaKinds, ShapeKept, SchemasKept;
    var issues := OperationIssues(a, current);
    if a.operationId in OperationsOf(current) {
      var b := OperationsOf(current)[a.operationId];
      ShapeSpelledOut(a, b);
      SchemasSpelledOut(a, b);
      forall k | k in ShapeKinds(a, b) ensures Issue(k, a.apiId, a.operationId, Bumped(a, current)) in issues {
      }
      forall k | k in SchemaKinds(a, b) ensures Issue(k, a.apiId, a.operationId, !SameApiLine(a, b)) in issues {
      }
    } else {
      assert Issue(OperationRemoved, a.apiId, a.operationId, Bumped(a, current)) in issues;
    }
  }

  lemma RouteSpelledOut(r: Route, previous: Contract, current: Contract)
    ensures (forall i :: i in RouteIssues(r, previous, current) ==> i.accepted) <==> RouteKept(r, previous, current)
    ensures forall i :: i in RouteIssues(r, previous, current) ==>
              && i.apiId == r.apiId && i.operationId == r.operationId
              && i.kind == if r.operationId in RoutesOf(current) then RouteChanged else RouteRemoved
  {
    var issues := RouteIssues(r, previous, current);
    assert issues == {} || exists i :: i in issues && issues == {i};
  }

  lemma EventSpelledOut(e: Event, news: seq<Event>, published: bool)
    ensures (forall i :: i in EventIssues(e, news, published) ==> i.accepted) <==> EventKept(e, news)
    ensures forall i :: i in EventIssues(e, news, published) ==> i.operationId == e.eventType && i.kind.published == published
    ensures forall i :: i in EventIssues(e, news, published) ==>
              (i.kind.EventRemoved? <==> (e.eventType, e.version) !in EventsOf(news))
  {
    var issues := EventIssues(e, news, published);
    if (e.eventType, e.version) in EventsOf(news) {
      var n := EventsOf(news)[(e.eventType, e.version)];
      assert e.digest != n.digest ==> Issue(EventSchemaChanged(published), "events", e.eventType, false) in issues;
      assert e.delivery != n.delivery ==> Issue(EventDeliveryChanged(published), "events", e.eventType, false) in issues;
    } else {
      assert Issue(EventRemoved(published), "events", e.eventType, Superseded(e, news)) in issues;
    }
  }

  ghost predicate EventsSideKept(olds: seq<Event>, news: seq<Event>) {
    forall e :: e in olds ==> EventKept(e, news)
  }

  lemma EventsSideSpelledOut(olds: seq<Event>, news: seq<Event>, published: bool)
    ensures (forall i :: i in EventsSide(olds, news, published) ==> i.accepted) <==> EventsSideKept(olds, news)
  {
    hide EventIssues, EventKept;
    forall e | e in olds ensures (forall i :: i in EventIssues(e, news, published) ==> i.accepted) <==> EventKept(e, news) {
      EventSpelledOut(e, news, published);
    }
    assert forall e, i :: e in olds && i in EventIssues(e, news, published) ==> i in EventsSide(olds, news, published);
  }

  ghost predicate OperationsKept(previous: Contract, current: Contract) {
    forall id :: id in OperationsOf(previous) ==> OperationKept(OperationsOf(previous)[id], current)
  }

  lemma OperationsSpelledOut(previous: Contract, current: Contract)
    ensures (forall i :: i in OperationsSide(previous, current) ==> i.accepted) <==> OperationsKept(previous, current)
  {
    hide OperationIssues, OperationKept;
    var olds := OperationsOf(previous);
    forall id | id in olds
      ensures (forall i :: i in OperationIssues(olds[id], current) ==> i.accepted) <==> OperationKept(olds[id], current)
    {
      OperationSpelledOut(olds[id], current);
    }
    assert forall id, i :: id in olds && i in OperationIssues(olds[id], current) ==> i in OperationsSide(previous, current);
  }

  lemma RoutesSpelledOut(previous: Contract, current: Contract)
    ensures (forall i :: i in RoutesSide(previous, current) ==> i.accepted) <==>
            forall r :: r in previous.routes ==> RouteKept(r, previous, current)
  {
    hide RouteIssues, RouteKept;
    forall r | r in previous.routes
      ensures (forall i :: i in RouteIssues(r, previous, current) ==> i.accepted) <==> RouteKept(r, previous, current)
    {
      RouteSpelledOut(r, previous, current);
    }
    assert forall r, i :: r in previous.routes && i in RouteIssues(r, previous, current) ==> i in RoutesSide(previous, current);
  }

  /** The verdict is compatible if and only if every operation, every exposed route and every
      event of the old contract is kept. */
  lemma CompatibleIffKept(previous: Contract, current: Contract)
    ensures Compatible(previous, current) <==>
              && OperationsKept(previous, current)
              && (forall r :: r in previous.routes ==> RouteKept(r, previous, current))
              && EventsSideKept(previous.publishes, current.publishes)
              && EventsSideKept(previous.subscribes, current.subscribes)
  {
    hide OperationsSide, RoutesSide, EventsSide, OperationsKept, RouteKept, EventsSideKept;
    OperationsSpelledOut(previous, current);
    RoutesSpelledOut(previous, current);
    EventsSideSpelledOut(previous.publishes, current.publishes, true);
    EventsSideSpelledOut(previous.subscribes, current.subscribes, false);
    var all := AllIssues(previous, current);
    assert forall i :: i in all <==>
      || i in OperationsSide(previous, current) || i in RoutesSide(previous, current)
      || i in EventsSide(previous.publishes, current.publishes, true)
      || i in EventsSide(previous.subscribes, current.subscribes, false);
  }

  // ----- what a compatible verdict means ------------------------------------------------

  lemma Reported(previous: Contract, current: Contract, id: string, i: Issue)
    requires id in OperationsOf(previous) && i in OperationIssues(OperationsOf(previous)[id], current)
    ensures i in AllIssues(previous, current)
  {
  }

  /** Without a major bump the operation is still there, where and how clients call it. */
  lemma CallableAsBefore(previous: Contract, current: Contract, id: string)
    requires Compatible(previous, current) && id in OperationsOf(previous)
    requires NotBumped(OperationsOf(previous)[id], current)
    ensures id in OperationsOf(current)
    ensures ShapeKept(OperationsOf(previous)[id], OperationsOf(current)[id])
    ensures OperationsOf(current)[id].major <= OperationsOf(previous)[id].major
  {
    hide ShapeKept, SchemasKept;
    CompatibleIffKept(previous, current);
    assert OperationKept(OperationsOf(previous)[id], current);
  }

  /** The operation has no higher major now, and if it is gone its API has none either. */
  ghost predicate NotBumped(a: Operation, current: Contract) {
    if a.operationId in OperationsOf(current) then OperationsOf(current)[a.operationId].major <= a.major
    else a.apiId in SurfacesOf(current) ==> SurfacesOf(current)[a.apiId].major <= a.major
  }

  /** The same on the lists of the contract: if the verdict is compatible and neither the
      operation nor its API occurs with a higher major, the operation is still listed. */
  lemma ListedAsBefore(previous: Contract, current: Contract, id: string)
    requires Compatible(previous, current) && id in OperationsOf(previous)
    requires forall o :: o in current.operations && o.operationId == id ==> o.major <= OperationsOf(previous)[id].major
    requires forall s :: s in current.surfaces && s.apiId == OperationsOf(previous)[id].apiId ==>
               s.major <= OperationsOf(previous)[id].major
    ensures var a := OperationsOf(previous)[id];
            exists b :: b in current.operations && b.operationId == id && b.apiId == a.apiId && b.path == a.path
                        && b.verb == a.verb && b.permission == a.permission
  {
    CallableAsBefore(previous, current, id);
    assert OperationsOf(current)[id] in current.operations;
  }

  /** A removed operation is reported, as accepted exactly if its API has a higher major now. */
  lemma RemovalIsReported(previous: Contract, current: Contract, id: string)
    requires id in OperationsOf(previous) && forall o :: o in current.operations ==> o.operationId != id
    ensures var a := OperationsOf(previous)[id];
            var raised := a.apiId in SurfacesOf(current) && SurfacesOf(current)[a.apiId].major > a.major;
            && Issue(OperationRemoved, a.apiId, id, raised) in AllIssues(previous, current)
            && (!raised ==> !Compatible(previous, current))
  {
    var a := OperationsOf(previous)[id];
    assert a.operationId == id && id !in OperationsOf(current);
    var raised := a.apiId in SurfacesOf(current) && SurfacesOf(current)[a.apiId].major > a.major;
    Reported(previous, current, id, Issue(OperationRemoved, a.apiId, id, raised));
    hide AllIssues;
  }

  /** A higher major of the operation accepts whatever else changed in it. */
  lemma BumpAcceptsEverything(previous: Contract, current: Contract, id: string, i: Issue)
    requires id in OperationsOf(previous) && id in OperationsOf(current)
    requires OperationsOf(current)[id].major > OperationsOf(previous)[id].major
    requires i in OperationIssues(OperationsOf(previous)[id], current)
    ensures i.accepted
  {
    hide ShapeKept, SchemasKept;
    OperationSpelledOut(OperationsOf(previous)[id], current);
  }

  /** On the same API line no schema issue is tolerated. */
  lemma NoSchemaIssue(previous: Contract, current: Contract, id: string)
    requires Compatible(previous, current) && id in OperationsOf(previous) && id in OperationsOf(current)
    requires SameApiLine(OperationsOf(previous)[id], OperationsOf(current)[id])
    ensures SchemasKept(OperationsOf(previous)[id], OperationsOf(current)[id])
    ensures SchemaKinds(OperationsOf(previous)[id], OperationsOf(current)[id]) == {}
  {
    hide ShapeKept, SchemasKept, SchemaKinds;
    CompatibleIffKept(previous, current);
    assert OperationKept(OperationsOf(previous)[id], current);
    SchemasSpelledOut(OperationsOf(previous)[id], OperationsOf(current)[id]);
  }

  /** On the same API line a response keeps its status and media types, and every property path
      a client could read is still readable with the same type if the media type still has a
      schema; dropping the schema is not reported. */
  lemma ResponsesSurvive(previous: Contract, current: Contract, id: string, r: Response, m: Media, path: seq<string>)
    requires Compatible(previous, current) && id in OperationsOf(previous) && id in OperationsOf(current)
    requires SameApiLine(OperationsOf(previous)[id], OperationsOf(current)[id])
    requires r in OperationsOf(previous)[id].responses && m in r.content
    requires m.schema.Some? && Follow(m.schema.value, path).Some?
    ensures r.status in ResponsesOf(OperationsOf(current)[id])
    ensures var news := MediaOf(ResponsesOf(OperationsOf(current)[id])[r.status].content);
            && m.mediaType in news
            && var schema := news[m.mediaType].schema;
               (schema.Some? ==>
                  && Follow(schema.value, path).Some?
                  && Follow(schema.value, path).value.kind == Follow(m.schema.value, path).value.kind)
  {
    NoSchemaIssue(previous, current, id);
    hide Compatible, SchemaKinds, ParameterKept, BodyKept;
    var b := OperationsOf(current)[id];
    assert ResponseKept(r, ResponsesOf(b));
    var news := MediaOf(ResponsesOf(b)[r.status].content);
    assert MediaKept(m, news, false);
    if news[m.mediaType].schema.Some? { ResponsePathsSurvive(m.schema.value, news[m.mediaType].schema.value, path); }
  }

  /** And it does happen: whatever a response promised, leaving its schema out is compatible. */
  lemma ResponseSchemaCanBeDropped(schema: Schema)
    ensures var a := Operation("op", "api", 1, "/", "GET", "anonymous", None, None, [], None,
                               [Response("200", [Media("application/json", Some(schema))])]);
            var b := a.(responses := [Response("200", [Media("application/json", None)])]);
            Compatible(Contract("s", 1, [a], [], [], [], []), Contract("s", 2, [b], [], [], [], []))
  {
    var a := Operation("op", "api", 1, "/", "GET", "anonymous", None, None, [], None,
                       [Response("200", [Media("application/json", Some(schema))])]);
    var b := a.(responses := [Response("200", [Media("application/json", None)])]);
    var previous, current := Contract("s", 1, [a], [], [], [], []), Contract("s", 2, [b], [], [], [], []);
    assert a in previous.operations && b in current.operations;
    assert OperationsOf(previous) == map["op" := a] && OperationsOf(current) == map["op" := b];
    hide Compatible, OperationKept, ByKey;
    CompatibleIffKept(previous, current);
    WithoutSchema(a, b, schema);
    KeptOnItsLine(a, b, current);
  }

  lemma WithoutSchema(a: Operation, b: Operation, schema: Schema)
    requires a.responses == [Response("200", [Media("application/json", Some(schema))])]
    requires b == a.(responses := [Response("200", [Media("application/json", None)])])
    requires a.parameters == [] && a.body == None
    ensures SchemasKept(a, b)
  {
    var r, n := a.responses[0], b.responses[0];
    assert n in b.responses && n.content[0] in n.content;
    hide ByKey, Replaces;
    assert ResponsesOf(b)["200"] == n && MediaOf(n.content)["application/json"] == n.content[0];
    assert ResponseKept(r, ResponsesOf(b));
  }

  lemma KeptOnItsLine(a: Operation, b: Operation, current: Contract)
    requires a.operationId in OperationsOf(current) && OperationsOf(current)[a.operationId] == b
    requires ShapeKept(a, b) && SchemasKept(a, b)
    ensures OperationKept(a, current)
  {
    hide ShapeKept, SchemasKept;
  }

  /** What a client sends: parameters by location and name, and perhaps a body. */
  datatype Request = Request(parameters: map<(string, string), Value>, body: Option<(string, Value)>)

  ghost predicate ParameterAccepts(p: Parameter, req: Request, matches: (string, string) -> bool) {
    var key := (p.location, p.name);
    && (p.required ==> key in req.parameters)
    && (key in req.parameters ==> Accepts(p.schema, req.parameters[key], matches))
  }

  ghost predicate BodyAccepts(body: Option<Body>, sent: Option<(string, Value)>, matches: (string, string) -> bool) {
    match sent
    case None => body.Some? ==> !body.value.required
    case Some((mediaType, v)) =>
      && body.Some? && mediaType in MediaOf(body.value.content)
      && var schema := MediaOf(body.value.content)[mediaType].schema; (schema.Some? ==> Accepts(schema.value, v, matches))
  }

  /** The operation accepts the request. */
  ghost predicate Serves(o: Operation, req: Request, matches: (string, string) -> bool) {
    && (forall key :: key in ParametersOf(o) ==> ParameterAccepts(ParametersOf(o)[key], req, matches))
    && BodyAccepts(o.body, req.body, matches)
  }

  /** The parts of the request that only the new operation constrains satisfy it: parameters
      and fields it added, and bodies whose media type had no schema before. */
  ghost predicate NewPartsOk(a: Operation, b: Operation, req: Request, matches: (string, string) -> bool) {
    && (forall key :: key in ParametersOf(b) && key in req.parameters ==>
          if key in ParametersOf(a)
          then NewFieldsOk(ParametersOf(a)[key].schema, ParametersOf(b)[key].schema, req.parameters[key], matches)
          else Accepts(ParametersOf(b)[key].schema, req.parameters[key], matches))
    && (a.body.Some? && b.body.Some? ==> NewBodyOk(a.body.value, b.body.value, req.body, matches))
  }

  ghost predicate NewBodyOk(a: Body, b: Body, sent: Option<(string, Value)>, matches: (string, string) -> bool) {
    sent.Some? && sent.value.0 in MediaOf(a.content) && sent.value.0 in MediaOf(b.content) ==>
      var olds, news := MediaOf(a.content)[sent.value.0].schema, MediaOf(b.content)[sent.value.0].schema;
      news.Some? ==>
        if olds.Some? then NewFieldsOk(olds.value, news.value, sent.value.1, matches)
        else Accepts(news.value, sent.value.1, matches)
  }

  ghost predicate InhabitedSchemas(o: Operation) {
    && (forall p :: p in o.parameters ==> Inhabited(p.schema))
    && (o.body.Some? ==> forall m :: m in o.body.value.content && m.schema.Some? ==> Inhabited(m.schema.value))
  }

  /** An issue-free parameter asks for no more than it did. */
  lemma ParameterKindsSpelledOut(olds: map<(string, string), Parameter>, p: Parameter)
    ensures ParameterKinds(olds, p) == {} <==> ParameterKept(olds, p)
  {
    var key := (p.location, p.name);
    if key in olds {
      NoBreaksIffReplaces(olds[key].schema, p.schema, [], true);
      var kinds, breaks := ParameterKinds(olds, p), Breaks(olds[key].schema, p.schema, [], true);
      assert !olds[key].required && p.required <==> InputBecameRequired(p.location, p.name) in kinds;
      if breaks != {} {
        var x :| x in breaks;
        assert InputNarrowed(p.location, p.name, x) in kinds;
      }
    } else {
      assert p.required <==> RequiredInputAdded(p.location, p.name) in ParameterKinds(olds, p);
    }
  }

  lemma MediaKindsSpelledOut(m: Media, news: map<string, Media>, input: bool, place: string)
    ensures MediaKinds(m, news, input, place) == {} <==> MediaKept(m, news, input)
  {
    if m.mediaType in news && m.schema.Some? && news[m.mediaType].schema.Some? {
      NoBreaksIffReplaces(m.schema.value, news[m.mediaType].schema.value, [], input);
      var breaks := Breaks(m.schema.value, news[m.mediaType].schema.value, [], input);
      if breaks != {} {
        var x :| x in breaks;
        assert MediaNarrowed(place, m.mediaType, x) in MediaKinds(m, news, input, place);
      }
    }
  }

  lemma ContentKindsSpelledOut(olds: seq<Media>, news: seq<Media>, input: bool, place: string)
    ensures ContentKinds(olds, news, input, place) == {} <==> ContentKept(olds, news, input)
  {
    hide MediaKinds, MediaKept;
    forall m | m in olds ensures MediaKinds(m, MediaOf(news), input, place) == {} <==> MediaKept(m, MediaOf(news), input) {
      MediaKindsSpelledOut(m, MediaOf(news), input, place);
    }
    if m :| m in olds && !MediaKept(m, MediaOf(news), input) {
      var k :| k in MediaKinds(m, MediaOf(news), input, place);
      assert k in ContentKinds(olds, news, input, place);
    }
  }

  lemma BodyKindsSpelledOut(a: Option<Body>, b: Option<Body>)
    ensures BodyKinds(a, b) == {} <==> BodyKept(a, b)
  {
    var kinds := BodyKinds(a, b);
    if a.Some? && b.Some? {
      ContentKindsSpelledOut(a.value.content, b.value.content, true, "request");
      assert !a.value.required && b.value.required ==> BodyBecameRequired in kinds;
      assert ContentKinds(a.value.content, b.value.content, true, "request") <= kinds;
    } else if b.Some? {
      assert b.value.required ==> RequiredBodyAdded in kinds;
    } else if a.Some? {
      assert BodyRemoved in kinds;
    }
  }

  lemma ResponseKindsSpelledOut(r: Response, news: map<string, Response>)
    ensures ResponseKinds(r, news) == {} <==> ResponseKept(r, news)
  {
    if r.status in news {
      ContentKindsSpelledOut(r.content, news[r.status].content, false, "response " + r.status);
    }
  }

  /** No schema issue, spelled out for parameters, body and responses. */
  lemma SchemasSpelledOut(a: Operation, b: Operation)
    ensures SchemaKinds(a, b) == {} <==> SchemasKept(a, b)
  {
    hide ParameterKinds, BodyKinds, ResponseKinds, ParameterKept, BodyKept, ResponseKept;
    KindsNest(a, b);
    forall key | key in ParametersOf(b)
      ensures ParameterKinds(ParametersOf(a), ParametersOf(b)[key]) == {} <==> ParameterKept(ParametersOf(a), ParametersOf(b)[key])
    {
      ParameterKindsSpelledOut(ParametersOf(a), ParametersOf(b)[key]);
    }
    BodyKindsSpelledOut(a.body, b.body);
    forall r | r in a.responses ensures ResponseKinds(r, ResponsesOf(b)) == {} <==> ResponseKept(r, ResponsesOf(b)) {
      ResponseKindsSpelledOut(r, ResponsesOf(b));
    }
    if SchemasKept(a, b) { assert SchemaKinds(a, b) == {}; }
  }

  lemma KindsNest(a: Operation, b: Operation)
    ensures forall key :: key in ParametersOf(b) ==> ParameterKinds(ParametersOf(a), ParametersOf(b)[key]) <= SchemaKinds(a, b)
    ensures BodyKinds(a.body, b.body) <= SchemaKinds(a, b)
    ensures forall r :: r in a.responses ==> ResponseKinds(r, ResponsesOf(b)) <= SchemaKinds(a, b)
  {
    hide ParameterKinds, BodyKinds, ResponseKinds;
  }

  lemma ContentNests(olds: seq<Media>, news: seq<Media>, input: bool, place: string)
    ensures forall m :: m in olds ==> MediaKinds(m, MediaOf(news), input, place) <= ContentKinds(olds, news, input, place)
  {
  }

  lemma ParameterSound(a: Operation, b: Operation, key: (string, string), req: Request, matches: (string, string) -> bool)
    requires key in ParametersOf(b) && ParameterKinds(ParametersOf(a), ParametersOf(b)[key]) == {}
    requires Inhabited(ParametersOf(b)[key].schema)
    requires key in ParametersOf(a) ==> ParameterAccepts(ParametersOf(a)[key], req, matches)
    ensures ParameterAccepts(ParametersOf(b)[key], req, matches) <==>
              (key in req.parameters ==>
                if key in ParametersOf(a)
                then NewFieldsOk(ParametersOf(a)[key].schema, ParametersOf(b)[key].schema, req.parameters[key], matches)
                else Accepts(ParametersOf(b)[key].schema, req.parameters[key], matches))
  {
    var olds, p := ParametersOf(a), ParametersOf(b)[key];
    assert key == (p.location, p.name);
    ParameterKindsSpelledOut(olds, p);
    if key in olds && key in req.parameters {
      InputSound(olds[key].schema, p.schema, req.parameters[key], matches);
    }
  }

  lemma MediaSound(a: Body, b: Body, sent: (string, Value), matches: (string, string) -> bool)
    requires ContentKinds(a.content, b.content, true, "request") == {}
    requires forall m :: m in b.content && m.schema.Some? ==> Inhabited(m.schema.value)
    requires BodyAccepts(Some(a), Some(sent), matches)
    ensures BodyAccepts(Some(b), Some(sent), matches) <==> NewBodyOk(a, b, Some(sent), matches)
  {
    var m := MediaOf(a.content)[sent.0];
    assert m.mediaType == sent.0 && m in a.content;
    ContentNests(a.content, b.content, true, "request");
    MediaKindsSpelledOut(m, MediaOf(b.content), true, "request");
    var n := MediaOf(b.content)[sent.0];
    if m.schema.Some? && n.schema.Some? {
      InputSound(m.schema.value, n.schema.value, sent.1, matches);
    }
  }

  lemma BodySound(a: Option<Body>, b: Option<Body>, sent: Option<(string, Value)>, matches: (string, string) -> bool)
    requires BodyKinds(a, b) == {} && BodyAccepts(a, sent, matches)
    requires b.Some? ==> forall m :: m in b.value.content && m.schema.Some? ==> Inhabited(m.schema.value)
    ensures BodyAccepts(b, sent, matches) <==> (a.Some? && b.Some? ==> NewBodyOk(a.value, b.value, sent, matches))
  {
    assert BodyRemoved !in BodyKinds(a, b) && RequiredBodyAdded !in BodyKinds(a, b) && BodyBecameRequired !in BodyKinds(a, b);
    if a.Some? && b.Some? && sent.Some? {
      MediaSound(a.value, b.value, sent.value, matches);
    }
  }

  /** Substitutability. If the verdict is compatible and the operation keeps its major, the
      operation is still there under the same API, path, method and permission, and a
      request the old operation served is served by the new one exactly if the parts that
      only the new one constrains are acceptable to it. */
  lemma Substitutable(previous: Contract, current: Contract, id: string, req: Request, matches: (string, string) -> bool)
    requires Compatible(previous, current) && id in OperationsOf(previous)
    requires NotBumped(OperationsOf(previous)[id], current)
    requires id in OperationsOf(current) ==> OperationsOf(current)[id].major == OperationsOf(previous)[id].major
    requires Serves(OperationsOf(previous)[id], req, matches)
    ensures id in OperationsOf(current)
    ensures var a, b := OperationsOf(previous)[id], OperationsOf(current)[id];
            SameApiLine(a, b) && a.path == b.path && a.verb == b.verb && a.permission == b.permission
    ensures InhabitedSchemas(OperationsOf(current)[id]) ==>
              (Serves(OperationsOf(current)[id], req, matches) <==>
               NewPartsOk(OperationsOf(previous)[id], OperationsOf(current)[id], req, matches))
  {
    CallableAsBefore(previous, current, id);
    NoSchemaIssue(previous, current, id);
    var a, b := OperationsOf(previous)[id], OperationsOf(current)[id];
    KindsNest(a, b);
    if InhabitedSchemas(b) {
      hide SchemaKinds;
      forall key | key in ParametersOf(b)
        ensures ParameterAccepts(ParametersOf(b)[key], req, matches) <==>
                  (key in req.parameters ==>
                    if key in ParametersOf(a)
                    then NewFieldsOk(ParametersOf(a)[key].schema, ParametersOf(b)[key].schema, req.parameters[key], matches)
                    else Accepts(ParametersOf(b)[key].schema, req.parameters[key], matches))
      {
        ParameterSound(a, b, key, req, matches);
      }
      BodySound(a.body, b.body, req.body, matches);
    }
  }

  /** The request uses only parameters, fields and media schemas that the old operation
      declares. */
  ghost predicate DeclaredRequest(a: Operation, req: Request) {
    && (forall key :: key in req.parameters ==>
          key in ParametersOf(a) && DeclaredOnly(ParametersOf(a)[key].schema, req.parameters[key]))
    && (req.body.Some? && a.body.Some? && req.body.value.0 in MediaOf(a.body.value.content) ==>
          var schema := MediaOf(a.body.value.content)[req.body.value.0].schema;
          schema.Some? && DeclaredOnly(schema.value, req.body.value.1))
  }

  /** So every request that keeps to what the old contract declared still works. */
  lemma DeclaredRequestsKeepWorking(previous: Contract, current: Contract, id: string, req: Request,
                                    matches: (string, string) -> bool)
    requires Compatible(previous, current) && id in OperationsOf(previous)
    requires NotBumped(OperationsOf(previous)[id], current)
    requires id in OperationsOf(current) ==> OperationsOf(current)[id].major == OperationsOf(previous)[id].major
    requires Serves(OperationsOf(previous)[id], req, matches) && DeclaredRequest(OperationsOf(previous)[id], req)
    ensures id in OperationsOf(current)
    ensures InhabitedSchemas(OperationsOf(current)[id]) ==> Serves(OperationsOf(current)[id], req, matches)
  {
    Substitutable(previous, current, id, req, matches);
    var a, b := OperationsOf(previous)[id], OperationsOf(current)[id];
    forall key | key in ParametersOf(b) && key in req.parameters
      ensures NewFieldsOk(ParametersOf(a)[key].schema, ParametersOf(b)[key].schema, req.parameters[key], matches)
    {
      DeclaredFieldsAreOk(ParametersOf(a)[key].schema, ParametersOf(b)[key].schema, req.parameters[key], matches);
    }
    if a.body.Some? && b.body.Some? && req.body.Some? {
      var (mediaType, v) := req.body.value;
      if mediaType in MediaOf(b.body.value.content) && MediaOf(b.body.value.content)[mediaType].schema.Some? {
        DeclaredFieldsAreOk(MediaOf(a.body.value.content)[mediaType].schema.value,
                            MediaOf(b.body.value.content)[mediaType].schema.value, v, matches);
      }
    }
  }

  /** Keeping the major is needed: lowering it leaves the API line, which accepts every
      schema issue although nothing was bumped. Here a parameter becomes required. */
  lemma LoweredMajorHidesBreaks(matches: (string, string) -> bool)
    ensures var p := Parameter("query", "q", false, ANY);
            var a := Operation("op", "api", 2, "/", "GET", "anonymous", None, None, [p], None, []);
            var b := a.(major := 1, parameters := [p.(required := true)]);
            var previous := Contract("s", 1, [a], [], [], [], []);
            var current := Contract("s", 2, [b], [], [], [], []);
            var req := Request(map[], None);
            && Compatible(previous, current) && NotBumped(a, current)
            && Serves(a, req, matches) && !Serves(b, req, matches)
  {
    var p := Parameter("query", "q", false, ANY);
    var a := Operation("op", "api", 2, "/", "GET", "anonymous", None, None, [p], None, []);
    var b := a.(major := 1, parameters := [p.(required := true)]);
    var previous := Contract("s", 1, [a], [], [], [], []);
    var current := Contract("s", 2, [b], [], [], [], []);
    assert b in current.operations && a in previous.operations;
    assert OperationsOf(current) == map["op" := b] && OperationsOf(previous) == map["op" := a];
    assert ShapeKinds(a, b) == {};
    LoweredMajorAcceptsAnything(a, b);
    hide Compatible;
    assert p in a.parameters && p.(required := true) in b.parameters;
    assert ("query", "q") in ParametersOf(b) && ParametersOf(b)[("query", "q")] == p.(required := true);
    assert ("query", "q") in ParametersOf(a) && ParametersOf(a)[("query", "q")] == p;
  }

  /** And not only there: whatever the schemas of the two operations, a lowered major with an
      unchanged shape is compatible. */
  lemma LoweredMajorAcceptsAnything(a: Operation, b: Operation)
    requires a.operationId == b.operationId && b.major < a.major && ShapeKinds(a, b) == {}
    ensures Compatible(Contract("s", 1, [a], [], [], [], []), Contract("s", 2, [b], [], [], [], []))
  {
    var previous, current := Contract("s", 1, [a], [], [], [], []), Contract("s", 2, [b], [], [], [], []);
    assert a in previous.operations && b in current.operations;
    assert OperationsOf(previous) == map[a.operationId := a] && OperationsOf(current) == map[a.operationId := b];
    hide SchemaKinds, ShapeKinds;
  }

  /** So between two versions of an operation with an unchanged shape and no bump, the schemas
      decide exactly when the major is kept. */
  lemma SchemasDecideIffMajorKept(a: Operation, b: Operation)
    requires a.operationId == b.operationId && b.major <= a.major && ShapeKinds(a, b) == {}
    ensures Compatible(Contract("s", 1, [a], [], [], [], []), Contract("s", 2, [b], [], [], [], [])) <==>
            (b.major == a.major ==> SchemaKinds(a, b) == {})
  {
    var previous, current := Contract("s", 1, [a], [], [], [], []), Contract("s", 2, [b], [], [], [], []);
    assert a in previous.operations && b in current.operations;
    assert OperationsOf(previous) == map[a.operationId := a] && OperationsOf(current) == map[a.operationId := b];
    assert a.apiId == b.apiId by { assert ApiChanged !in ShapeKinds(a, b); }
    hide SchemaKinds, ShapeKinds;
    if b.major < a.major {
      LoweredMajorAcceptsAnything(a, b);
    } else if Compatible(previous, current) {
      NoSchemaIssue(previous, current, a.operationId);
    }
  }

  /** External routes and events keep their promises too. */
  lemma RoutesKept(previous: Contract, current: Contract, r: Route)
    requires Compatible(previous, current) && r in previous.routes && r.operationId in OperationsOf(previous)
    requires var a := OperationsOf(previous)[r.operationId];
             a.apiId in SurfacesOf(current) ==> SurfacesOf(current)[a.apiId].major <= a.major
    ensures r.operationId in RoutesOf(current)
    ensures var n := RoutesOf(current)[r.operationId]; n.audience == r.audience && n.verb == r.verb && n.path == r.path
  {
    var issues := RouteIssues(r, previous, current);
    assert issues <= RoutesSide(previous, current);
    if issues != {} { assert false; }
  }

  lemma EventsKept(previous: Contract, current: Contract, e: Event, published: bool)
    requires Compatible(previous, current)
    requires e in if published then previous.publishes else previous.subscribes
    ensures var news := if published then current.publishes else current.subscribes;
            if exists n :: n in news && n.eventType == e.eventType && n.version == e.version
            then EventsOf(news)[(e.eventType, e.version)].digest == e.digest
                 && EventsOf(news)[(e.eventType, e.version)].delivery == e.delivery
            else Superseded(e, news)
  {
    var olds := if published then previous.publishes else previous.subscribes;
    var news := if published then current.publishes else current.subscribes;
    forall i | i in EventIssues(e, news, published) ensures i.accepted {
      assert i in EventsSide(olds, news, published);
    }
    if (e.eventType, e.version) in EventsOf(news) {
      assert Issue(EventSchemaChanged(published), "events", e.eventType, false) !in EventIssues(e, news, published);
      assert Issue(EventDeliveryChanged(published), "events", e.eventType, false) !in EventIssues(e, news, published);
    } else {
      assert Issue(EventRemoved(published), "events", e.eventType, Superseded(e, news)) in EventIssues(e, news, published);
    }
  }
}
