/** Compiling a service source into a contract (`compile` in tools/ojos-service/src/lib.rs): the
    lists of the source, the checks across them, and the contract with every list sorted.

    `sound` tells that an entry passes the checks of its own fields, and `detail` stands for the
    fields that are only copied. */
module ContractCompiler {
  import opened Basics
  import opened ContractRoutes
  import opened Ordering
  import opened CanonicalOrder

  datatype Api = Api(apiId: string, operations: seq<Operation>, permissions: set<string>, sound: bool, detail: int)
  datatype Resource = Resource(name: string, sound: bool, detail: int)
  datatype Migration = Migration(id: string, artifact: string, resource: string, sound: bool, detail: int)
  datatype Permission = Permission(key: string, sound: bool, detail: int)
  datatype PermissionReference = PermissionReference(key: string, sound: bool)
  datatype Mount = Mount(exposure: Exposure, sound: bool)
  datatype Frontend = Frontend(target: string, manifest: string, permissions: set<string>, sound: bool, detail: int)
  datatype Requirement = Requirement(id: string, sound: bool, detail: int)
  datatype Event = Event(eventType: string, version: nat, sound: bool, detail: int)
  datatype Volume = Volume(name: string, target: string, sound: bool)

  datatype Source = Source(
    sound: bool,                                  // metadata, runtime and configuration schema
    volumes: seq<Volume>,
    apis: seq<Api>,
    exposures: seq<Mount>,
    resources: seq<Resource>,
    migrations: seq<Migration>,
    permissions: seq<Permission>,
    permissionReferences: seq<PermissionReference>,
    apiRequirements: seq<Requirement>,
    packageRequirements: seq<Requirement>,
    publishes: seq<Event>,
    subscribes: seq<Event>,
    frontends: seq<Frontend>,
    detail: int)

  /** Everything of `ServiceContractV3` but the digest of the source text. */
  datatype Contract = Contract(
    volumes: seq<Volume>,
    surfaces: seq<Api>,
    operations: seq<Operation>,
    routes: seq<Route>,
    exposures: seq<Mount>,
    resources: seq<Resource>,
    migrations: seq<Migration>,
    permissions: seq<Permission>,
    permissionReferences: seq<PermissionReference>,
    apiRequirements: seq<Requirement>,
    packageRequirements: seq<Requirement>,
    publishes: seq<Event>,
    subscribes: seq<Event>,
    frontends: seq<Frontend>,
    detail: int)

  // ----- keys -----------------------------------------------------------------------------

  function ApiKey(x: Api): string { x.apiId }
  function ResourceKey(x: Resource): string { x.name }
  function MigrationKey(x: Migration): string { x.id }
  function ArtifactKey(x: Migration): string { x.artifact }
  function PermissionKey(x: Permission): string { x.key }
  function ReferenceKey(x: PermissionReference): string { x.key }
  function ExposureKey(x: Mount): string { x.exposure.id }
  function RequirementKey(x: Requirement): string { x.id }
  function EventKey(x: Event): (string, nat) { (x.eventType, x.version) }
  function TargetKey(x: Frontend): string { x.target }
  function FrontendKey(x: Frontend): seq<string> { [x.target, x.manifest] }
  function VolumeKey(x: Volume): seq<string> { [x.name, x.target] }
  function OperationId(x: Operation): string { x.operationId }
  function OperationKey(x: Operation): seq<string> { [x.apiId, x.path, x.verb, x.operationId] }
  function RouteKey(x: Route): seq<string> { [x.audience, x.path, x.verb, x.operationId] }

  // ----- what the lists amount to -----------------------------------------------------------

  /** The operations of one document carry its API id. */
  function OperationsOf(api: Api): (ops: seq<Operation>)
    ensures |ops| == |api.operations|
    ensures forall i :: 0 <= i < |ops| ==> ops[i] == api.operations[i].(apiId := api.apiId)
  {
    seq(|api.operations|, i requires 0 <= i < |api.operations| => api.operations[i].(apiId := api.apiId))
  }

  function Operations(src: Source): seq<Operation> {
    Flat(src.apis, OperationsOf)
  }

  function ExposureOf(m: Mount): seq<Exposure> {
    [m.exposure]
  }

  function Exposures(src: Source): seq<Exposure> {
    Flat(src.exposures, ExposureOf)
  }

  function ApiIds(src: Source): set<string> {
    set x | x in src.apis :: x.apiId
  }

  function PermissionKeys(src: Source): set<string> {
    (set x | x in src.permissions :: x.key) + (set x | x in src.permissionReferences :: x.key)
  }

  lemma KnownPermissions(src: Source, key: string)
    ensures key in PermissionKeys(src) <==>
            (exists p :: p in src.permissions && p.key == key) || exists x :: x in src.permissionReferences && x.key == key
  {
  }

  /** Checks of each entry by itself or against what the lists amount to. */
  ghost predicate EntriesOk(src: Source) {
    && src.sound
    && (forall x :: x in src.volumes ==> x.sound)
    && (forall x :: x in src.resources ==> x.sound)
    && (forall x :: x in src.migrations ==> x.sound && exists r :: r in src.resources && r.name == x.resource)
    && (forall x :: x in src.permissions ==> x.sound)
    && (forall x :: x in src.permissionReferences ==> x.sound && forall p :: p in src.permissions ==> p.key != x.key)
    && (forall x :: x in src.exposures ==> x.sound)
    && (forall x :: x in src.frontends ==> x.sound && x.permissions <= PermissionKeys(src))
    && (forall x :: x in src.packageRequirements ==> x.sound)
    && (forall x :: x in src.apiRequirements ==> x.sound)
    && (forall x :: x in src.publishes ==> x.sound)
    && (forall x :: x in src.subscribes ==> x.sound && forall p :: p in src.publishes ==> EventKey(p) != EventKey(x))
    && (forall x :: x in src.apis ==> x.sound && x.permissions <= PermissionKeys(src))
  }

  /** The duplicate checks of the source lists. */
  ghost predicate KeysOk(src: Source) {
    && |src.volumes| <= 1
    && Distinct(src.resources, ResourceKey)
    && Distinct(src.migrations, MigrationKey) && Distinct(src.migrations, ArtifactKey)
    && Distinct(src.permissions, PermissionKey) && Distinct(src.permissionReferences, ReferenceKey)
    && Distinct(src.exposures, ExposureKey)
    && Distinct(src.packageRequirements, RequirementKey) && Distinct(src.apiRequirements, RequirementKey)
    && Distinct(src.publishes, EventKey) && Distinct(src.subscribes, EventKey)
    && Distinct(src.frontends, TargetKey)
    && Distinct(src.apis, ApiKey) && Distinct(Operations(src), OperationId)
  }

  /** Which entries count as duplicates, list by list. */
  lemma DuplicatesSpelledOut(src: Source)
    ensures KeysOk(src) <==>
      && |src.volumes| <= 1
      && (forall i, j :: 0 <= i < j < |src.resources| ==> src.resources[i].name != src.resources[j].name)
      && (forall i, j :: 0 <= i < j < |src.migrations| ==>
            src.migrations[i].id != src.migrations[j].id && src.migrations[i].artifact != src.migrations[j].artifact)
      && (forall i, j :: 0 <= i < j < |src.permissions| ==> src.permissions[i].key != src.permissions[j].key)
      && (forall i, j :: 0 <= i < j < |src.permissionReferences| ==>
            src.permissionReferences[i].key != src.permissionReferences[j].key)
      && (forall i, j :: 0 <= i < j < |src.exposures| ==> src.exposures[i].exposure.id != src.exposures[j].exposure.id)
      && (forall i, j :: 0 <= i < j < |src.packageRequirements| ==>
            src.packageRequirements[i].id != src.packageRequirements[j].id)
      && (forall i, j :: 0 <= i < j < |src.apiRequirements| ==> src.apiRequirements[i].id != src.apiRequirements[j].id)
      && (forall i, j :: 0 <= i < j < |src.publishes| ==>
            src.publishes[i].eventType != src.publishes[j].eventType || src.publishes[i].version != src.publishes[j].version)
      && (forall i, j :: 0 <= i < j < |src.subscribes| ==>
            src.subscribes[i].eventType != src.subscribes[j].eventType || src.subscribes[i].version != src.subscribes[j].version)
      && (forall i, j :: 0 <= i < j < |src.frontends| ==> src.frontends[i].target != src.frontends[j].target)
      && (forall i, j :: 0 <= i < j < |src.apis| ==> src.apis[i].apiId != src.apis[j].apiId)
      && (forall i, j :: 0 <= i < j < |Operations(src)| ==> Operations(src)[i].operationId != Operations(src)[j].operationId)
  {
    hide Operations;
  }

  /** When `compile` succeeds. */
  ghost predicate Acceptable(src: Source) {
    EntriesOk(src) && KeysOk(src) && Compilable(Exposures(src), Operations(src), ApiIds(src))
  }

  /** The lists of the contract as they are declared. */
  function Declared(src: Source): Contract {
    Contract(
      src.volumes, src.apis, Operations(src), AllRoutes(Exposures(src), Operations(src)), src.exposures, src.resources,
      src.migrations, src.permissions, src.permissionReferences, src.apiRequirements, src.packageRequirements,
      src.publishes, src.subscribes, src.frontends, src.detail)
  }

  /** `s` is `c` with every list in the order of its keys. */
  ghost predicate SortsContract(s: Contract, c: Contract) {
    && Sorts(s.volumes, c.volumes, VolumeKey, TextsLeq)
    && Sorts(s.surfaces, c.surfaces, ApiKey, TextLeq)
    && Sorts(s.operations, c.operations, OperationKey, TextsLeq)
    && Sorts(s.routes, c.routes, RouteKey, TextsLeq)
    && Sorts(s.exposures, c.exposures, ExposureKey, TextLeq)
    && Sorts(s.resources, c.resources, ResourceKey, TextLeq)
    && Sorts(s.migrations, c.migrations, MigrationKey, TextLeq)
    && Sorts(s.permissions, c.permissions, PermissionKey, TextLeq)
    && Sorts(s.permissionReferences, c.permissionReferences, ReferenceKey, TextLeq)
    && Sorts(s.apiRequirements, c.apiRequirements, RequirementKey, TextLeq)
    && Sorts(s.packageRequirements, c.packageRequirements, RequirementKey, TextLeq)
    && Sorts(s.publishes, c.publishes, EventKey, NumberedLeq)
    && Sorts(s.subscribes, c.subscribes, EventKey, NumberedLeq)
    && Sorts(s.frontends, c.frontends, FrontendKey, TextsLeq)
    && s.detail == c.detail
  }

  /** What a source compiles to. */
  ghost predicate IsContractOf(c: Contract, src: Source) {
    SortsContract(c, Declared(src))
  }

  // ----- the compiler -----------------------------------------------------------------------

  /** One pass with the keys seen so far, as every duplicate check is made. */
  method CheckDistinct<T, K(==)>(items: seq<T>, key: T -> K) returns (ok: bool)
    ensures ok <==> Distinct(items, key)
  {
    var seen: set<K> := {};
    for i := 0 to |items|
      invariant forall a, b :: 0 <= a < b < i ==> key(items[a]) != key(items[b])
      invariant forall j :: 0 <= j < i ==> key(items[j]) in seen
      invariant forall k :: k in seen ==> exists j :: 0 <= j < i && key(items[j]) == k
    {
      if key(items[i]) in seen {
        var j :| 0 <= j < i && key(items[j]) == key(items[i]);
        return false;
      }
      seen := seen + {key(items[i])};
    }
    return true;
  }

  method CheckKeys(src: Source) returns (ok: bool)
    ensures ok <==> KeysOk(src)
  {
    hide Distinct;
    if |src.volumes| > 1 { return false; }
    ok := CheckDistinct(src.resources, ResourceKey);
    if !ok { return; }
    ok := CheckDistinct(src.migrations, MigrationKey);
    if !ok { return; }
    ok := CheckDistinct(src.migrations, ArtifactKey);
    if !ok { return; }
    ok := CheckDistinct(src.permissions, PermissionKey);
    if !ok { return; }
    ok := CheckDistinct(src.permissionReferences, ReferenceKey);
    if !ok { return; }
    ok := CheckDistinct(src.exposures, ExposureKey);
    if !ok { return; }
    ok := CheckDistinct(src.packageRequirements, RequirementKey);
    if !ok { return; }
    ok := CheckDistinct(src.apiRequirements, RequirementKey);
    if !ok { return; }
    ok := CheckDistinct(src.publishes, EventKey);
    if !ok { return; }
    ok := CheckDistinct(src.subscribes, EventKey);
    if !ok { return; }
    ok := CheckDistinct(src.frontends, TargetKey);
    if !ok { return; }
    ok := CheckDistinct(src.apis, ApiKey);
    if !ok { return; }
    ok := CheckDistinct(Operations(src), OperationId);
  }

  method CheckEntries(src: Source) returns (ok: bool)
    ensures ok <==> EntriesOk(src)
  {
    var names := set r | r in src.resources :: r.name;
    var owned := set p | p in src.permissions :: p.key;
    var published := set p | p in src.publishes :: EventKey(p);
    var keys := PermissionKeys(src);
    ok := src.sound
          && (forall x | x in src.volumes :: x.sound)
          && (forall x | x in src.resources :: x.sound)
          && (forall x | x in src.migrations :: x.sound && x.resource in names)
          && (forall x | x in src.permissions :: x.sound)
          && (forall x | x in src.permissionReferences :: x.sound && x.key !in owned)
          && (forall x | x in src.exposures :: x.sound)
          && (forall x | x in src.frontends :: x.sound && x.permissions <= keys)
          && (forall x | x in src.packageRequirements :: x.sound)
          && (forall x | x in src.apiRequirements :: x.sound)
          && (forall x | x in src.publishes :: x.sound)
          && (forall x | x in src.subscribes :: x.sound && EventKey(x) !in published)
          && (forall x | x in src.apis :: x.sound && x.permissions <= keys);
  }

  /** The sorts of `compile` and `sort_contract`. */
  method SortContract(c: Contract) returns (s: Contract)
    ensures SortsContract(s, c)
  {
    TextIsOrder();
    TextsAreOrdered();
    NumberedIsOrder();
    hide IsOrder, SortByKey, SortedByKey;
    SortSorts(c.volumes, VolumeKey, TextsLeq);
    SortSorts(c.surfaces, ApiKey, TextLeq);
    SortSorts(c.operations, OperationKey, TextsLeq);
    SortSorts(c.routes, RouteKey, TextsLeq);
    SortSorts(c.exposures, ExposureKey, TextLeq);
    SortSorts(c.resources, ResourceKey, TextLeq);
    SortSorts(c.migrations, MigrationKey, TextLeq);
    SortSorts(c.permissions, PermissionKey, TextLeq);
    SortSorts(c.permissionReferences, ReferenceKey, TextLeq);
    SortSorts(c.apiRequirements, RequirementKey, TextLeq);
    SortSorts(c.packageRequirements, RequirementKey, TextLeq);
    SortSorts(c.publishes, EventKey, NumberedLeq);
    SortSorts(c.subscribes, EventKey, NumberedLeq);
    SortSorts(c.frontends, FrontendKey, TextsLeq);
    s := Contract(
      SortByKey(c.volumes, VolumeKey, TextsLeq),
      SortByKey(c.surfaces, ApiKey, TextLeq),
      SortByKey(c.operations, OperationKey, TextsLeq),
      SortByKey(c.routes, RouteKey, TextsLeq),
      SortByKey(c.exposures, ExposureKey, TextLeq),
      SortByKey(c.resources, ResourceKey, TextLeq),
      SortByKey(c.migrations, MigrationKey, TextLeq),
      SortByKey(c.permissions, PermissionKey, TextLeq),
      SortByKey(c.permissionReferences, ReferenceKey, TextLeq),
      SortByKey(c.apiRequirements, RequirementKey, TextLeq),
      SortByKey(c.packageRequirements, RequirementKey, TextLeq),
      SortByKey(c.publishes, EventKey, NumberedLeq),
      SortByKey(c.subscribes, EventKey, NumberedLeq),
      SortByKey(c.frontends, FrontendKey, TextsLeq),
      c.detail);
  }

  /** Every list of the contract holds what the source declares under its name. */
  ghost predicate HoldsDeclared(c: Contract, src: Source) {
    && multiset(c.volumes) == multiset(src.volumes)
    && multiset(c.surfaces) == multiset(src.apis)
    && multiset(c.operations) == multiset(Operations(src))
    && multiset(c.routes) == multiset(AllRoutes(Exposures(src), Operations(src)))
    && multiset(c.exposures) == multiset(src.exposures)
    && multiset(c.resources) == multiset(src.resources)
    && multiset(c.migrations) == multiset(src.migrations)
    && multiset(c.permissions) == multiset(src.permissions)
    && multiset(c.permissionReferences) == multiset(src.permissionReferences)
    && multiset(c.apiRequirements) == multiset(src.apiRequirements)
    && multiset(c.packageRequirements) == multiset(src.packageRequirements)
    && multiset(c.publishes) == multiset(src.publishes)
    && multiset(c.subscribes) == multiset(src.subscribes)
    && multiset(c.frontends) == multiset(src.frontends)
    && c.detail == src.detail
  }

  lemma ContractHoldsDeclared(c: Contract, src: Source)
    requires IsContractOf(c, src)
    ensures HoldsDeclared(c, src)
  {
    hide Operations, Exposures, SortedByKey;
  }

  /** `compile`: it accepts exactly the acceptable sources, and every list of the contract holds
      what the source declares, in the order of its keys. */
  method Compile(src: Source) returns (r: Option<Contract>)
    ensures r.Some? <==> Acceptable(src)
    ensures r.Some? ==> IsContractOf(r.value, src) && HoldsDeclared(r.value, src)
  {
    hide EntriesOk, Sorts, Compilable, Flat, HoldsDeclared;
    var entries := CheckEntries(src);
    if !entries { return None; }
    var keys := CheckKeys(src);
    if !keys { return None; }
    var operations, exposures := Operations(src), Exposures(src);
    assert UniqueIds(operations);
    var routes := CompileRoutes(exposures, operations, ApiIds(src));
    if routes.Err? { return None; }
    var contract := SortContract(Contract(
                                   src.volumes, src.apis, operations, routes.value, src.exposures, src.resources, src.migrations,
                                   src.permissions, src.permissionReferences, src.apiRequirements, src.packageRequirements,
                                   src.publishes, src.subscribes, src.frontends, src.detail));
    ContractHoldsDeclared(contract, src);
    return Some(contract);
  }

  // ----- what a contract holds together ------------------------------------------------------

  /** A compiled contract refers to nothing outside itself: migrations name its resources, APIs
      and frontends its permissions, exposures its APIs, routes its operations; it owns no
      permission that it also references and subscribes to no event that it publishes. */
  lemma ContractIsClosed(c: Contract, src: Source)
    requires Acceptable(src) && IsContractOf(c, src)
    ensures forall x :: x in c.migrations ==> exists r :: r in c.resources && r.name == x.resource
    ensures forall x, k :: x in c.surfaces && k in x.permissions ==> Grants(c, k)
    ensures forall x, k :: x in c.frontends && k in x.permissions ==> Grants(c, k)
    ensures forall p, x :: p in c.permissions && x in c.permissionReferences ==> p.key != x.key
    ensures forall p, x :: p in c.publishes && x in c.subscribes ==> p.eventType != x.eventType || p.version != x.version
    ensures forall x :: x in c.exposures ==> exists s :: s in c.surfaces && s.apiId == x.exposure.api
    ensures forall r :: r in c.routes ==>
              exists o :: o in c.operations && o.operationId == r.operationId && o.apiId == r.apiId && o.path == r.providerPath
  {
    ContractHoldsDeclared(c, src);
    hide SortsContract, KeysOk, Operations, Exposures;
    ContractMembers(c, src);
    forall x, k | x in c.surfaces && k in x.permissions ensures Grants(c, k) {
      KnownPermissions(src, k);
    }
    forall x, k | x in c.frontends && k in x.permissions ensures Grants(c, k) {
      KnownPermissions(src, k);
    }
    forall x | x in c.exposures ensures exists s :: s in c.surfaces && s.apiId == x.exposure.api {
      ExposureIsListed(src, x);
      var i :| 0 <= i < |Exposures(src)| && Exposures(src)[i] == x.exposure;
      assert x.exposure.api in ApiIds(src);
    }
    forall r | r in c.routes
      ensures exists o :: o in c.operations && o.operationId == r.operationId && o.apiId == r.apiId && o.path == r.providerPath
    {
      RoutesAreSelections(Exposures(src), Operations(src), r);
    }
  }

  /** The contract owns or references the permission. */
  ghost predicate Grants(c: Contract, key: string) {
    (exists p :: p in c.permissions && p.key == key) || exists x :: x in c.permissionReferences && x.key == key
  }

  lemma ContractMembers(c: Contract, src: Source)
    requires HoldsDeclared(c, src)
    ensures forall x :: x in c.surfaces <==> x in src.apis
    ensures forall x :: x in c.operations <==> x in Operations(src)
    ensures forall x :: x in c.routes <==> x in AllRoutes(Exposures(src), Operations(src))
    ensures forall x :: x in c.exposures <==> x in src.exposures
    ensures forall x :: x in c.resources <==> x in src.resources
    ensures forall x :: x in c.migrations <==> x in src.migrations
    ensures forall x :: x in c.permissions <==> x in src.permissions
    ensures forall x :: x in c.permissionReferences <==> x in src.permissionReferences
    ensures forall x :: x in c.publishes <==> x in src.publishes
    ensures forall x :: x in c.subscribes <==> x in src.subscribes
    ensures forall x :: x in c.frontends <==> x in src.frontends
  {
    hide Operations, Exposures;
    SameMembers(c.surfaces, src.apis);
    SameMembers(c.operations, Operations(src));
    SameMembers(c.routes, AllRoutes(Exposures(src), Operations(src)));
    SameMembers(c.exposures, src.exposures);
    SameMembers(c.resources, src.resources);
    SameMembers(c.migrations, src.migrations);
    SameMembers(c.permissions, src.permissions);
    SameMembers(c.permissionReferences, src.permissionReferences);
    SameMembers(c.publishes, src.publishes);
    SameMembers(c.subscribes, src.subscribes);
    SameMembers(c.frontends, src.frontends);
  }

  lemma ExposureIsListed(src: Source, m: Mount)
    requires m in src.exposures
    ensures m.exposure in Exposures(src)
  {
    FlatMember(src.exposures, ExposureOf, m, m.exposure);
  }

  /** Operations come by API, then path, then method; routes by audience, then path, then method;
      events by type, then version. */
  lemma ContractInOrder(c: Contract, src: Source, i: nat, j: nat)
    requires IsContractOf(c, src) && i < j
    ensures j < |c.operations| ==>
              var a, b := c.operations[i], c.operations[j];
              InTurn([a.apiId, a.path, a.verb, a.operationId], [b.apiId, b.path, b.verb, b.operationId])
    ensures j < |c.routes| ==>
              var a, b := c.routes[i], c.routes[j];
              InTurn([a.audience, a.path, a.verb, a.operationId], [b.audience, b.path, b.verb, b.operationId])
    ensures j < |c.publishes| ==>
              var a, b := c.publishes[i], c.publishes[j];
              if a.eventType == b.eventType then a.version <= b.version else TextLeq(a.eventType, b.eventType)
  {
    hide Operations, Exposures, TextLeq;
    if j < |c.operations| { TextsInTurn(OperationKey(c.operations[i]), OperationKey(c.operations[j])); }
    if j < |c.routes| { TextsInTurn(RouteKey(c.routes[i]), RouteKey(c.routes[j])); }
  }

  /** The first texts that differ are in order. */
  ghost predicate InTurn(a: seq<string>, b: seq<string>)
    requires |a| == |b|
  {
    forall k :: 0 <= k < |a| && a[..k] == b[..k] && a[k] != b[k] ==> TextLeq(a[k], b[k])
  }

  lemma {:induction false} TextsInTurn(a: seq<string>, b: seq<string>)
    requires |a| == |b| && TextsLeq(a, b)
    ensures InTurn(a, b)
    decreases |a|
  {
    hide TextLeq;
    forall k | 0 <= k < |a| && a[..k] == b[..k] && a[k] != b[k] ensures TextLeq(a[k], b[k]) {
      if k > 0 {
        assert a[0] == a[..k][0] && b[0] == b[..k][0];
        TextsInTurn(a[1..], b[1..]);
        assert a[1..][..k-1] == a[..k][1..] && b[1..][..k-1] == b[..k][1..];
      }
    }
  }

  // ----- the order of declarations ----------------------------------------------------------

  /** The same source with its lists in another order. */
  ghost predicate Reordered(a: Source, b: Source) {
    && a.sound == b.sound && a.detail == b.detail
    && multiset(a.volumes) == multiset(b.volumes)
    && multiset(a.apis) == multiset(b.apis)
    && multiset(a.exposures) == multiset(b.exposures)
    && multiset(a.resources) == multiset(b.resources)
    && multiset(a.migrations) == multiset(b.migrations)
    && multiset(a.permissions) == multiset(b.permissions)
    && multiset(a.permissionReferences) == multiset(b.permissionReferences)
    && multiset(a.apiRequirements) == multiset(b.apiRequirements)
    && multiset(a.packageRequirements) == multiset(b.packageRequirements)
    && multiset(a.publishes) == multiset(b.publishes)
    && multiset(a.subscribes) == multiset(b.subscribes)
    && multiset(a.frontends) == multiset(b.frontends)
  }

  lemma EntriesReordered(a: Source, b: Source)
    requires Reordered(a, b)
    ensures EntriesOk(a) ==> EntriesOk(b)
    ensures ApiIds(a) == ApiIds(b)
  {
    SameMembers(a.volumes, b.volumes);
    SameMembers(a.apis, b.apis);
    SameMembers(a.exposures, b.exposures);
    SameMembers(a.resources, b.resources);
    SameMembers(a.migrations, b.migrations);
    SameMembers(a.permissions, b.permissions);
    SameMembers(a.permissionReferences, b.permissionReferences);
    SameMembers(a.apiRequirements, b.apiRequirements);
    SameMembers(a.packageRequirements, b.packageRequirements);
    SameMembers(a.publishes, b.publishes);
    SameMembers(a.subscribes, b.subscribes);
    SameMembers(a.frontends, b.frontends);
    assert PermissionKeys(a) == PermissionKeys(b);
  }

  lemma ListsReordered(a: Source, b: Source)
    requires Reordered(a, b)
    ensures multiset(Operations(a)) == multiset(Operations(b))
    ensures multiset(Exposures(a)) == multiset(Exposures(b))
    ensures multiset(AllRoutes(Exposures(a), Operations(a))) == multiset(AllRoutes(Exposures(b), Operations(b)))
  {
    FlatPermuted(a.apis, b.apis, OperationsOf);
    FlatPermuted(a.exposures, b.exposures, ExposureOf);
    AllRoutesPermuted(Exposures(a), Exposures(b), Operations(a), Operations(b));
  }

  lemma KeysReordered(a: Source, b: Source)
    requires Reordered(a, b) && KeysOk(a)
    ensures KeysOk(b)
  {
    hide Distinct, Operations;
    ListsReordered(a, b);
    SameMembers(a.volumes, b.volumes);
    DistinctPermuted(a.resources, b.resources, ResourceKey);
    DistinctPermuted(a.migrations, b.migrations, MigrationKey);
    DistinctPermuted(a.migrations, b.migrations, ArtifactKey);
    DistinctPermuted(a.permissions, b.permissions, PermissionKey);
    DistinctPermuted(a.permissionReferences, b.permissionReferences, ReferenceKey);
    DistinctPermuted(a.exposures, b.exposures, ExposureKey);
    DistinctPermuted(a.packageRequirements, b.packageRequirements, RequirementKey);
    DistinctPermuted(a.apiRequirements, b.apiRequirements, RequirementKey);
    DistinctPermuted(a.publishes, b.publishes, EventKey);
    DistinctPermuted(a.subscribes, b.subscribes, EventKey);
    DistinctPermuted(a.frontends, b.frontends, TargetKey);
    DistinctPermuted(a.apis, b.apis, ApiKey);
    DistinctPermuted(Operations(a), Operations(b), OperationId);
  }

  lemma AcceptableReordered(a: Source, b: Source)
    requires Reordered(a, b) && Acceptable(a)
    ensures Acceptable(b)
  {
    hide Compilable, EntriesOk, KeysOk;
    EntriesReordered(a, b);
    KeysReordered(a, b);
    ListsReordered(a, b);
    CompilablePermuted(Exposures(a), Exposures(b), Operations(a), Operations(b), ApiIds(a));
  }

  /** The sort keys of operations, routes and frontends are distinct because of weaker checks. */
  lemma CompiledKeysAreDistinct(src: Source)
    requires Acceptable(src)
    ensures Distinct(Operations(src), OperationKey)
    ensures Distinct(AllRoutes(Exposures(src), Operations(src)), RouteKey)
    ensures Distinct(src.frontends, FrontendKey) && Distinct(src.volumes, VolumeKey)
  {
    hide EntriesOk;
    var ops, routes := Operations(src), AllRoutes(Exposures(src), Operations(src));
    forall i, j | 0 <= i < j < |ops| ensures OperationKey(ops[i]) != OperationKey(ops[j]) {
      assert OperationId(ops[i]) != OperationId(ops[j]);
      assert OperationKey(ops[i])[3] == ops[i].operationId && OperationKey(ops[j])[3] == ops[j].operationId;
    }
    forall i, j | 0 <= i < j < |routes| ensures RouteKey(routes[i]) != RouteKey(routes[j]) {
      SameKeyCollides(routes[i], routes[j]);
      assert !Collides(routes[i], routes[j]);
    }
    forall i, j | 0 <= i < j < |src.frontends| ensures FrontendKey(src.frontends[i]) != FrontendKey(src.frontends[j]) {
      assert TargetKey(src.frontends[i]) != TargetKey(src.frontends[j]);
      assert FrontendKey(src.frontends[i])[0] == src.frontends[i].target;
      assert FrontendKey(src.frontends[j])[0] == src.frontends[j].target;
    }
  }

  /** Routes that tie in the sort order collide. */
  lemma SameKeyCollides(a: Route, b: Route)
    ensures RouteKey(a) == RouteKey(b) ==> Collides(a, b)
  {
    if RouteKey(a) == RouteKey(b) {
      var x, y := RouteKey(a), RouteKey(b);
      assert x[0] == y[0] && x[1] == y[1] && x[2] == y[2];
    }
  }

  lemma SameContract(a: Source, b: Source, c: Contract, d: Contract)
    requires Reordered(a, b) && Acceptable(a) && IsContractOf(c, a) && IsContractOf(d, b)
    ensures c == d
  {
    hide EntriesOk, Compilable, Distinct, Sorts, Operations, Exposures, IsOrder;
    CompiledKeysAreDistinct(a);
    ListsReordered(a, b);
    TextIsOrder();
    TextsAreOrdered();
    NumberedIsOrder();
    var x, y := Declared(a), Declared(b);
    KeyedListIsCanonical(x.volumes, y.volumes, c.volumes, d.volumes, VolumeKey, TextsLeq);
    KeyedListIsCanonical(x.surfaces, y.surfaces, c.surfaces, d.surfaces, ApiKey, TextLeq);
    KeyedListIsCanonical(x.operations, y.operations, c.operations, d.operations, OperationKey, TextsLeq);
    KeyedListIsCanonical(x.routes, y.routes, c.routes, d.routes, RouteKey, TextsLeq);
    KeyedListIsCanonical(x.exposures, y.exposures, c.exposures, d.exposures, ExposureKey, TextLeq);
    KeyedListIsCanonical(x.resources, y.resources, c.resources, d.resources, ResourceKey, TextLeq);
    KeyedListIsCanonical(x.migrations, y.migrations, c.migrations, d.migrations, MigrationKey, TextLeq);
    KeyedListIsCanonical(x.permissions, y.permissions, c.permissions, d.permissions, PermissionKey, TextLeq);
    KeyedListIsCanonical(x.permissionReferences, y.permissionReferences,
                         c.permissionReferences, d.permissionReferences, ReferenceKey, TextLeq);
    KeyedListIsCanonical(x.apiRequirements, y.apiRequirements, c.apiRequirements, d.apiRequirements, RequirementKey, TextLeq);
    KeyedListIsCanonical(x.packageRequirements, y.packageRequirements,
                         c.packageRequirements, d.packageRequirements, RequirementKey, TextLeq);
    KeyedListIsCanonical(x.publishes, y.publishes, c.publishes, d.publishes, EventKey, NumberedLeq);
    KeyedListIsCanonical(x.subscribes, y.subscribes, c.subscribes, d.subscribes, EventKey, NumberedLeq);
    KeyedListIsCanonical(x.frontends, y.frontends, c.frontends, d.frontends, FrontendKey, TextsLeq);
  }

  /** Compilation does not depend on the order of declarations: a reordered source is accepted
      exactly when the original is, and compiles to the same contract. */
  lemma OrderInsensitive(a: Source, b: Source, c: Contract, d: Contract)
    requires Reordered(a, b) && IsContractOf(c, a) && IsContractOf(d, b)
    ensures Acceptable(a) <==> Acceptable(b)
    ensures Acceptable(a) ==> c == d
  {
    hide Acceptable;
    if Acceptable(a) {
      AcceptableReordered(a, b);
      SameContract(a, b, c, d);
    }
    if Acceptable(b) { AcceptableReordered(b, a); }
  }
}
