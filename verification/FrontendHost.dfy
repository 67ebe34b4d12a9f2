/** Reconciling frontend contributions (manager/web/src/ojos-frontend/contribution-host.ts) over the
    route adapter (manager/web/src/ojos-frontend/vue-route-adapter.ts). Calls into the extension
    loader and the router fail as a script says; every script is allowed. The host runs one
    action at a time, so a reconcile is a sequential program. */
module FrontendHost {
  import opened Basics

  datatype Route = Route(id: string, path: string, title: string, order: int, menu: bool, permission: Option<string>)

  datatype Manifest = Manifest(moduleId: string, routes: seq<Route>)

  /** A module of the snapshot; `revision` stands for revision, deployment, generation and
      the digests and references of manifest and bundle. */
  datatype Spec = Spec(serviceId: string, revision: string, manifest: Manifest)

  datatype Owner = Owner(moduleId: string, name: nat)

  /** What `register` returns and `dispose` takes. */
  datatype Handle = Handle(path: string, owner: Owner)

  datatype Menu = Menu(moduleId: string, routeId: string, path: string, title: string, order: int, permission: Option<string>)

  /** `moduleIdentity`: everything but the service id. */
  function Identity(s: Spec): (string, Manifest) {
    (s.revision, s.manifest)
  }

  ghost function Live(owned: map<string, set<Owner>>): set<Handle> {
    set p, o | p in owned && o in owned[p] :: Handle(p, o)
  }

  /** No owner of the path belongs to another module. */
  predicate FreeFor(owned: map<string, set<Owner>>, path: string, moduleId: string) {
    path in owned ==> forall o :: o in owned[path] ==> o.moduleId == moduleId
  }

  ghost predicate Distinct(routes: seq<Route>, shell: set<string>) {
    && (forall i, j :: 0 <= i < j < |routes| ==> routes[i].path != routes[j].path)
    && (forall i :: 0 <= i < |routes| ==> routes[i].path !in shell)
  }

  /** What `validate` accepts: paths are distinct, not another module's, not the shell's. */
  ghost predicate Registrable(owned: map<string, set<Owner>>, shell: set<string>, moduleId: string, routes: seq<Route>) {
    Distinct(routes, shell) && forall i :: 0 <= i < |routes| ==> FreeFor(owned, routes[i].path, moduleId)
  }

  /** Names are unique and used up to `sequence`, and a path has owners of one module only. */
  ghost predicate Orderly(live: set<Handle>, sequence: nat) {
    && (forall h :: h in live ==> h.owner.name <= sequence)
    && (forall h, g :: h in live && g in live && h.owner.name == g.owner.name ==> h == g)
    && (forall h, g :: h in live && g in live && h.path == g.path ==> h.owner.moduleId == g.owner.moduleId)
  }

  function Owners(owned: map<string, set<Owner>>, path: string): set<Owner> {
    if path in owned then owned[path] else {}
  }

  lemma LiveAdd(owned: map<string, set<Owner>>, path: string, owner: Owner)
    ensures Live(owned[path := Owners(owned, path) + {owner}]) == Live(owned) + {Handle(path, owner)}
  {
    var after := owned[path := Owners(owned, path) + {owner}];
    forall h ensures h in Live(after) <==> h in Live(owned) + {Handle(path, owner)} {
      LiveMember(owned, h);
      LiveMember(after, h);
    }
  }

  lemma LiveMember(owned: map<string, set<Owner>>, h: Handle)
    ensures h in Live(owned) <==> h.path in owned && h.owner in owned[h.path]
  {
  }

  function Removed(owned: map<string, set<Owner>>, h: Handle): map<string, set<Owner>> {
    if h.path !in owned then owned
    else if owned[h.path] - {h.owner} == {} then owned - {h.path}
    else owned[h.path := owned[h.path] - {h.owner}]
  }

  lemma LiveRemove(owned: map<string, set<Owner>>, h: Handle)
    ensures Live(Removed(owned, h)) == Live(owned) - {h}
  {
    var after := Removed(owned, h);
    forall g ensures g in Live(after) <==> g in Live(owned) - {h} {
      LiveMember(owned, g);
      LiveMember(after, g);
      if g in Live(owned) && g.path == h.path && g != h {
        assert g.owner in owned[h.path] - {h.owner};
      }
    }
  }

  /** A new name keeps the registrations orderly. */
  lemma OrderlyAdd(owned: map<string, set<Owner>>, path: string, moduleId: string, sequence: nat)
    requires Orderly(Live(owned), sequence) && FreeFor(owned, path, moduleId)
    ensures Orderly(Live(owned), sequence + 1)
    ensures Handle(path, Owner(moduleId, sequence + 1)) !in Live(owned)
    ensures Orderly(Live(owned) + {Handle(path, Owner(moduleId, sequence + 1))}, sequence + 1)
  {
    forall h | h in Live(owned) && h.path == path ensures h.owner.moduleId == moduleId {
      LiveMember(owned, h);
    }
  }

  class RouteAdapter {
    var owned: map<string, set<Owner>>
    var sequence: nat
    /** Paths of the shell's own routes. */
    const shell: set<string>

    constructor (shell: set<string>)
      ensures owned == map[] && sequence == 0 && this.shell == shell && Valid()
    {
      this.shell, owned, sequence := shell, map[], 0;
    }

    ghost predicate Valid()
      reads this
    {
      (forall p :: p in owned ==> owned[p] != {} && p !in shell) && Orderly(Live(owned), sequence)
    }

    method Validate(moduleId: string, routes: seq<Route>) returns (ok: bool)
      ensures ok <==> Registrable(owned, shell, moduleId, routes)
    {
      var paths: set<string> := {};
      for i := 0 to |routes|
        invariant forall j :: 0 <= j < i ==> routes[j].path in paths
        invariant forall p :: p in paths ==> exists j :: 0 <= j < i && routes[j].path == p
        invariant Registrable(owned, shell, moduleId, routes[..i])
      {
        var path := routes[i].path;
        if path in paths {
          var j :| 0 <= j < i && routes[j].path == path;
          assert routes[j].path == routes[i].path;
          return false;
        }
        paths := paths + {path};
        if !FreeFor(owned, path, moduleId) || path in shell { return false; }
      }
      assert routes[..|routes|] == routes;
      return true;
    }

    /** The router may refuse the route; then nothing is registered. */
    method Register(moduleId: string, route: Route, fails: bool) returns (handle: Option<Handle>)
      requires Valid() && FreeFor(owned, route.path, moduleId) && route.path !in shell
      modifies this
      ensures Valid()
      ensures handle.None? <==> fails
      ensures handle.None? ==> owned == old(owned)
      ensures handle.Some? ==> handle.value == Handle(route.path, Owner(moduleId, sequence))
      ensures handle.Some? ==> handle.value !in old(Live(owned)) && Live(owned) == old(Live(owned)) + {handle.value}
    {
      hide Live, Orderly, FreeFor;
      OrderlyAdd(owned, route.path, moduleId, sequence);
      sequence := sequence + 1;
      if fails { return None; }
      var owner := Owner(moduleId, sequence);
      var owners := Owners(owned, route.path);
      LiveAdd(owned, route.path, owner);
      owned := owned[route.path := owners + {owner}];
      return Some(Handle(route.path, owner));
    }

    method Dispose(h: Handle)
      requires Valid()
      modifies this`owned
      ensures Valid()
      ensures Live(owned) == old(Live(owned)) - {h}
    {
      LiveRemove(owned, h);
      if h.path !in owned { return; }
      var left := owned[h.path] - {h.owner};
      owned := if left == {} then owned - {h.path} else owned[h.path := left];
    }

    method DisposeAll(handles: set<Handle>)
      requires Valid()
      modifies this`owned
      ensures Valid()
      ensures Live(owned) == old(Live(owned)) - handles
    {
      var todo := handles;
      while todo != {}
        invariant Valid() && todo <= handles
        invariant Live(owned) == old(Live(owned)) - (handles - todo)
      {
        var h :| h in todo;
        Dispose(h);
        todo := todo - {h};
      }
    }
  }

  datatype Record = Record(spec: Spec, permitted: seq<Route>, mounted: string, handles: set<Handle>)

  predicate Permits(has: set<string>, r: Route) {
    r.permission.None? || r.permission.value in has
  }

  /** The routes of the module that the current permissions allow, in order. */
  function Permitted(routes: seq<Route>, has: set<string>): (out: seq<Route>)
    ensures forall r :: r in out <==> r in routes && Permits(has, r)
  {
    if routes == [] then []
    else (if Permits(has, routes[0]) then [routes[0]] else []) + Permitted(routes[1..], has)
  }

  predicate HasRoute(routes: seq<Route>, id: string) {
    exists i :: 0 <= i < |routes| && routes[i].id == id
  }

  /** The route to show: the mounted one while it is permitted, else the first. */
  function NextRoute(routes: seq<Route>, mounted: string): string
    requires routes != []
  {
    if HasRoute(routes, mounted) then mounted else routes[0].id
  }

  /** `collectMenus`, as a set. */
  ghost function MenusOf(active: map<string, Record>): set<Menu> {
    set m, r | m in active && r in active[m].permitted && r.menu ::
      Menu(active[m].spec.manifest.moduleId, r.id, r.path, r.title, r.order, r.permission)
  }

  /** Calls into loader and router were made up to the first that failed, if one did. */
  ghost predicate Spent(before: seq<bool>, after: seq<bool>, failed: bool) {
    var k := |before| - |after|;
    && k >= 0 && after == before[k..]
    && (forall j :: 0 <= j < k - 1 ==> !before[j])
    && (failed ==> k > 0) && (k > 0 ==> (before[k-1] <==> failed))
  }

  lemma SpentThen(a: seq<bool>, b: seq<bool>, c: seq<bool>, failed: bool)
    requires Spent(a, b, false) && Spent(b, c, failed)
    ensures Spent(a, c, failed)
  {
    var k, l := |a| - |b|, |b| - |c|;
    assert b[l..] == a[k + l..];
    forall j | 0 <= j < k + l - 1 ensures !a[j] {
      if j >= k { assert a[j] == b[j - k]; }
    }
    if l > 0 { assert a[k + l - 1] == b[l - 1]; }
  }

  /** No two registrations have the same path. */
  ghost predicate OneEach(handles: set<Handle>) {
    forall h, g :: h in handles && g in handles && h.path == g.path ==> h == g
  }

  lemma Nothing()
    ensures OneEach({}) && PathsOf({}) == {} && forall s :: Spent(s, s, false)
  {
  }

  lemma OneMore(handles: set<Handle>, routes: seq<Route>, i: nat, shell: set<string>)
    requires i < |routes| && Distinct(routes, shell)
    requires OneEach(handles) && PathsOf(handles) == RoutePaths(routes[..i])
    ensures forall h: Handle :: h.path == routes[i].path ==> OneEach(handles + {h})
    ensures forall h: Handle :: PathsOf(handles + {h}) == PathsOf(handles) + {h.path}
  {
    forall g | g in handles ensures g.path != routes[i].path {
      assert g.path in RoutePaths(routes[..i]);
    }
  }

  /** The module is active exactly if the permissions allow one of its routes; then its record
      and its registrations are those of the routes they allow. */
  ghost predicate ShowsAllowed(active: map<string, Record>, spec: Spec, has: set<string>) {
    var id := spec.manifest.moduleId;
    var allowed := set r | r in spec.manifest.routes && (r.permission.None? || r.permission.value in has);
    && (id in active <==> allowed != {})
    && (id in active ==> (set r | r in active[id].permitted) == allowed)
    && (id in active ==> PathsOf(active[id].handles) == set r | r in allowed :: r.path)
  }

  /** The menus of the module are those of its menu routes that the permissions allow. */
  ghost predicate MenusAllowed(active: map<string, Record>, spec: Spec, has: set<string>) {
    var id := spec.manifest.moduleId;
    (set x | x in MenusOf(active) && x.moduleId == id) ==
    set r | r in spec.manifest.routes && r.menu && (r.permission.None? || r.permission.value in has) ::
      Menu(id, r.id, r.path, r.title, r.order, r.permission)
  }

  /** The mounted route stays while it is among the permitted ones, else the first of them is. */
  ghost predicate MountedAsDue(was: map<string, Record>, now: map<string, Record>, id: string) {
    id in now ==>
      && now[id].permitted != []
      && now[id].mounted ==
         if id in was && exists q :: q in now[id].permitted && q.id == was[id].mounted then was[id].mounted
         else now[id].permitted[0].id
  }

  /** The module was there at this revision with this manifest, and the same route stays mounted. */
  ghost predicate Untouched(was: map<string, Record>, now: map<string, Record>, spec: Spec) {
    var id := spec.manifest.moduleId;
    && id in was && id in now && was[id].spec.revision == spec.revision && was[id].spec.manifest == spec.manifest
    && now[id].mounted == was[id].mounted
  }

  class ContributionHost {
    const adapter: RouteAdapter
    var active: map<string, Record>
    /** Whether each coming call into loader or router fails. */
    var faults: seq<bool>
    /** Modules handed to the loader to install or mount, in order. */
    var installs: seq<string>

    constructor (adapter: RouteAdapter)
      requires adapter.Valid() && adapter.owned == map[]
      ensures Valid() && active == map[] && this.adapter == adapter && faults == [] && installs == []
    {
      this.adapter, active, faults, installs := adapter, map[], [], [];
    }

    /** Every live registration belongs to exactly one active record, and a record holds
        only live registrations of its own module. */
    ghost predicate Valid()
      reads this, adapter
    {
      adapter.Valid() && Accounted(active, Live(adapter.owned))
    }

    method Fails() returns (f: bool)
      modifies this`faults
      ensures f <==> old(faults) != [] && old(faults)[0]
      ensures faults == if old(faults) == [] then [] else old(faults)[1..]
      ensures Spent(old(faults), faults, f)
    {
      if faults == [] { return false; }
      f := faults[0];
      faults := faults[1..];
    }

    /** `removeModule`: the record and its registrations go before the loader is asked. */
    method RemoveModule(moduleId: string) returns (ok: bool)
      requires Valid()
      modifies this`active, this`faults, adapter`owned
      ensures Valid() && active == old(active) - {moduleId}
      ensures Live(adapter.owned) ==
              old(Live(adapter.owned)) - (if moduleId in old(active) then old(active)[moduleId].handles else {})
      ensures Spent(old(faults), faults, !ok)
    {
      if moduleId !in active { return true; }
      var handles := active[moduleId].handles;
      RemoveKeepsAccounted(active, Live(adapter.owned), moduleId);
      active := active - {moduleId};
      adapter.DisposeAll(handles);
      var failed := Fails();
      return !failed;
    }

    /** `replaceRouteRegistrations`: all new registrations or none; the old ones go only when
        all new ones are in place. */
    method ReplaceRouteRegistrations(moduleId: string) returns (ok: bool)
      requires Valid() && moduleId in active
      requires Registrable(adapter.owned, adapter.shell, moduleId, active[moduleId].permitted)
      modifies this`active, this`faults, adapter
      ensures Valid() && active.Keys == old(active.Keys)
      ensures forall m :: m in active && m != moduleId ==> active[m] == old(active)[m]
      ensures active[moduleId] == old(active)[moduleId].(handles := active[moduleId].handles)
      ensures !ok ==> active == old(active) && Live(adapter.owned) == old(Live(adapter.owned))
      ensures ok ==> PathsOf(active[moduleId].handles) == RoutePaths(active[moduleId].permitted)
      ensures Spent(old(faults), faults, !ok)
    {
      var record := active[moduleId];
      var next := RegisterAll(moduleId, record.permitted);
      if next.None? { return false; }
      ReplaceKeepsAccounted(active, Live(adapter.owned), moduleId, next.value);
      adapter.DisposeAll(record.handles);
      active := active[moduleId := record.(handles := next.value)];
      return true;
    }

    /** Registers every route, or none. */
    method RegisterAll(moduleId: string, routes: seq<Route>) returns (next: Option<set<Handle>>)
      requires adapter.Valid() && Registrable(adapter.owned, adapter.shell, moduleId, routes)
      modifies this`faults, adapter
      ensures adapter.Valid()
      ensures next.None? ==> Live(adapter.owned) == old(Live(adapter.owned))
      ensures next.Some? ==> Live(adapter.owned) == old(Live(adapter.owned)) + next.value
      ensures next.Some? ==> next.value !! old(Live(adapter.owned))
      ensures next.Some? ==> forall h :: h in next.value ==> h.owner.moduleId == moduleId
      ensures next.Some? ==> PathsOf(next.value) == RoutePaths(routes) && OneEach(next.value)
      ensures Spent(old(faults), faults, next.None?)
    {
      hide OneEach, RoutePaths, PathsOf, Spent, Orderly, Registrable, FreeFor, Live;
      var handles: set<Handle> := {};
      NoRoutesNoPaths();
      Nothing();
      for i := 0 to |routes|
        invariant adapter.Valid()
        invariant Live(adapter.owned) == old(Live(adapter.owned)) + handles && handles !! old(Live(adapter.owned))
        invariant forall h :: h in handles ==> h.owner.moduleId == moduleId
        invariant PathsOf(handles) == RoutePaths(routes[..i]) && OneEach(handles)
        invariant Registrable(adapter.owned, adapter.shell, moduleId, routes)
        invariant Spent(old(faults), faults, false)
      {
        ghost var spent := faults;
        var fails := Fails();
        SpentThen(old(faults), spent, faults, fails);
        RoutePathsStep(routes, i);
        RegistrableAt(adapter.owned, adapter.shell, moduleId, routes, i);
        OneMore(handles, routes, i, adapter.shell);
        ghost var owned := adapter.owned;
        var handle := adapter.Register(moduleId, routes[i], fails);
        if handle.None? {
          adapter.DisposeAll(handles);
          assert Live(adapter.owned) == old(Live(adapter.owned));
          return None;
        }
        StillRegistrable(owned, adapter.owned, adapter.shell, moduleId, routes, handle.value);
        handles := handles + {handle.value};
      }
      assert routes[..|routes|] == routes;
      return Some(handles);
    }

    /** The module is where a failure-free reconcile of it leaves it. */
    ghost predicate Settled(spec: Spec, has: set<string>)
      reads this, adapter
    {
      SettledIn(active, adapter.shell, spec, has)
    }

    /** The module is already active at this identity: at most another route is mounted. */
    method Refresh(spec: Spec, permitted: seq<Route>) returns (r: ModuleResult)
      requires Valid() && permitted != [] && spec.manifest.moduleId in active
      requires Identity(active[spec.manifest.moduleId].spec) == Identity(spec)
      requires Registrable(adapter.owned, adapter.shell, spec.manifest.moduleId, permitted)
      modifies this, adapter
      ensures Valid() && Changed(old(active), active, spec.manifest.moduleId)
      ensures spec.manifest.moduleId in active
      ensures r == MountFailed ==> active == old(active) && Live(adapter.owned) == old(Live(adapter.owned))
      ensures r == RegisterFailed ==> Live(adapter.owned) == old(Live(adapter.owned))
      ensures r.Reconciled? || r.MountFailed? || r.RegisterFailed?
      ensures r == Reconciled ==> Shows(active[spec.manifest.moduleId], spec, permitted)
      ensures r == Reconciled ==>
                active[spec.manifest.moduleId].mounted == NextRoute(permitted, old(active)[spec.manifest.moduleId].mounted)
      ensures Spent(old(faults), faults, r != Reconciled)
      ensures installs == old(installs) +
                if HasRoute(permitted, old(active)[spec.manifest.moduleId].mounted) then [] else [spec.manifest.moduleId]
    {
      hide Live, Orderly, Accounted, Registrable;
      var id := spec.manifest.moduleId;
      var existing := active[id];
      var next := NextRoute(permitted, existing.mounted);
      if next != existing.mounted {
        installs := installs + [id];
        var failed := Fails();
        if failed { return MountFailed; }
        existing := existing.(mounted := next);
      }
      UpdateKeepsAccounted(active, Live(adapter.owned), id, existing.(spec := spec, permitted := permitted));
      active := active[id := existing.(spec := spec, permitted := permitted)];
      var ok := ReplaceRouteRegistrations(id);
      return if ok then Reconciled else RegisterFailed;
    }

    /** The module is new or has another identity: it is installed first. */
    method InstallModule(spec: Spec, permitted: seq<Route>) returns (r: ModuleResult)
      requires Valid() && permitted != []
      requires Registrable(adapter.owned, adapter.shell, spec.manifest.moduleId, permitted)
      modifies this, adapter
      ensures Valid() && Changed(old(active), active, spec.manifest.moduleId)
      ensures r == InstallFailed ==> active == old(active) && Live(adapter.owned) == old(Live(adapter.owned))
      ensures r == RegisterFailed ==> Live(adapter.owned) == old(Live(adapter.owned)) && spec.manifest.moduleId in active
      ensures r.Reconciled? || r.InstallFailed? || r.RegisterFailed?
      ensures r == Reconciled ==> spec.manifest.moduleId in active && Shows(active[spec.manifest.moduleId], spec, permitted)
      ensures r == Reconciled ==>
                active[spec.manifest.moduleId].mounted ==
                if spec.manifest.moduleId in old(active) then NextRoute(permitted, old(active)[spec.manifest.moduleId].mounted)
                else permitted[0].id
      ensures Spent(old(faults), faults, r != Reconciled)
      ensures installs == old(installs) + [spec.manifest.moduleId]
    {
      hide Live, Orderly, Accounted, Registrable;
      var id := spec.manifest.moduleId;
      var mounted := if id in active then NextRoute(permitted, active[id].mounted) else permitted[0].id;
      installs := installs + [id];
      var failed := Fails();
      if failed { return InstallFailed; }
      var handles := if id in active then active[id].handles else {};
      UpdateKeepsAccounted(active, Live(adapter.owned), id, Record(spec, permitted, mounted, handles));
      active := active[id := Record(spec, permitted, mounted, handles)];
      var ok := ReplaceRouteRegistrations(id);
      return if ok then Reconciled else RegisterFailed;
    }

    /** `reconcileModule`. A conflict, or a failed install of an upgrade, leaves the old record
        and its registrations in place; no failure loses or leaks a registration. */
    method ReconcileModule(spec: Spec, has: set<string>) returns (r: ModuleResult)
      requires Valid()
      modifies this, adapter
      ensures Valid() && Changed(old(active), active, spec.manifest.moduleId)
      ensures r.Conflict? || r.InstallFailed? || r.MountFailed? ==>
                active == old(active) && Live(adapter.owned) == old(Live(adapter.owned))
      ensures r == RegisterFailed ==> Live(adapter.owned) == old(Live(adapter.owned)) && spec.manifest.moduleId in active
      ensures r == UnloadFailed ==> active == old(active) - {spec.manifest.moduleId}
      ensures r == Reconciled ==> Settled(spec, has)
      ensures r == Reconciled ==> ShowsAllowed(active, spec, has) && MenusAllowed(active, spec, has)
      ensures r == Reconciled ==> MountedAsDue(old(active), active, spec.manifest.moduleId)
      ensures r == Reconciled ==>
                installs == old(installs) +
                if spec.manifest.moduleId !in active || Untouched(old(active), active, spec) then []
                else [spec.manifest.moduleId]
      ensures r == Conflict <==>
                Permitted(spec.manifest.routes, has) != [] &&
                !Registrable(old(adapter.owned), adapter.shell, spec.manifest.moduleId, Permitted(spec.manifest.routes, has))
      ensures Spent(old(faults), faults, r != Reconciled && r != Conflict)
      ensures old(Settled(spec, has)) ==> installs == old(installs) && r != Conflict
      ensures old(Settled(spec, has)) && r == Reconciled ==> SamePicture(old(active), active, spec.manifest.moduleId)
    {
      hide Live, Orderly, Accounted, Registrable, MenusOf, ShowsAllowed, MenusAllowed, Spent, RoutePaths, PathsOf;
      hide SettledIn, Shows, MountedAsDue, Untouched, SamePicture, NextRoute;
      var id := spec.manifest.moduleId;
      var permitted := Permitted(spec.manifest.routes, has);
      Nothing();
      if permitted == [] {
        r := Withdraw(spec, has);
        return;
      }
      if Settled(spec, has) { SettledStaysRegistrable(active, adapter.owned, adapter.sequence, adapter.shell, spec, has); }
      var valid := adapter.Validate(id, permitted);
      if !valid { return Conflict; }
      RegistrableAt(adapter.owned, adapter.shell, id, permitted, 0);
      if id in active && Identity(active[id].spec) == Identity(spec) {
        r := Refresh(spec, permitted);
      } else {
        r := InstallModule(spec, permitted);
      }
      if r == Reconciled {
        Settling(old(active), active, adapter.shell, spec, has);
        SettledShowsAllowed(active, Live(adapter.owned), adapter.shell, spec, has);
      }
      if old(Settled(spec, has)) { SettledIsMounted(old(active), adapter.shell, spec, has); }
    }

    /** No route of the module is permitted. */
    method Withdraw(spec: Spec, has: set<string>) returns (r: ModuleResult)
      requires Valid() && Permitted(spec.manifest.routes, has) == []
      modifies this`active, this`faults, adapter`owned
      ensures Valid() && active == old(active) - {spec.manifest.moduleId}
      ensures r == Reconciled || r == UnloadFailed
      ensures Settled(spec, has) && ShowsAllowed(active, spec, has) && MenusAllowed(active, spec, has)
      ensures MountedAsDue(old(active), active, spec.manifest.moduleId)
      ensures old(Settled(spec, has)) ==> SamePicture(old(active), active, spec.manifest.moduleId)
      ensures Spent(old(faults), faults, r != Reconciled)
    {
      hide Live, Orderly, Accounted, MenusOf, ShowsAllowed, MenusAllowed, Spent, RoutePaths, PathsOf;
      var ok := RemoveModule(spec.manifest.moduleId);
      SettledShowsAllowed(active, Live(adapter.owned), adapter.shell, spec, has);
      return if ok then Reconciled else UnloadFailed;
    }

    /** `reconcileParsed`; `has[i]` are the permissions in force when module `i` has its turn.
        Whatever fails, registrations stay accounted for. When nothing fails every module of
        the snapshot is settled and no other is active. With loader and router working, the
        plan tells beforehand which modules are refused; those stay as they were, all others
        are settled. Reconciling a settled snapshot again installs nothing and shows the same. */
    method Reconcile(snapshot: seq<Spec>, has: seq<set<string>>) returns (aborted: bool, failures: seq<(string, ModuleResult)>)
      requires Valid() && DistinctModules(snapshot) && |has| == |snapshot|
      modifies this, adapter
      ensures Valid()
      ensures aborted ==> failures == [] && Spent(old(faults), faults, true)
      ensures !aborted && failures == [] ==> Plan(old(active), adapter.shell, snapshot, has).AllSettled(active)
      ensures !aborted ==> active.Keys <= ModuleIds(snapshot)
      ensures !aborted ==> Plan(old(active), adapter.shell, snapshot, has).AllowedBut(active, Failed(failures))
      ensures var plan := Plan(old(active), adapter.shell, snapshot, has);
              old(faults) == [] ==>
                !aborted && faults == [] && failures == plan.Refusals(|snapshot|) && plan.Carried(active, |snapshot|)
      ensures old(Plan(active, adapter.shell, snapshot, has).AllSettled(active)) && old(faults) == [] ==>
                failures == [] && installs == old(installs) && MenusOf(active) == old(MenusOf(active))
    {
      ghost var plan := Plan(active, adapter.shell, snapshot, has);
      hide Accounted, Live, Orderly, MenusOf, SameShown, SettledIn, DistinctModules, ModuleIds;
      hide Plan.AllSettled, Plan.SettledFor, Plan.Refusals, Plan.Carried, Plan.InProgress, Plan.AllowedBut, Failed;
      ghost var settled := plan.AllSettled(active) && faults == [];
      aborted := RemoveUndesired(snapshot);
      failures := [];
      if aborted { return; }
      plan.Start(active);
      for i := 0 to |snapshot|
        invariant Valid() && plan.InProgress(active, failures, i, old(faults) == [])
        invariant old(faults) == [] ==> faults == []
        invariant settled ==> failures == [] && installs == old(installs)
        invariant settled ==> SameShown(old(active), active) && plan.SettledFor(active, i, |snapshot|)
      {
        failures := ReconcileTurn(snapshot, has, i, failures, plan, old(faults) == [], settled);
      }
      plan.End(active, failures, old(faults) == [], Live(adapter.owned), old(Live(adapter.owned)));
    }

    /** The turn of one module: its failure, if any, is recorded and the next one follows. */
    method ReconcileTurn(snapshot: seq<Spec>, has: seq<set<string>>, i: nat, before: seq<(string, ModuleResult)>,
                         ghost plan: Plan, ghost undisturbed: bool, ghost settled: bool)
      returns (failures: seq<(string, ModuleResult)>)
      requires Valid() && plan.Valid() && plan.snapshot == snapshot && plan.has == has && plan.shell == adapter.shell
      requires i < |snapshot| && plan.InProgress(active, before, i, undisturbed)
      requires undisturbed ==> faults == []
      requires settled ==> undisturbed && before == [] && SameShown(plan.before, active)
      requires settled ==> plan.SettledFor(active, i, |snapshot|)
      modifies this, adapter
      ensures Valid() && plan.InProgress(active, failures, i + 1, undisturbed)
      ensures undisturbed ==> faults == []
      ensures settled ==> failures == [] && installs == old(installs)
      ensures settled ==> SameShown(plan.before, active) && plan.SettledFor(active, i + 1, |snapshot|)
    {
      hide Accounted, Live, Orderly, Registrable, Changed, SameShown, SamePicture, SettledIn, DistinctModules, Permitted;
      hide Plan.SettledFor, Plan.Refused, Plan.InProgress;
      plan.Head(active, i);
      if undisturbed { plan.RefusedIffNotRegistrable(active, before, adapter.owned, i); }
      var result := ReconcileModule(snapshot[i], has[i]);
      plan.Turn(old(active), active, i, before, result, undisturbed);
      plan.Step(old(active), active, i);
      SameShownStep(plan.before, old(active), active, snapshot[i].manifest.moduleId);
      failures := if result == Reconciled then before else before + [(snapshot[i].manifest.moduleId, result)];
    }

    /** Modules that wait for each other are refused in every reconcile, however often it is
        repeated, and stay as they are. */
    method RefuseForever(snapshot: seq<Spec>, has: seq<set<string>>, ghost group: set<nat>, rounds: nat)
      returns (refusals: seq<seq<(string, ModuleResult)>>)
      requires Valid() && faults == [] && DistinctModules(snapshot) && |has| == |snapshot|
      requires Plan(active, adapter.shell, snapshot, has).Entangled(group)
      modifies this, adapter
      ensures |refusals| == rounds
      ensures forall r, i :: 0 <= r < rounds && i in group && i < |snapshot| ==>
                (snapshot[i].manifest.moduleId, Conflict) in refusals[r]
      ensures forall i :: i in group && i < |snapshot| ==> SameRecord(old(active), active, snapshot[i].manifest.moduleId)
    {
      hide Accounted, Live, Orderly, MenusOf, SettledIn, DistinctModules, Permitted, RoutePaths, PathsOf;
      hide Plan.Refused, Plan.Held, Plan.Verdicts, Plan.AllSettled, Plan.WantsFrom, Plan.Refusals;
      refusals := [];
      ghost var first := Plan(active, adapter.shell, snapshot, has);
      for r := 0 to rounds
        invariant Valid() && faults == [] && |refusals| == r
        invariant forall q, i :: 0 <= q < r && i in group && i < |snapshot| ==>
                    (snapshot[i].manifest.moduleId, Conflict) in refusals[q]
        invariant forall i :: i in group && i < |snapshot| ==> SameRecord(old(active), active, snapshot[i].manifest.moduleId)
      {
        ghost var plan := Plan(active, adapter.shell, snapshot, has);
        first.StillEntangled(plan, group);
        forall i | i in group ensures i < |snapshot| && plan.Refused(i) && (plan.Id(i), Conflict) in plan.Refusals(|snapshot|) {
          plan.EntangledAreRefused(group, i);
          plan.RefusedIsReported(|snapshot|, i);
        }
        var aborted, failures := Reconcile(snapshot, has);
        forall i | i in group && i < |snapshot| ensures SameRecord(old(active), active, snapshot[i].manifest.moduleId) {
          assert plan.Refused(i);
          assert SameRecord(plan.before, active, plan.Id(i));
        }
        refusals := refusals + [failures];
      }
    }

    /** Removes every module the snapshot does not name; a failing unload stops it. */
    method RemoveUndesired(snapshot: seq<Spec>) returns (aborted: bool)
      requires Valid()
      modifies this`active, this`faults, adapter`owned
      ensures Valid()
      ensures forall m :: m in active ==> m in old(active) && active[m] == old(active)[m]
      ensures forall m :: m in old(active) && m in ModuleIds(snapshot) ==> m in active
      ensures !aborted ==> active.Keys <= ModuleIds(snapshot)
      ensures Spent(old(faults), faults, aborted)
    {
      var desired := ModuleIds(snapshot);
      var todo := active.Keys;
      while todo != {}
        invariant Valid() && todo <= old(active).Keys
        invariant forall m :: m in active ==> m in old(active) && active[m] == old(active)[m]
        invariant forall m :: m in old(active) && m in desired ==> m in active
        invariant forall m :: m in active && m !in todo ==> m in desired
        invariant Spent(old(faults), faults, false)
      {
        var m :| m in todo;
        todo := todo - {m};
        if m !in desired {
          ghost var before := faults;
          var ok := RemoveModule(m);
          SpentThen(old(faults), before, faults, !ok);
          if !ok { return true; }
        }
      }
      return false;
    }

    /** `attach`: shows a route in an element, mounting it unless it is already there as asked
        for. A settled module stays settled. */
    method Attach(moduleId: string, routeId: string, moved: bool) returns (ok: bool)
      requires Valid()
      modifies this`active, this`faults, this`installs
      ensures Valid() && Changed(old(active), active, moduleId)
      ensures !ok ==> active == old(active)
      ensures ok ==> moduleId in active && moduleId in old(active) && HasRoute(active[moduleId].permitted, routeId)
                     && active[moduleId] == old(active)[moduleId].(mounted := routeId)
      ensures if moduleId in old(active) && HasRoute(old(active)[moduleId].permitted, routeId)
              then Spent(old(faults), faults, !ok) else !ok && faults == old(faults)
      ensures ok ==> installs == if old(active)[moduleId].mounted == routeId && !moved then old(installs)
                                 else old(installs) + [moduleId]
      ensures forall shell, spec, has :: SettledIn(old(active), shell, spec, has) ==> SettledIn(active, shell, spec, has)
    {
      if moduleId !in active || !HasRoute(active[moduleId].permitted, routeId) { return false; }
      var record := active[moduleId];
      if record.mounted != routeId || moved {
        installs := installs + [moduleId];
        var failed := Fails();
        if failed { return false; }
        active := active[moduleId := record.(mounted := routeId)];
      }
      return true;
    }

    /** Any sequence of reconciles, with whatever permissions hold at each, and attachments. */
    method Run(calls: seq<Call>)
      requires Valid()
      requires forall i :: 0 <= i < |calls| && calls[i].Reconciles? ==>
                 DistinctModules(calls[i].snapshot) && |calls[i].has| == |calls[i].snapshot|
      modifies this, adapter
      ensures Valid()
    {
      for i := 0 to |calls|
        invariant Valid()
      {
        faults := calls[i].faults;
        match calls[i] {
          case Reconciles(snapshot, has, _) =>
            var aborted, failures := Reconcile(snapshot, has);
          case Attaches(moduleId, routeId, moved, _) =>
            var ok := Attach(moduleId, routeId, moved);
        }
      }
    }
  }

  datatype Call =
    | Reconciles(snapshot: seq<Spec>, has: seq<set<string>>, faults: seq<bool>)
    | Attaches(moduleId: string, routeId: string, moved: bool, faults: seq<bool>)

  datatype ModuleResult = Reconciled | Conflict | InstallFailed | MountFailed | RegisterFailed | UnloadFailed

  /** Only the given module's record may differ. */
  ghost predicate Changed(a: map<string, Record>, b: map<string, Record>, moduleId: string) {
    forall m :: m != moduleId ==> (m in a <==> m in b) && (m in a ==> a[m] == b[m])
  }

  /** The record shows exactly these routes of this module. */
  ghost predicate Shows(record: Record, spec: Spec, permitted: seq<Route>) {
    && Identity(record.spec) == Identity(spec) && record.permitted == permitted && HasRoute(permitted, record.mounted)
    && PathsOf(record.handles) == RoutePaths(permitted)
  }

  ghost predicate SettledIn(active: map<string, Record>, shell: set<string>, spec: Spec, has: set<string>) {
    var id, permitted := spec.manifest.moduleId, Permitted(spec.manifest.routes, has);
    if permitted == [] then id !in active
    else id in active && Shows(active[id], spec, permitted) && Distinct(permitted, shell)
  }

  /** A module that shows its permitted routes, with the due one mounted, is settled. */
  lemma Settling(was: map<string, Record>, now: map<string, Record>, shell: set<string>, spec: Spec, has: set<string>)
    requires var id, permitted := spec.manifest.moduleId, Permitted(spec.manifest.routes, has);
             && permitted != [] && Distinct(permitted, shell) && id in now && Shows(now[id], spec, permitted)
             && now[id].mounted == if id in was then NextRoute(permitted, was[id].mounted) else permitted[0].id
    ensures SettledIn(now, shell, spec, has) && MountedAsDue(was, now, spec.manifest.moduleId)
    ensures Untouched(was, now, spec) <==>
            && spec.manifest.moduleId in was && Identity(was[spec.manifest.moduleId].spec) == Identity(spec)
            && HasRoute(Permitted(spec.manifest.routes, has), was[spec.manifest.moduleId].mounted)
    ensures SettledIn(was, shell, spec, has) ==> SamePicture(was, now, spec.manifest.moduleId)
  {
    hide Permitted, RoutePaths, PathsOf, Distinct;
    var id, permitted := spec.manifest.moduleId, Permitted(spec.manifest.routes, has);
    assert permitted[0] in permitted && HasRoute(permitted, permitted[0].id);
    if id in was {
      assert HasRoute(permitted, was[id].mounted) <==> exists q :: q in permitted && q.id == was[id].mounted;
    }
  }

  lemma SettledIsMounted(active: map<string, Record>, shell: set<string>, spec: Spec, has: set<string>)
    requires SettledIn(active, shell, spec, has) && Permitted(spec.manifest.routes, has) != []
    ensures var id := spec.manifest.moduleId;
            && id in active && Identity(active[id].spec) == Identity(spec)
            && HasRoute(Permitted(spec.manifest.routes, has), active[id].mounted)
  {
  }

  /** A settled module shows what the permissions allow, route by route. */
  lemma SettledShowsAllowed(active: map<string, Record>, live: set<Handle>, shell: set<string>, spec: Spec, has: set<string>)
    requires SettledIn(active, shell, spec, has) && Accounted(active, live)
    ensures ShowsAllowed(active, spec, has) && MenusAllowed(active, spec, has)
  {
    SettledMenus(active, live, shell, spec, has);
    hide Accounted, MenusAllowed, Distinct;
    var permitted := Permitted(spec.manifest.routes, has);
    var allowed := set r | r in spec.manifest.routes && (r.permission.None? || r.permission.value in has);
    assert allowed == set r | r in permitted;
    assert permitted != [] ==> permitted[0] in allowed;
    RoutePathsOf(permitted);
  }

  lemma RoutePathsOf(routes: seq<Route>)
    ensures RoutePaths(routes) == set r | r in routes :: r.path
  {
    assert forall r :: r in routes ==> exists i :: 0 <= i < |routes| && routes[i] == r;
  }

  lemma SettledMenus(active: map<string, Record>, live: set<Handle>, shell: set<string>, spec: Spec, has: set<string>)
    requires SettledIn(active, shell, spec, has) && Accounted(active, live)
    ensures MenusAllowed(active, spec, has)
  {
    hide Distinct, PathsOf, RoutePaths, HasRoute, OneEach;
    var id, permitted := spec.manifest.moduleId, Permitted(spec.manifest.routes, has);
    forall x | x in MenusOf(active) && x.moduleId == id
      ensures exists r :: r in spec.manifest.routes && r.menu && (r.permission.None? || r.permission.value in has)
                          && x == Menu(id, r.id, r.path, r.title, r.order, r.permission)
    {
      var m, r :| m in active && r in active[m].permitted && r.menu
                  && x == Menu(active[m].spec.manifest.moduleId, r.id, r.path, r.title, r.order, r.permission);
      assert m == id && r in permitted;
    }
    forall r | r in spec.manifest.routes && r.menu && (r.permission.None? || r.permission.value in has)
      ensures Menu(id, r.id, r.path, r.title, r.order, r.permission) in MenusOf(active)
    {
      assert r in permitted;
      assert id in active && r in active[id].permitted && active[id].spec.manifest.moduleId == id;
    }
  }

  /** Filtering the routes keeps their order. */
  lemma {:induction false} PermittedInOrder(a: seq<Route>, b: seq<Route>, has: set<string>)
    ensures Permitted(a + b, has) == Permitted(a, has) + Permitted(b, has)
  {
    if a == [] {
      assert a + b == b;
    } else {
      assert (a + b)[0] == a[0] && (a + b)[1..] == a[1..] + b;
      PermittedInOrder(a[1..], b, has);
    }
  }

  /** Both states show the same routes of the module. */
  ghost predicate SamePicture(a: map<string, Record>, b: map<string, Record>, m: string) {
    (m in a <==> m in b) && (m in a ==> a[m].permitted == b[m].permitted && a[m].mounted == b[m].mounted)
  }

  function ModuleIds(snapshot: seq<Spec>): set<string> {
    set s | s in snapshot :: s.manifest.moduleId
  }

  ghost function Failed(failures: seq<(string, ModuleResult)>): set<string> {
    set f | f in failures :: f.0
  }

  ghost predicate DistinctModules(snapshot: seq<Spec>) {
    forall i, j :: 0 <= i < j < |snapshot| ==> snapshot[i].manifest.moduleId != snapshot[j].manifest.moduleId
  }

  ghost predicate SameShown(a: map<string, Record>, b: map<string, Record>) {
    forall m :: SamePicture(a, b, m)
  }

  lemma SameShownStep(first: map<string, Record>, before: map<string, Record>, after: map<string, Record>, moduleId: string)
    requires Changed(before, after, moduleId)
    ensures SameShown(first, before) && SamePicture(before, after, moduleId) ==> SameShown(first, after)
  {
    if SameShown(first, before) && SamePicture(before, after, moduleId) {
      forall m ensures SamePicture(first, after, m) {
        assert SamePicture(first, before, m) && SamePicture(before, after, m);
      }
    }
  }

  lemma SamePictureSameMenus(a: map<string, Record>, b: map<string, Record>)
    requires forall m :: SamePicture(a, b, m)
    requires forall m :: m in a ==> a[m].spec.manifest.moduleId == m
    requires forall m :: m in b ==> b[m].spec.manifest.moduleId == m
    ensures MenusOf(a) == MenusOf(b)
  {
    assert forall m :: m in a ==> SamePicture(a, b, m);
    assert forall m :: m in b ==> SamePicture(a, b, m);
    forall x | x in MenusOf(a) ensures x in MenusOf(b) {
      var m, r :| m in a && r in a[m].permitted && r.menu
                  && x == Menu(a[m].spec.manifest.moduleId, r.id, r.path, r.title, r.order, r.permission);
      assert m in b && r in b[m].permitted;
    }
    forall x | x in MenusOf(b) ensures x in MenusOf(a) {
      var m, r :| m in b && r in b[m].permitted && r.menu
                  && x == Menu(b[m].spec.manifest.moduleId, r.id, r.path, r.title, r.order, r.permission);
      assert m in a && r in a[m].permitted;
    }
  }

  ghost function HeldPaths(active: map<string, Record>, moduleId: string): set<string> {
    if moduleId in active then PathsOf(active[moduleId].handles) else {}
  }

  /** A path is free for a module exactly when no other active module holds it. */
  lemma FreeIffNotHeld(active: map<string, Record>, owned: map<string, set<Owner>>, path: string, moduleId: string)
    requires Accounted(active, Live(owned))
    ensures FreeFor(owned, path, moduleId) <==> forall m :: m in active && m != moduleId ==> path !in HeldPaths(active, m)
  {
    if FreeFor(owned, path, moduleId) {
      forall m | m in active && m != moduleId ensures path !in HeldPaths(active, m) {
        forall h | h in active[m].handles ensures h.path != path {
          LiveMember(owned, h);
        }
      }
    } else {
      var o :| o in owned[path] && o.moduleId != moduleId;
      LiveMember(owned, Handle(path, o));
      assert Handle(path, o) in active[o.moduleId].handles;
      assert path in HeldPaths(active, o.moduleId);
    }
  }

  ghost predicate SameRecord(a: map<string, Record>, b: map<string, Record>, m: string) {
    (m in a <==> m in b) && (m in a ==> a[m] == b[m])
  }

  /** One reconcile seen beforehand: the records it starts from, the shell's paths, the snapshot,
      and the permissions in force at each module's turn. */
  datatype Plan = Plan(before: map<string, Record>, shell: set<string>, snapshot: seq<Spec>, has: seq<set<string>>) {

    ghost predicate Valid() {
      |has| == |snapshot| && DistinctModules(snapshot)
    }

    ghost function Id(i: nat): string
      requires i < |snapshot|
    {
      snapshot[i].manifest.moduleId
    }

    ghost function Wanted(i: nat): seq<Route>
      requires i < |snapshot| == |has|
    {
      Permitted(snapshot[i].manifest.routes, has[i])
    }

    /** What module `k` holds once the first modules were refused or not as listed: its new paths
        if it had its turn and was not refused, else what it held before. */
    ghost function Held(refused: seq<bool>, k: nat): set<string>
      requires Valid() && k < |snapshot|
    {
      if k < |refused| && !refused[k] then RoutePaths(Wanted(k)) else HeldPaths(before, Id(k))
    }

    /** The next module is refused: it wants a path twice, or one of the shell's, or one that
        another module holds at that moment. */
    ghost predicate RefusesNext(refused: seq<bool>)
      requires Valid() && |refused| < |snapshot|
    {
      Wanted(|refused|) != [] && !(Distinct(Wanted(|refused|), shell) && Free(refused))
    }

    ghost predicate Free(refused: seq<bool>)
      requires Valid() && |refused| < |snapshot|
    {
      forall k: nat :: k < |snapshot| && k != |refused| ==> Held(refused, k) !! RoutePaths(Wanted(|refused|))
    }

    /** Turn by turn, which of the first `n` modules are refused. */
    ghost function Verdicts(n: nat): (refused: seq<bool>)
      requires Valid() && n <= |snapshot|
      ensures |refused| == n
    {
      if n == 0 then [] else Verdicts(n - 1) + [RefusesNext(Verdicts(n - 1))]
    }

    ghost predicate Refused(i: nat)
      requires Valid() && i < |snapshot|
    {
      RefusesNext(Verdicts(i))
    }

    /** A verdict is not revised in later turns. */
    lemma {:induction false} VerdictsStand(n: nat, i: nat)
      requires Valid() && i < n <= |snapshot|
      ensures Verdicts(n)[i] == Refused(i)
    {
      if i < n - 1 { VerdictsStand(n - 1, i); }
    }

    /** The failures of a reconcile in which only conflicts can fail. */
    ghost function Refusals(n: nat): seq<(string, ModuleResult)>
      requires Valid() && n <= |snapshot|
    {
      if n == 0 then [] else Refusals(n - 1) + (if Refused(n - 1) then [(Id(n - 1), Conflict)] else [])
    }

    ghost predicate SettledFor(active: map<string, Record>, lo: int, hi: int)
      requires Valid()
    {
      forall i :: 0 <= lo <= i < hi <= |snapshot| ==> SettledIn(active, shell, snapshot[i], has[i])
    }

    /** Each of the first `n` modules is settled unless its failure is recorded. */
    ghost predicate SettledBut(active: map<string, Record>, failures: seq<(string, ModuleResult)>, n: nat)
      requires Valid() && n <= |snapshot|
    {
      forall k: nat :: k < n && Id(k) !in Failed(failures) ==> SettledIn(active, shell, snapshot[k], has[k])
    }

    /** Every module of the snapshot is settled, and nothing else is active. */
    ghost predicate AllSettled(active: map<string, Record>)
      requires Valid()
    {
      SettledFor(active, 0, |snapshot|) && active.Keys <= ModuleIds(snapshot)
    }

    /** Every module but those that failed shows what the permissions of its turn allow. */
    ghost predicate AllowedBut(active: map<string, Record>, failed: set<string>)
      requires Valid()
    {
      forall k: nat :: k < |snapshot| && Id(k) !in failed ==>
        ShowsAllowed(active, snapshot[k], has[k]) && MenusAllowed(active, snapshot[k], has[k])
    }

    /** After `n` turns: refused modules and those still waiting are as before, the others settled. */
    ghost predicate Carried(active: map<string, Record>, n: nat)
      requires Valid() && n <= |snapshot|
    {
      forall k: nat :: k < |snapshot| ==>
        if k < n && !Refused(k) then SettledIn(active, shell, snapshot[k], has[k]) else SameRecord(before, active, Id(k))
    }

    /** The state after `n` turns, with the failures so far. */
    ghost predicate InProgress(active: map<string, Record>, failures: seq<(string, ModuleResult)>, n: nat, undisturbed: bool)
      requires Valid() && n <= |snapshot|
    {
      && active.Keys <= ModuleIds(snapshot)
      && SettledBut(active, failures, n)
      && (undisturbed ==> failures == Refusals(n) && Carried(active, n))
    }

    lemma Start(active: map<string, Record>)
      requires Valid() && active.Keys <= ModuleIds(snapshot)
      requires forall m :: m in active ==> m in before && active[m] == before[m]
      requires forall m :: m in before && m in ModuleIds(snapshot) ==> m in active
      ensures forall u :: InProgress(active, [], 0, u)
      ensures AllSettled(before) ==> SameShown(before, active) && SettledFor(active, 0, |snapshot|)
    {
      assert forall k :: 0 <= k < |snapshot| ==> snapshot[k].manifest.moduleId in ModuleIds(snapshot);
      if AllSettled(before) { assert before == active; }
    }

    lemma Head(active: map<string, Record>, i: nat)
      requires Valid() && i < |snapshot|
      ensures SettledFor(active, i, |snapshot|) ==> SettledIn(active, shell, snapshot[i], has[i])
    {
    }

    /** Reconciling one module leaves the others as settled as they were. */
    lemma Step(was: map<string, Record>, now: map<string, Record>, i: nat)
      requires Valid() && i < |snapshot| && Changed(was, now, Id(i))
      ensures SettledFor(was, i, |snapshot|) ==> SettledFor(now, i + 1, |snapshot|)
    {
      forall j | 0 <= j < |snapshot| && j != i
        ensures SettledIn(was, shell, snapshot[j], has[j]) <==> SettledIn(now, shell, snapshot[j], has[j])
      {
        assert Id(j) != Id(i);
      }
    }

    lemma CarriedStep(was: map<string, Record>, now: map<string, Record>, i: nat)
      requires Valid() && i < |snapshot| && Changed(was, now, Id(i)) && Carried(was, i)
      requires if Refused(i) then now == was else SettledIn(now, shell, snapshot[i], has[i])
      ensures Carried(now, i + 1)
    {
      hide Refused;
      forall k: nat | k < |snapshot|
        ensures if k < i + 1 && !Refused(k) then SettledIn(now, shell, snapshot[k], has[k]) else SameRecord(before, now, Id(k))
      {
        if k != i { assert Id(k) != Id(i); }
      }
    }

    lemma SettledButStep(was: map<string, Record>, now: map<string, Record>, i: nat,
                         failures: seq<(string, ModuleResult)>, result: ModuleResult)
      requires Valid() && i < |snapshot| && Changed(was, now, Id(i)) && SettledBut(was, failures, i)
      requires result == Reconciled ==> SettledIn(now, shell, snapshot[i], has[i])
      ensures SettledBut(now, if result == Reconciled then failures else failures + [(Id(i), result)], i + 1)
    {
      var after := if result == Reconciled then failures else failures + [(Id(i), result)];
      assert result != Reconciled ==> after[|failures|] == (Id(i), result);
      assert forall f :: f in failures ==> f in after;
      forall k: nat | k < i && Id(k) !in Failed(after) ensures SettledIn(now, shell, snapshot[k], has[k]) {
        assert Id(k) != Id(i) && SettledIn(was, shell, snapshot[k], has[k]);
      }
    }

    /** One turn, told by its result. */
    lemma Turn(was: map<string, Record>, now: map<string, Record>, i: nat, failures: seq<(string, ModuleResult)>,
               result: ModuleResult, undisturbed: bool)
      requires Valid() && i < |snapshot| && Changed(was, now, Id(i)) && InProgress(was, failures, i, undisturbed)
      requires result == Reconciled ==> SettledIn(now, shell, snapshot[i], has[i])
      requires undisturbed ==> (result == Conflict <==> Refused(i)) && (result == Reconciled || result == Conflict)
      requires result == Conflict ==> now == was
      ensures InProgress(now, if result == Reconciled then failures else failures + [(Id(i), result)], i + 1, undisturbed)
    {
      hide Refused, Carried, SettledIn;
      SettledButStep(was, now, i, failures, result);
      if undisturbed { CarriedStep(was, now, i); }
      assert Id(i) in ModuleIds(snapshot);
      forall m | m in now && m != Id(i) ensures m in was {
      }
    }

    /** What is carried tells what each module holds. */
    lemma HoldsInTurn(active: map<string, Record>, i: nat, k: nat)
      requires Valid() && i <= |snapshot| && k < |snapshot| && Carried(active, i)
      ensures HeldPaths(active, Id(k)) == Held(Verdicts(i), k)
    {
      hide Refused;
      if k < i { VerdictsStand(i, k); }
      if k < i && !Refused(k) { assert SettledIn(active, shell, snapshot[k], has[k]); }
    }

    lemma FreeInTurn(active: map<string, Record>, owned: map<string, set<Owner>>, i: nat, path: string)
      requires Valid() && i < |snapshot| && Carried(active, i)
      requires Accounted(active, Live(owned)) && active.Keys <= ModuleIds(snapshot)
      ensures FreeFor(owned, path, Id(i)) <==> forall k: nat :: k < |snapshot| && k != i ==> path !in Held(Verdicts(i), k)
    {
      hide Accounted, Carried, FreeFor, Held;
      FreeIffNotHeld(active, owned, path, Id(i));
      forall k: nat | k < |snapshot| ensures HeldPaths(active, Id(k)) == Held(Verdicts(i), k) {
        HoldsInTurn(active, i, k);
      }
      if FreeFor(owned, path, Id(i)) {
        forall k: nat | k < |snapshot| && k != i ensures path !in Held(Verdicts(i), k) {
          assert Id(k) != Id(i) && path !in HeldPaths(active, Id(k));
        }
      } else {
        var m :| m in active && m != Id(i) && path in HeldPaths(active, m);
        var s :| s in snapshot && s.manifest.moduleId == m;
        var k: nat :| k < |snapshot| && snapshot[k] == s;
        assert Id(k) == m && HeldPaths(active, Id(k)) == Held(Verdicts(i), k);
        assert k != i && path in Held(Verdicts(i), k);
      }
    }

    /** In its turn a module is refused exactly when the adapter would not register its routes. */
    lemma RefusedIffNotRegistrable(active: map<string, Record>, failures: seq<(string, ModuleResult)>,
                                   owned: map<string, set<Owner>>, i: nat)
      requires Valid() && i < |snapshot| && InProgress(active, failures, i, true)
      requires Accounted(active, Live(owned))
      ensures Refused(i) <==> Wanted(i) != [] && !Registrable(owned, shell, Id(i), Wanted(i))
    {
      hide Accounted, Carried, FreeFor, Held, RoutePaths, Wanted;
      var wanted := Wanted(i);
      forall r | 0 <= r < |wanted|
        ensures FreeFor(owned, wanted[r].path, Id(i)) <==>
                forall k: nat :: k < |snapshot| && k != i ==> wanted[r].path !in Held(Verdicts(i), k)
      {
        FreeInTurn(active, owned, i, wanted[r].path);
      }
      DisjointFromRoutes(i);
      assert Registrable(owned, shell, Id(i), wanted) <==>
             Distinct(wanted, shell) && forall r :: 0 <= r < |wanted| ==> FreeFor(owned, wanted[r].path, Id(i));
    }

    lemma DisjointFromRoutes(i: nat)
      requires Valid() && i < |snapshot|
      ensures (forall r, k: nat :: 0 <= r < |Wanted(i)| && k < |snapshot| && k != i ==> Wanted(i)[r].path !in Held(Verdicts(i), k))
              <==> Free(Verdicts(i))
    {
      hide Held, Wanted;
      assert forall r :: 0 <= r < |Wanted(i)| ==> Wanted(i)[r].path in RoutePaths(Wanted(i));
    }

    lemma End(active: map<string, Record>, failures: seq<(string, ModuleResult)>, undisturbed: bool,
              live: set<Handle>, oldLive: set<Handle>)
      requires Valid() && Accounted(before, oldLive) && Accounted(active, live)
      requires InProgress(active, failures, |snapshot|, undisturbed)
      ensures failures == [] ==> AllSettled(active)
      ensures AllowedBut(active, Failed(failures))
      ensures active.Keys <= ModuleIds(snapshot)
      ensures undisturbed ==> failures == Refusals(|snapshot|) && Carried(active, |snapshot|)
      ensures SameShown(before, active) ==> MenusOf(before) == MenusOf(active)
    {
      if SameShown(before, active) { SamePictureSameMenus(before, active); }
      hide Accounted, MenusOf, SettledIn, ShowsAllowed, MenusAllowed, Refusals, Carried;
      forall k: nat | k < |snapshot| && Id(k) !in Failed(failures)
        ensures ShowsAllowed(active, snapshot[k], has[k]) && MenusAllowed(active, snapshot[k], has[k])
      {
        SettledShowsAllowed(active, live, shell, snapshot[k], has[k]);
      }
    }

    // ----- when nothing is refused ------------------------------------------------------------

    /** Module `i` finds its paths clear: they are distinct and not the shell's, no earlier module
        of the snapshot wants one of them, and no later one held one of them before. */
    ghost predicate Clear(i: nat)
      requires Valid() && i < |snapshot|
    {
      && Distinct(Wanted(i), shell)
      && (forall k: nat :: k < i ==> RoutePaths(Wanted(k)) !! RoutePaths(Wanted(i)))
      && (forall k: nat :: i < k < |snapshot| ==> HeldPaths(before, Id(k)) !! RoutePaths(Wanted(i)))
    }

    /** Nothing is refused if and only if every module finds its paths clear. */
    lemma {:induction false} NothingRefusedIffClear(n: nat)
      requires Valid() && n <= |snapshot|
      ensures Refusals(n) == [] <==> forall i: nat :: i < n ==> Clear(i)
      ensures Refusals(n) == [] <==> forall i: nat :: i < n ==> !Refused(i)
    {
      hide Refused, Clear;
      if n > 0 {
        NothingRefusedIffClear(n - 1);
        assert Refusals(n) == [] <==> Refusals(n - 1) == [] && !Refused(n - 1);
        if Refusals(n - 1) == [] { RefusedIffNotClear(n - 1); }
      }
    }

    lemma RefusedIffNotClear(i: nat)
      requires Valid() && i < |snapshot| && forall k: nat :: k < i ==> !Refused(k)
      ensures Refused(i) <==> !Clear(i)
    {
      var wanted := Wanted(i);
      assert wanted == [] ==> RoutePaths(wanted) == {};
      forall k: nat | k < i ensures !Verdicts(i)[k] {
        VerdictsStand(i, k);
      }
      assert forall k: nat :: k < i ==> Held(Verdicts(i), k) == RoutePaths(Wanted(k));
      assert forall k: nat :: i < k < |snapshot| ==> Held(Verdicts(i), k) == HeldPaths(before, Id(k));
      forall k: nat | k < |snapshot| && k != i
        ensures Held(Verdicts(i), k) !! RoutePaths(wanted) <==>
                if k < i then RoutePaths(Wanted(k)) !! RoutePaths(wanted) else HeldPaths(before, Id(k)) !! RoutePaths(wanted)
      {
      }
    }

    /** From an empty host nothing is refused exactly if the snapshot is consistent: no module
        wants a path twice or one of the shell's, and no two modules want the same path. */
    lemma ConsistentIffFreshHostSettles()
      requires Valid() && before == map[]
      ensures Refusals(|snapshot|) == [] <==> Consistent()
    {
      NothingRefusedIffClear(|snapshot|);
      assert forall i: nat :: i < |snapshot| ==> HeldPaths(before, Id(i)) == {};
      if Consistent() {
        forall i: nat | i < |snapshot| ensures Clear(i) {
        }
      } else if forall i: nat :: i < |snapshot| ==> Clear(i) {
        forall i: nat | i < |snapshot| ensures Distinct(Wanted(i), shell) {
          assert Clear(i);
        }
        forall k: nat, i: nat | k < i < |snapshot| ensures RoutePaths(Wanted(k)) !! RoutePaths(Wanted(i)) {
          assert Clear(i);
        }
        assert false;
      }
    }

    ghost predicate Consistent()
      requires Valid()
    {
      && (forall i: nat :: i < |snapshot| ==> Distinct(Wanted(i), shell))
      && (forall k: nat, i: nat :: k < i < |snapshot| ==> RoutePaths(Wanted(k)) !! RoutePaths(Wanted(i)))
    }

    /** Module `i` wants a path that another of these modules holds. */
    ghost predicate WantsFrom(group: set<nat>, i: nat, k: nat)
      requires Valid() && i < |snapshot| && k < |snapshot|
    {
      k in group && k != i && !(HeldPaths(before, Id(k)) !! RoutePaths(Wanted(i)))
    }

    /** These modules wait for each other. */
    ghost predicate Entangled(group: set<nat>)
      requires Valid()
    {
      forall i :: Waits(group, i)
    }

    ghost predicate Waits(group: set<nat>, i: nat)
      requires Valid()
    {
      i in group ==> i < |snapshot| && exists k: nat :: k < |snapshot| && WantsFrom(group, i, k)
    }

    /** Modules that wait for each other are all refused, whatever else is in the snapshot and in
        whatever order. */
    lemma {:induction false} EntangledAreRefused(group: set<nat>, i: nat)
      requires Valid() && Entangled(group) && i in group
      ensures i < |snapshot| && Refused(i)
      decreases i
    {
      hide HeldPaths, Permitted, Verdicts, Refused;
      assert Waits(group, i);
      var k: nat :| k < |snapshot| && WantsFrom(group, i, k);
      if k < i {
        EntangledAreRefused(group, k);
        VerdictsStand(i, k);
      }
      assert Held(Verdicts(i), k) == HeldPaths(before, Id(k));
      RefusedFor(i, k);
    }

    lemma RefusedFor(i: nat, k: nat)
      requires Valid() && i < |snapshot| && k < |snapshot| && k != i
      requires !(Held(Verdicts(i), k) !! RoutePaths(Wanted(i)))
      ensures Refused(i)
    {
      hide Held, Verdicts;
      NoRoutesNoPaths();
    }

    /** Whether modules wait for each other depends on their own records only. */
    lemma StillEntangled(later: Plan, group: set<nat>)
      requires Valid() && later.Valid() && later == this.(before := later.before) && Entangled(group)
      requires forall i :: i in group && i < |snapshot| ==> SameRecord(before, later.before, snapshot[i].manifest.moduleId)
      ensures later.Entangled(group)
    {
      forall i: nat ensures later.Waits(group, i) {
        assert Waits(group, i);
        if i in group {
          var k: nat :| k < |snapshot| && WantsFrom(group, i, k);
          assert SameRecord(before, later.before, Id(k));
          assert later.WantsFrom(group, i, k);
        }
      }
    }

    lemma {:induction false} RefusedIsReported(n: nat, i: nat)
      requires Valid() && i < n <= |snapshot| && Refused(i)
      ensures (Id(i), Conflict) in Refusals(n)
    {
      hide Refused;
      if i < n - 1 { RefusedIsReported(n - 1, i); }
    }
  }

  lemma NoRoutesNoPaths()
    ensures RoutePaths([]) == {}
  {
  }

  /** Module "a" moves from /y to /x and module "b" from /x to /y. */
  ghost function Trading(): Plan {
    var x, y := Route("r", "/x", "t", 0, false, None), Route("r", "/y", "t", 0, false, None);
    var a, b := Spec("s", "1", Manifest("a", [x])), Spec("s", "1", Manifest("b", [y]));
    Plan(map["a" := Record(a, [y], "r", {Handle("/y", Owner("a", 1))}), "b" := Record(b, [x], "r", {Handle("/x", Owner("b", 2))})],
         {}, [a, b], [{}, {}])
  }

  lemma OneRoute(r: Route)
    requires r.permission.None?
    ensures Permitted([r], {}) == [r] && RoutePaths([r]) == {r.path} && Distinct([r], {})
  {
    assert [r][1..] == [] && Permitted([], {}) == [];
  }

  lemma TradingPaths()
    ensures Trading().Valid() && |Trading().snapshot| == 2
    ensures RoutePaths(Trading().Wanted(0)) == {"/x"} == HeldPaths(Trading().before, Trading().Id(1))
    ensures RoutePaths(Trading().Wanted(1)) == {"/y"} == HeldPaths(Trading().before, Trading().Id(0))
    ensures Distinct(Trading().Wanted(0), {}) && Distinct(Trading().Wanted(1), {}) && Trading().shell == {}
  {
    OneRoute(Route("r", "/x", "t", 0, false, None));
    OneRoute(Route("r", "/y", "t", 0, false, None));
    hide Permitted, RoutePaths, Distinct;
    assert "a"[0] != "b"[0];
  }

  /** A consistent snapshot, refused nothing by an empty host, can be refused by another. */
  lemma ConsistentSnapshotCanBeRefused()
    ensures Trading().Valid() && Trading().Consistent() && Trading().Entangled({0, 1})
  {
    TradingPaths();
    hide Trading, Permitted, RoutePaths, Distinct;
    var plan := Trading();
    assert "/x"[1] != "/y"[1];
    assert "/x" in HeldPaths(plan.before, plan.Id(1)) && "/y" in HeldPaths(plan.before, plan.Id(0));
    assert plan.WantsFrom({0, 1}, 0, 1) && plan.WantsFrom({0, 1}, 1, 0);
    assert plan.Waits({0, 1}, 0) && plan.Waits({0, 1}, 1);
  }

  /** A settled module owns its paths, so validating them again succeeds. */
  lemma SettledStaysRegistrable(active: map<string, Record>, owned: map<string, set<Owner>>, sequence: nat,
                                shell: set<string>, spec: Spec, has: set<string>)
    requires SettledIn(active, shell, spec, has) && Permitted(spec.manifest.routes, has) != []
    requires Accounted(active, Live(owned)) && Orderly(Live(owned), sequence)
    ensures Registrable(owned, shell, spec.manifest.moduleId, Permitted(spec.manifest.routes, has))
  {
    var id, permitted := spec.manifest.moduleId, Permitted(spec.manifest.routes, has);
    forall i | 0 <= i < |permitted| ensures FreeFor(owned, permitted[i].path, id) && permitted[i].path !in shell {
      var path := permitted[i].path;
      assert path in RoutePaths(permitted);
      var h :| h in active[id].handles && h.path == path;
      if path in owned {
        forall o | o in owned[path] ensures o.moduleId == id {
          assert Handle(path, o) in Live(owned) && h in Live(owned);
        }
      }
    }
  }

  lemma RegistrableAt(owned: map<string, set<Owner>>, shell: set<string>, moduleId: string, routes: seq<Route>, i: nat)
    requires Registrable(owned, shell, moduleId, routes) && i < |routes|
    ensures Distinct(routes, shell) && FreeFor(owned, routes[i].path, moduleId) && routes[i].path !in shell
  {
  }

  /** A registration of its own does not stand in a module's way. */
  lemma StillRegistrable(owned: map<string, set<Owner>>, after: map<string, set<Owner>>, shell: set<string>,
                         moduleId: string, routes: seq<Route>, h: Handle)
    requires Registrable(owned, shell, moduleId, routes)
    requires Live(after) == Live(owned) + {h} && h.owner.moduleId == moduleId
    ensures Registrable(after, shell, moduleId, routes)
  {
    hide Live;
    forall i | 0 <= i < |routes| ensures FreeFor(after, routes[i].path, moduleId) {
      var path := routes[i].path;
      if path in after {
        forall o | o in after[path] ensures o.moduleId == moduleId {
          LiveMember(after, Handle(path, o));
          LiveMember(owned, Handle(path, o));
        }
      }
    }
  }

  lemma RoutePathsStep(routes: seq<Route>, i: nat)
    requires i < |routes|
    ensures RoutePaths(routes[..i+1]) == RoutePaths(routes[..i]) + {routes[i].path}
  {
    var a, b := routes[..i], routes[..i+1];
    assert b[i] == routes[i] && forall j :: 0 <= j < i ==> a[j] == b[j];
    forall p | p in RoutePaths(a) ensures p in RoutePaths(b) {
      var j :| 0 <= j < |a| && a[j].path == p;
      assert b[j].path == p;
    }
    assert b[i].path in RoutePaths(b);
  }

  /** Records hold exactly the live registrations, each those of its own module. */
  ghost predicate Accounted(active: map<string, Record>, live: set<Handle>) {
    && (forall m :: m in active ==> active[m].spec.manifest.moduleId == m && OneEach(active[m].handles))
    && (forall m, h :: m in active && h in active[m].handles ==> h in live && h.owner.moduleId == m)
    && (forall h :: h in live ==> h.owner.moduleId in active && h in active[h.owner.moduleId].handles)
  }

  lemma RemoveKeepsAccounted(active: map<string, Record>, live: set<Handle>, m: string)
    requires Accounted(active, live) && m in active
    ensures Accounted(active - {m}, live - active[m].handles)
  {
  }

  /** A record may change, as long as it keeps its module and its registrations; a new record
      starts without any. */
  lemma UpdateKeepsAccounted(active: map<string, Record>, live: set<Handle>, m: string, record: Record)
    requires Accounted(active, live) && record.spec.manifest.moduleId == m
    requires record.handles == if m in active then active[m].handles else {}
    ensures Accounted(active[m := record], live)
  {
  }

  lemma ReplaceKeepsAccounted(active: map<string, Record>, live: set<Handle>, m: string, next: set<Handle>)
    requires m in active && next <= live && Accounted(active, live - next)
    requires OneEach(next) && forall h :: h in next ==> h.owner.moduleId == m
    ensures Accounted(active[m := active[m].(handles := next)], live - active[m].handles)
  {
    forall h | h in live - active[m].handles && h !in next
      ensures h.owner.moduleId in active && h in active[h.owner.moduleId].handles
    {
      assert h in live - next;
    }
    forall n, h | n in active && n != m && h in active[n].handles
      ensures h in live && h !in active[m].handles && h.owner.moduleId == n
    {
      assert h in live - next;
    }
  }

  ghost function PathsOf(handles: set<Handle>): set<string> {
    set h | h in handles :: h.path
  }

  ghost function RoutePaths(routes: seq<Route>): set<string> {
    set i | 0 <= i < |routes| :: routes[i].path
  }
}
