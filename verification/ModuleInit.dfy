/** The runtime walk over mutable state, and the lifecycle hooks it collects. */
module ModuleInit {
  import opened Prelude
  import opened Arrangement
  import opened ImportGraph
  import opened Resolution
  import opened DiContainer
  import opened ModuleRuntime

  /** One list-valued part of each module, gathered in the given order. */
  ghost function GatherPart<T>(ms: Modules, order: seq<Name>, part: ModuleDef -> seq<T>): seq<T>
    requires forall n | n in order :: n in ms
  {
    if order == [] then [] else GatherPart(ms, order[..|order| - 1], part) + part(ms[order[|order| - 1]])
  }

  function ControllersOf(m: ModuleDef): seq<string> { m.controllers }
  function InitHooksOf(m: ModuleDef): seq<Hook> { m.initHooks }
  function DestroyHooksOf(m: ModuleDef): seq<Hook> { m.destroyHooks }
  function BootstrapHooksOf(m: ModuleDef): seq<Hook> { m.bootstrapHooks }
  function ShutdownHooksOf(m: ModuleDef): seq<Hook> { m.shutdownHooks }

  ghost function Globals(ms: Modules, order: seq<Name>): set<Name>
    requires forall n | n in order :: n in ms
  {
    set n | n in order && ms[n].isGlobal
  }

  ghost function AppOf(c: Container): App
    reads c, c.registry
  {
    App(c.registry.Shared(), c.registry.names, c.State())
  }

  method RegisterProvider(ghost plan: Plan, ghost limit: nat, p: Provider,
      c: Container) returns (error: Option<ProviderError>)
    requires c.Valid() && Acyclic(c.registry.Shared(), plan) && ProviderTerminates(p, plan, limit)
    modifies c, c.registry
    ensures c.Valid() && (error, AppOf(c)) == RegisterOne(plan, limit, p, old(AppOf(c)))
  {
    match p
    case ValueProvider(t, value) =>
      var e := c.Register(t, value);
      error := if e.Some? then Some(Conflict(e.value)) else None;
    case FactoryProvider(t, f) =>
      var made := c.RunFactory(plan, limit, f, []);
      if made.Err? {
        error := Some(BuildFailed(t, made.error));
      } else {
        var e := c.Register(t, made.value);
        error := if e.Some? then Some(Conflict(e.value)) else None;
      }
    case RequestFactoryProvider(t, f) =>
      var e := c.RegisterRequestFactory(t, f);
      error := if e.Some? then Some(Conflict(e.value)) else None;
    case TransientFactoryProvider(t, f) =>
      var e := c.RegisterTransientFactory(t, f);
      error := if e.Some? then Some(Conflict(e.value)) else None;
    case Reject(message) =>
      error := Some(Rejected(message));
  }

  /** A module's `register`: its providers in order, up to the first that fails. */
  method Register(ghost plan: Plan, ghost limit: nat, providers: seq<Provider>,
      c: Container) returns (error: Option<ProviderError>)
    requires c.Valid() && Acyclic(c.registry.Shared(), plan) && ProvidersTerminate(providers, plan, limit)
    modifies c, c.registry
    ensures c.Valid() && (error, AppOf(c)) == RegisterMany(plan, limit, providers, old(AppOf(c)))
  {
    ghost var start := AppOf(c);
    for i := 0 to |providers|
      invariant c.Valid() && Acyclic(c.registry.Shared(), plan)
      invariant RegisterMany(plan, limit, providers, start) == RegisterMany(plan, limit, providers[i..], AppOf(c))
    {
      assert providers[i..][0] == providers[i] && providers[i..][1..] == providers[i + 1..];
      error := RegisterProvider(plan, limit, providers[i], c);
      if error.Some? {
        return;
      }
    }
    return None;
  }

  /** The export check that follows registration. */
  method CheckExports(exports: seq<TypeId>, c: Container) returns (missing: Option<TypeId>)
    ensures missing == FirstMissing(exports, c.registry.names)
  {
    for i := 0 to |exports|
      invariant FirstMissing(exports, c.registry.names) == FirstMissing(exports[i..], c.registry.names)
    {
      var registered := c.IsTypeRegisteredName(exports[i]);
      if !registered {
        return Some(exports[i]);
      }
    }
    return None;
  }

  /** The collected parts of the walk state. */
  datatype Parts = Parts(controllers: seq<string>, init: seq<Hook>, destroy: seq<Hook>, bootstrap: seq<Hook>,
    shutdown: seq<Hook>, globals: set<Name>)

  ghost function PartsOf(ms: Modules, order: seq<Name>): Parts
    requires forall n | n in order :: n in ms
  {
    Parts(
      GatherPart(ms, order, ControllersOf), GatherPart(ms, order, InitHooksOf), GatherPart(ms, order, DestroyHooksOf),
      GatherPart(ms, order, BootstrapHooksOf), GatherPart(ms, order, ShutdownHooksOf), Globals(ms, order))
  }

  lemma {:induction false} PartsSnoc(ms: Modules, order: seq<Name>, n: Name)
    requires (forall x | x in order :: x in ms) && n in ms
    ensures var p, m := PartsOf(ms, order), ms[n];
      PartsOf(ms, order + [n]) == Parts(
        p.controllers + m.controllers, p.init + m.initHooks, p.destroy + m.destroyHooks,
        p.bootstrap + m.bootstrapHooks, p.shutdown + m.shutdownHooks, p.globals + if m.isGlobal then {n} else {})
  {
    assert (order + [n])[..|order|] == order;
  }

  class ModuleGraphState {
    var visited: set<Name>
    var visiting: set<Name>
    var stack: seq<Name>
    var controllers: seq<string>
    var moduleInitHooks: seq<Hook>
    var moduleDestroyHooks: seq<Hook>
    var applicationBootstrapHooks: seq<Hook>
    var applicationShutdownHooks: seq<Hook>
    var globalModules: set<Name>
    ghost var order: seq<Name>

    constructor ()
      ensures Abs() == EMPTY_WALK && forall ms :: Valid(ms)
    {
      visited, visiting, stack, order, globalModules := {}, {}, [], [], {};
      controllers, moduleInitHooks, moduleDestroyHooks := [], [], [];
      applicationBootstrapHooks, applicationShutdownHooks := [], [];
    }

    ghost function Abs(): Walk
      reads this
    {
      Walk(visited, visiting, stack, order)
    }

    /** Everything collected is gathered from the completed modules, in the order of their completion. */
    ghost predicate Valid(ms: Modules)
      reads this
    {
      (forall n | n in order :: n in ms) && Gathered() == PartsOf(ms, order)
    }

    ghost function Gathered(): Parts
      reads this
    {
      Parts.Parts(controllers, moduleInitHooks, moduleDestroyHooks, applicationBootstrapHooks,
        applicationShutdownHooks, globalModules)
    }

    /** Everything a registered module contributes. */
    method Collect(ms: Modules, name: Name)
      requires name in ms && Valid(ms)
      modifies this
      ensures Valid(ms) && Abs() == old(Abs()).(order := old(order) + [name])
    {
      PartsSnoc(ms, order, name);
      controllers := controllers + ms[name].controllers;
      moduleInitHooks := moduleInitHooks + ms[name].initHooks;
      moduleDestroyHooks := moduleDestroyHooks + ms[name].destroyHooks;
      applicationBootstrapHooks := applicationBootstrapHooks + ms[name].bootstrapHooks;
      applicationShutdownHooks := applicationShutdownHooks + ms[name].shutdownHooks;
      if ms[name].isGlobal {
        globalModules := globalModules + {name};
      }
      order := order + [name];
    }
  }

  /** The second half of a visit, once the imports are done. */
  method FinishModule(ms: Modules, ghost plan: Plan, ghost limit: nat, name: Name, c: Container,
      state: ModuleGraphState)
    returns (error: Option<InitError>)
    requires WellFormed(ms, plan, limit) && name in ms && state.Valid(ms) && state.stack != []
    requires c.Valid() && Acyclic(c.registry.Shared(), plan)
    modifies state, c, c.registry
    ensures c.Valid()
    ensures (error, AppOf(c)) == Finish(plan, limit, name, ms[name], old(AppOf(c)))
    ensures error.None? ==> state.Valid(ms) && state.Abs() == Leave(old(state.Abs()), name)
  {
    var registered := Register(plan, limit, ms[name].providers, c);
    if registered.Some? {
      return Some(RegisterFailed(name, registered.value));
    }
    state.Collect(ms, name);
    var missing := CheckExports(ms[name].exports, c);
    if missing.Some? {
      return Some(ExportMissing(name, missing.value));
    }
    state.stack := state.stack[..|state.stack| - 1];
    state.visiting := state.visiting - {name};
    state.visited := state.visited + {name};
    return None;
  }

  method VisitModule(ms: Modules, ghost plan: Plan, ghost limit: nat, name: Name, c: Container, state: ModuleGraphState)
    returns (error: Option<InitError>)
    requires WellFormed(ms, plan, limit) && name in ms && state.Valid(ms)
    requires c.Valid() && Acyclic(c.registry.Shared(), plan)
    modifies state, c, c.registry
    ensures c.Valid()
    ensures error.None? ==> state.Valid(ms)
    ensures VisitRuntime(ms, plan, limit, name, old(state.Abs()), old(AppOf(c)))
         == if error.None? then Ready(state.Abs(), AppOf(c)) else Failed(error.value, AppOf(c))
    decreases Unmet(Imports(ms), state.Abs()), 0
  {
    ghost var g := Imports(ms);
    if name in state.visited {
      return None;
    }
    if name in state.visiting {
      return Some(ImportCycle(state.stack + [name]));
    }
    state.visiting := state.visiting + {name};
    state.stack := state.stack + [name];
    assert name in Unmet(g, old(state.Abs())) && name !in Unmet(g, state.Abs());
    error := VisitImports(ms, plan, limit, ms[name].imports, c, state);
    if error.None? {
      error := FinishModule(ms, plan, limit, name, c, state);
    }
  }

  method VisitImports(ms: Modules, ghost plan: Plan, ghost limit: nat, imports: seq<Name>, c: Container,
      state: ModuleGraphState)
    returns (error: Option<InitError>)
    requires WellFormed(ms, plan, limit) && state.Valid(ms) && forall i | 0 <= i < |imports| :: imports[i] in ms
    requires c.Valid() && Acyclic(c.registry.Shared(), plan)
    modifies state, c, c.registry
    ensures c.Valid()
    ensures error.None? ==> state.Valid(ms)
    ensures VisitAllRuntime(ms, plan, limit, imports, old(state.Abs()), old(AppOf(c)))
         == if error.None? then Ready(state.Abs(), AppOf(c)) else Failed(error.value, AppOf(c))
    decreases Unmet(Imports(ms), state.Abs()), 1
  {
    ghost var g, entered, start := Imports(ms), state.Abs(), AppOf(c);
    for i := 0 to |imports|
      invariant c.Valid() && Acyclic(c.registry.Shared(), plan) && state.Valid(ms)
      invariant Grows(g, entered, state.Abs())
      invariant VisitAllRuntime(ms, plan, limit, imports, entered, start)
             == VisitAllRuntime(ms, plan, limit, imports[i..], state.Abs(), AppOf(c))
    {
      assert imports[i..][0] == imports[i] && imports[i..][1..] == imports[i + 1..];
      error := VisitModule(ms, plan, limit, imports[i], c, state);
      if error.Some? {
        return;
      }
    }
    return None;
  }

  datatype InitializedModule = InitializedModule(
    controllers: seq<string>, moduleInitHooks: seq<Hook>, moduleDestroyHooks: seq<Hook>,
    applicationBootstrapHooks: seq<Hook>, applicationShutdownHooks: seq<Hook>)

  /** What initialisation returns when the modules were completed in the given order. */
  ghost function Collected(ms: Modules, order: seq<Name>): InitializedModule
    requires forall n | n in order :: n in ms
  {
    var p := PartsOf(ms, order);
    InitializedModule(p.controllers, p.init, Reverse(p.destroy), p.bootstrap, Reverse(p.shutdown))
  }

  /**
   What the hooks and controllers of a successful initialisation are: those of the reachable modules, each module's as
   one block. What runs at the start runs for imported modules first, what runs at the end for importers first, with
   the hooks of each module backwards.
   */
  ghost predicate HooksAreArranged(ms: Modules, root: Name, r: InitializedModule) {
    var g := Imports(ms);
    && ImportedFirst(g, root, map n | n in ms :: ms[n].controllers, r.controllers)
    && ImportedFirst(g, root, map n | n in ms :: ms[n].initHooks, r.moduleInitHooks)
    && ImportedFirst(g, root, map n | n in ms :: ms[n].bootstrapHooks, r.applicationBootstrapHooks)
    && ImportersFirst(g, root, map n | n in ms :: ms[n].destroyHooks, r.moduleDestroyHooks)
    && ImportersFirst(g, root, map n | n in ms :: ms[n].shutdownHooks, r.applicationShutdownHooks)
  }

  lemma {:induction false} PartIsGathered<T>(ms: Modules, order: seq<Name>, part: ModuleDef -> seq<T>,
      blocks: Blocks<T>)
    requires (forall n | n in order :: n in ms) && blocks.Keys == ms.Keys && forall n | n in ms ::
      blocks[n] == part(ms[n])
    ensures GatherPart(ms, order, part) == Gather(blocks, order)
    decreases |order|
  {
    if order != [] {
      PartIsGathered(ms, order[..|order| - 1], part, blocks);
    }
  }

  lemma {:induction false} PartIsArranged<T>(ms: Modules, root: Name, part: ModuleDef -> seq<T>, blocks: Blocks<T>)
    requires Closed(Imports(ms)) && root in ms && WalkFrom(Imports(ms), root).Done?
    requires forall n | n in WalkFrom(Imports(ms), root).walk.order :: n in ms
    requires blocks.Keys == ms.Keys && forall n | n in ms :: blocks[n] == part(ms[n])
    ensures var list := GatherPart(ms, WalkFrom(Imports(ms), root).walk.order, part);
      && ImportedFirst(Imports(ms), root, blocks, list)
      && ImportersFirst(Imports(ms), root, blocks, Reverse(list))
  {
    PartIsGathered(ms, WalkFrom(Imports(ms), root).walk.order, part, blocks);
    GatheredIsArranged(Imports(ms), root, blocks);
  }

  lemma {:induction false} CollectedIsArranged(ms: Modules, root: Name)
    requires Closed(Imports(ms)) && root in ms && WalkFrom(Imports(ms), root).Done?
    requires forall n | n in WalkFrom(Imports(ms), root).walk.order :: n in ms
    ensures HooksAreArranged(ms, root, Collected(ms, WalkFrom(Imports(ms), root).walk.order))
  {
    PartIsArranged(ms, root, ControllersOf, map n | n in ms :: ms[n].controllers);
    PartIsArranged(ms, root, InitHooksOf, map n | n in ms :: ms[n].initHooks);
    PartIsArranged(ms, root, BootstrapHooksOf, map n | n in ms :: ms[n].bootstrapHooks);
    PartIsArranged(ms, root, DestroyHooksOf, map n | n in ms :: ms[n].destroyHooks);
    PartIsArranged(ms, root, ShutdownHooksOf, map n | n in ms :: ms[n].shutdownHooks);
  }

  /** Every provider of every module reachable from the root stands in the registry. */
  ghost predicate ProvidersStand(ms: Modules, plan: Plan, limit: nat, root: Name, env: Env)
    requires WellFormed(ms, plan, limit)
  {
    forall n | Reaches(Imports(ms), root, n) && n in ms :: AllRegistered(plan, limit, ms[n].providers, env)
  }

  lemma {:induction false} ReachableProvidersStand(ms: Modules, plan: Plan, limit: nat, root: Name, app: App)
    requires WellFormed(ms, plan, limit) && root in ms && Acyclic(app.env, plan)
    requires VisitRuntime(ms, plan, limit, root, EMPTY_WALK, app).Ready?
    ensures var app' := VisitRuntime(ms, plan, limit, root, EMPTY_WALK, app).app;
      EnvExtends(app.env, app'.env) && ProvidersStand(ms, plan, limit, root, app'.env)
  {
    var g, r := Imports(ms), VisitRuntime(ms, plan, limit, root, EMPTY_WALK, app);
    InitIsSequentialRegistration(ms, plan, limit, root, app);
    ProvidersStayRegistered(ms, plan, limit, r.walk.order, app);
    OrderIsTopological(g, root);
  }

  /**
   Initialisation succeeds exactly when there is no import cycle and every module can be finished in turn. It then has
   registered the modules in the post-order of the import tree, whatever ranks certify that it has one; every provider
   of every reachable module stands in the registry, every declared export is named, and the hooks are arranged by the
   imports. Otherwise its error is that of the first module that cannot be finished among those completed before the
   walk ends or meets a cycle; if there is none, it is a real cycle. A failure undoes nothing: the container keeps what
   the modules before it, and the failing one, have registered.
   */
  method InitializeModuleRuntime(ms: Modules, ghost plan: Plan, ghost limit: nat, root: Name, c: Container)
    returns (r: Result<InitializedModule, InitError>)
    requires WellFormed(ms, plan, limit) && root in ms && c.Valid() && Acyclic(c.registry.Shared(), plan)
    modifies c, c.registry
    ensures c.Valid()
    ensures var plain := WalkFrom(Imports(ms), root);
      var finished := FinishCompleted(ms, plan, limit, plain, old(AppOf(c)));
      && (r.Ok? <==> !HasCycleFrom(Imports(ms), root) && finished.0.None?)
      && (r.Err? ==> Failed(r.error, AppOf(c)) == Finished(plain, finished))
      && AppOf(c) == finished.1
    ensures r.Err? && r.error.ImportCycle? ==> IsCycleFrom(Imports(ms), root, r.error.path)
    ensures r.Ok? ==> HooksAreArranged(ms, root, r.value)
    ensures r.Ok? ==> ProvidersStand(ms, plan, limit, root, c.registry.Shared())
    ensures r.Ok? ==> EnvExtends(old(c.registry.Shared()), c.registry.Shared())
    ensures r.Ok? ==> forall rank | Ranked(Imports(ms), rank) && root in rank ::
      var order := PostOrder(Imports(ms), rank, root);
      && (forall n | n in order :: n in ms)
      && r.value == Collected(ms, order)
      && (None, AppOf(c)) == FinishAll(ms, plan, limit, order, old(AppOf(c)))
      && forall n, e | n in order && e in ms[n].exports :: e in c.registry.names
  {
    ghost var g, before := Imports(ms), AppOf(c);
    InitIsSequentialRegistration(ms, plan, limit, root, before);
    var state := new ModuleGraphState();
    var error := VisitModule(ms, plan, limit, root, c, state);
    if error.Some? {
      return Err(error.value);
    }
    forall rank | Ranked(g, rank) && root in rank
      ensures PostOrder(g, rank, root) == state.order
    {
      WalkIsPostOrder(g, rank, root);
    }
    ReachableProvidersStand(ms, plan, limit, root, before);
    CollectedIsArranged(ms, root);
    return Ok(InitializedModule(
      state.controllers, state.moduleInitHooks, Reverse(state.moduleDestroyHooks),
      state.applicationBootstrapHooks, Reverse(state.applicationShutdownHooks)));
  }

  /** Hooks run in list order up to and including the first that fails, whose error is returned. */
  method RunLifecycleHooks(hooks: seq<Hook>) returns (ran: seq<Hook>, error: Option<string>)
    ensures ran <= hooks
    ensures forall i | 0 <= i < |ran| - 1 :: ran[i].error.None?
    ensures error.None? ==> ran == hooks && forall h | h in hooks :: h.error.None?
    ensures error.Some? ==> ran != [] && ran[|ran| - 1].error == error
  {
    ran := [];
    for i := 0 to |hooks|
      invariant ran == hooks[..i]
      invariant forall h | h in ran :: h.error.None?
    {
      ran := ran + [hooks[i]];
      if hooks[i].error.Some? {
        return ran, hooks[i].error;
      }
    }
    error := None;
  }
}
