/** The runtime walk of module.rs: registration into the container, export checks and lifecycle hooks. */
module ModuleRuntime {
  import opened Prelude
  import opened ImportGraph
  import opened Resolution
  import opened DiContainer

  /** One step of a module's `register`; `Reject` is any other step that fails. */
  datatype Provider =
    | ValueProvider(t: TypeId, value: Value)
    | FactoryProvider(t: TypeId, factory: Factory)
    | RequestFactoryProvider(t: TypeId, factory: Factory)
    | TransientFactoryProvider(t: TypeId, factory: Factory)
    | Reject(message: string)

  datatype Hook = Hook(name: string, error: Option<string>)

  datatype ModuleDef = ModuleDef(
    imports: seq<Name>, providers: seq<Provider>, exports: seq<TypeId>, controllers: seq<string>,
    initHooks: seq<Hook>, destroyHooks: seq<Hook>, bootstrapHooks: seq<Hook>, shutdownHooks: seq<Hook>, isGlobal: bool)

  type Modules = map<Name, ModuleDef>

  datatype ProviderError = Conflict(error: Error) | BuildFailed(t: TypeId, message: string) | Rejected(message: string)

  datatype InitError =
    | ImportCycle(path: seq<Name>)
    | RegisterFailed(name: Name, error: ProviderError)
    | ExportMissing(name: Name, typeName: TypeId)

  function Imports(ms: Modules): Graph {
    map n | n in ms :: ms[n].imports
  }

  /** `limit` bounds the types asked for by factories that run during registration. */
  ghost predicate ProviderTerminates(p: Provider, plan: Plan, limit: nat) {
    match p
    case FactoryProvider(_, f) => AsksBelow(f, plan, limit)
    case RequestFactoryProvider(t, f) => AsksBelow(f, plan, plan.rank(t))
    case TransientFactoryProvider(t, f) => AsksBelow(f, plan, plan.rank(t))
    case _ => true
  }

  ghost predicate ProvidersTerminate(ps: seq<Provider>, plan: Plan, limit: nat) {
    forall p | p in ps :: ProviderTerminates(p, plan, limit)
  }

  ghost predicate WellFormed(ms: Modules, plan: Plan, limit: nat) {
    Closed(Imports(ms)) && forall n | n in ms :: ProvidersTerminate(ms[n].providers, plan, limit)
  }

  // ---------------------------------------------------------------- what registration does to the container

  /** A container as a value. */
  datatype App = App(env: Env, names: set<TypeId>, scope: Scope)

  ghost function AddSingleton(app: App, t: TypeId, value: Value): App {
    App(app.env.(inner := app.env.inner[t := Instance(app.scope.next, value)]), app.names + {t},
      app.scope.(next := app.scope.next + 1))
  }

  ghost function RegisterOne(plan: Plan, limit: nat, p: Provider, app: App): (Option<ProviderError>, App)
    requires Acyclic(app.env, plan) && ProviderTerminates(p, plan, limit)
  {
    match p
    case ValueProvider(t, value) =>
      if t in app.env.inner then (Some(Conflict(TypeAlreadyRegistered(t))), app)
        else (None, AddSingleton(app, t, value))
    case FactoryProvider(t, f) =>
      var (r, s) := RunFactory(app.env, plan, limit, f, [], app.scope);
      if r.Err? then (Some(BuildFailed(t, r.error)), app.(scope := s))
      else if t in app.env.inner then (Some(Conflict(TypeAlreadyRegistered(t))), app.(scope := s))
      else (None, AddSingleton(app.(scope := s), t, r.value))
    case RequestFactoryProvider(t, f) =>
      if t in app.env.request then (Some(Conflict(TypeAlreadyRegistered(t))), app)
      else (None, app.(env := app.env.(request := app.env.request[t := f]), names := app.names + {t}))
    case TransientFactoryProvider(t, f) =>
      if t in app.env.transient then (Some(Conflict(TypeAlreadyRegistered(t))), app)
      else (None, app.(env := app.env.(transient := app.env.transient[t := f]), names := app.names + {t}))
    case Reject(message) => (Some(Rejected(message)), app)
  }

  ghost function RegisterMany(plan: Plan, limit: nat, ps: seq<Provider>, app: App): (r: (Option<ProviderError>, App))
    requires Acyclic(app.env, plan) && ProvidersTerminate(ps, plan, limit)
    ensures Acyclic(r.1.env, plan) && app.names <= r.1.names
    decreases |ps|
  {
    if ps == [] then (None, app)
    else
      var (error, app') := RegisterOne(plan, limit, ps[0], app);
      if error.Some? then (error, app') else RegisterMany(plan, limit, ps[1..], app')
  }

  /** The first declared export that nobody registered. */
  function FirstMissing(exports: seq<TypeId>, names: set<TypeId>): (r: Option<TypeId>)
    ensures r.None? <==> forall e | e in exports :: e in names
    ensures r.Some? ==> r.value in exports && r.value !in names
  {
    if exports == [] then None
    else if exports[0] !in names then Some(exports[0])
    else FirstMissing(exports[1..], names)
  }

  /** Completing one module: register its providers, then check its exports. */
  ghost function Finish(plan: Plan, limit: nat, n: Name, m: ModuleDef, app: App): (r: (Option<InitError>, App))
    requires Acyclic(app.env, plan) && ProvidersTerminate(m.providers, plan, limit)
    ensures Acyclic(r.1.env, plan) && app.names <= r.1.names
    ensures r.0.None? ==> forall e | e in m.exports :: e in r.1.names
  {
    var (error, app') := RegisterMany(plan, limit, m.providers, app);
    if error.Some? then (Some(RegisterFailed(n, error.value)), app')
    else
      var missing := FirstMissing(m.exports, app'.names);
      (if missing.Some? then Some(ExportMissing(n, missing.value)) else None, app')
  }

  /** Completing modules one after another, stopping at the first error. */
  ghost function FinishAll(ms: Modules, plan: Plan, limit: nat, order: seq<Name>,
      app: App): (r: (Option<InitError>, App))
    requires WellFormed(ms, plan, limit) && Acyclic(app.env, plan) && forall n | n in order :: n in ms
    ensures Acyclic(r.1.env, plan) && app.names <= r.1.names
    decreases |order|
  {
    if order == [] then (None, app)
    else
      var (error, app') := Finish(plan, limit, order[0], ms[order[0]], app);
      if error.Some? then (error, app') else FinishAll(ms, plan, limit, order[1..], app')
  }

  // ---------------------------------------------------------------- the walk as a function

  /** A failed walk leaves the container with what was registered before the failure. */
  datatype Progressed = Ready(walk: Walk, app: App) | Failed(error: InitError, app: App)

  ghost function VisitRuntime(ms: Modules, plan: Plan, limit: nat, n: Name, w: Walk, app: App): (r: Progressed)
    requires WellFormed(ms, plan, limit) && n in ms && Acyclic(app.env, plan)
    ensures r.Ready? ==> Visit(Imports(ms), n, w) == Done(r.walk) && Acyclic(r.app.env, plan)
    decreases Unmet(Imports(ms), w), 0
  {
    if n in w.visited then
      Ready(w, app)
    else if n in w.visiting then
      Failed(ImportCycle(w.stack + [n]), app)
    else
      assert n in Unmet(Imports(ms), w) && n !in Unmet(Imports(ms), Enter(w, n));
      var r := VisitAllRuntime(ms, plan, limit, ms[n].imports, Enter(w, n), app);
      if r.Failed? then r else
        var (error, app') := Finish(plan, limit, n, ms[n], r.app);
        if error.Some? then Failed(error.value, app') else Ready(Leave(r.walk, n), app')
  }

  ghost function VisitAllRuntime(ms: Modules, plan: Plan, limit: nat, ns: seq<Name>, w: Walk, app: App): (r: Progressed)
    requires WellFormed(ms, plan, limit) && (forall i | 0 <= i < |ns| :: ns[i] in ms) && Acyclic(app.env, plan)
    ensures r.Ready? ==> VisitAll(Imports(ms), ns, w) == Done(r.walk) && Acyclic(r.app.env, plan)
    decreases Unmet(Imports(ms), w), 1 + |ns|
  {
    if ns == [] then
      Ready(w, app)
    else
      var r := VisitRuntime(ms, plan, limit, ns[0], w, app);
      if r.Failed? then r else VisitAllRuntime(ms, plan, limit, ns[1..], r.walk, r.app)
  }

  lemma {:induction false} FinishAllAppend(ms: Modules, plan: Plan, limit: nat, a: seq<Name>, b: seq<Name>, app: App)
    requires WellFormed(ms, plan, limit) && Acyclic(app.env, plan) && forall n | n in a + b :: n in ms
    ensures (forall n | n in a :: n in ms) && (forall n | n in b :: n in ms)
    ensures var (error, app') := FinishAll(ms, plan, limit, a, app);
      FinishAll(ms, plan, limit, a + b, app) == if error.Some? then (error, app')
        else FinishAll(ms, plan, limit, b, app')
    decreases |a|
  {
    assert forall n | n in a :: n in a + b;
    assert forall n | n in b :: n in a + b;
    if a == [] {
      assert a + b == b;
    } else {
      assert (a + b)[1..] == a[1..] + b;
      FinishAllAppend(ms, plan, limit, a[1..], b, Finish(plan, limit, a[0], ms[a[0]], app).1);
    }
  }

  /** The plain walk's outcome with each module it newly completes finished in turn: the first error stops it. */
  ghost function Finished(plain: Outcome, r: (Option<InitError>, App)): Progressed {
    if r.0.Some? then Failed(r.0.value, r.1)
    else
      match plain
      case Done(w) => Ready(w, r.1)
      case Cycle(path, _) => Failed(ImportCycle(path), r.1)
  }

  /** The runtime walk from `w` amounts to the plain one and finishing what that newly completes, one after another. */
  ghost predicate Sequential(ms: Modules, plan: Plan, limit: nat, w: Walk, app: App, plain: Outcome, r: Progressed)
    requires WellFormed(ms, plan, limit) && Acyclic(app.env, plan)
  {
    && w.order <= Completed(plain)
    && (forall n | n in Completed(plain)[|w.order|..] :: n in ms)
    && r == Finished(plain, FinishAll(ms, plan, limit, Completed(plain)[|w.order|..], app))
  }

  /** A stretch of the walk that went well, then a further one. */
  lemma {:induction false} ThenSequential(ms: Modules, plan: Plan, limit: nat, w: Walk, w1: Walk, app: App, app1: App,
      rest: Outcome, r: Progressed)
    requires WellFormed(ms, plan, limit) && Acyclic(app.env, plan) && Acyclic(app1.env, plan)
    requires Sequential(ms, plan, limit, w, app, Done(w1), Ready(w1, app1))
    requires Sequential(ms, plan, limit, w1, app1, rest, r)
    ensures Sequential(ms, plan, limit, w, app, rest, r)
  {
    NewlyCompletedAppend(w.order, w1.order, Completed(rest));
    FinishAllAppend(ms, plan, limit, w1.order[|w.order|..], Completed(rest)[|w1.order|..], app);
  }

  /** A stretch in which a module could not be finished, then whatever the plain walk does next. */
  lemma {:induction false} FailedSequential(ms: Modules, plan: Plan, limit: nat, w: Walk, w1: Walk, app: App,
      failed: Progressed, rest: Outcome)
    requires WellFormed(ms, plan, limit) && Acyclic(app.env, plan)
    requires Sequential(ms, plan, limit, w, app, Done(w1), failed) && failed.Failed?
    requires w1.order <= Completed(rest) && forall x | x in Completed(rest)[|w1.order|..] :: x in ms
    ensures Sequential(ms, plan, limit, w, app, rest, failed)
  {
    NewlyCompletedAppend(w.order, w1.order, Completed(rest));
    FinishAllAppend(ms, plan, limit, w1.order[|w.order|..], Completed(rest)[|w1.order|..], app);
  }

  /** Finishing the module whose imports have been completed. */
  lemma {:induction false} FinishSequential(ms: Modules, plan: Plan, limit: nat, n: Name, w: Walk, w1: Walk, app: App,
      app1: App)
    requires WellFormed(ms, plan, limit) && n in ms && Acyclic(app.env, plan) && Acyclic(app1.env, plan)
    requires Sequential(ms, plan, limit, w, app, Done(w1), Ready(w1, app1))
    ensures var (error, app2) := Finish(plan, limit, n, ms[n], app1);
      Sequential(ms, plan, limit, w, app, Done(Leave(w1, n)),
                 if error.Some? then Failed(error.value, app2) else Ready(Leave(w1, n), app2))
  {
    var done := w1.order[|w.order|..];
    FinishAllAppend(ms, plan, limit, done, [n], app);
    assert Leave(w1, n).order[|w.order|..] == done + [n];
    assert [n][1..] == [];
    assert FinishAll(ms, plan, limit, [n], app1) == Finish(plan, limit, n, ms[n], app1);
  }

  lemma {:induction false} VisitIsSequential(ms: Modules, plan: Plan, limit: nat, n: Name, w: Walk, app: App)
    requires WellFormed(ms, plan, limit) && n in ms && Acyclic(app.env, plan)
    ensures Sequential(ms, plan, limit, w, app, Visit(Imports(ms), n, w), VisitRuntime(ms, plan, limit, n, w, app))
    decreases Unmet(Imports(ms), w), 0
  {
    var g := Imports(ms);
    if n in w.visited || n in w.visiting {
      assert w.order[|w.order|..] == [];
    } else {
      var entered := Enter(w, n);
      assert n in Unmet(g, w) && n !in Unmet(g, entered);
      VisitAllIsSequential(ms, plan, limit, ms[n].imports, entered, app);
      var plain, r := VisitAll(g, g[n], entered), VisitAllRuntime(ms, plan, limit, ms[n].imports, entered, app);
      if r.Ready? {
        FinishSequential(ms, plan, limit, n, entered, r.walk, app, r.app);
      } else if plain.Done? {
        assert Leave(plain.walk, n).order[|plain.walk.order|..] == [n];
        FailedSequential(ms, plan, limit, entered, plain.walk, app, r, Done(Leave(plain.walk, n)));
      }
    }
  }

  lemma {:induction false} VisitAllIsSequential(ms: Modules, plan: Plan, limit: nat, ns: seq<Name>, w: Walk, app: App)
    requires WellFormed(ms, plan, limit) && (forall i | 0 <= i < |ns| :: ns[i] in ms) && Acyclic(app.env, plan)
    ensures Sequential(ms, plan, limit, w, app, VisitAll(Imports(ms), ns, w),
      VisitAllRuntime(ms, plan, limit, ns, w, app))
    decreases Unmet(Imports(ms), w), 1 + |ns|
  {
    var g := Imports(ms);
    if ns == [] {
      assert w.order[|w.order|..] == [];
    } else {
      VisitIsSequential(ms, plan, limit, ns[0], w, app);
      var plain, r := Visit(g, ns[0], w), VisitRuntime(ms, plan, limit, ns[0], w, app);
      if r.Ready? {
        VisitAllIsSequential(ms, plan, limit, ns[1..], r.walk, r.app);
        ThenSequential(ms, plan, limit, w, r.walk, app, r.app, VisitAll(g, ns[1..], r.walk),
                       VisitAllRuntime(ms, plan, limit, ns[1..], r.walk, r.app));
      } else if plain.Done? {
        AllNewlyCompletedInGraph(g, ns[1..], plain.walk);
        FailedSequential(ms, plan, limit, w, plain.walk, app, r, VisitAll(g, ns[1..], plain.walk));
      }
    }
  }

  lemma {:induction false} ExportsStayNamed(ms: Modules, plan: Plan, limit: nat, order: seq<Name>, app: App)
    requires WellFormed(ms, plan, limit) && Acyclic(app.env, plan) && forall n | n in order :: n in ms
    requires FinishAll(ms, plan, limit, order, app).0.None?
    ensures forall n, e | n in order && e in ms[n].exports :: e in FinishAll(ms, plan, limit, order, app).1.names
    decreases |order|
  {
    if order != [] {
      ExportsStayNamed(ms, plan, limit, order[1..], Finish(plan, limit, order[0], ms[order[0]], app).1);
    }
  }

  /** The modules that the plain walk completes, finished in turn, before it ends or meets a cycle. */
  ghost function FinishCompleted(ms: Modules, plan: Plan, limit: nat, plain: Outcome, app: App)
    : (Option<InitError>, App)
    requires WellFormed(ms, plan, limit) && Acyclic(app.env, plan)
  {
    if forall n | n in Completed(plain) :: n in ms then
      FinishAll(ms, plan, limit, Completed(plain), app)
    else
      (None, app)
  }

  /**
   Initialisation is the plain walk and finishing the modules it completes, once each and in that order. It succeeds
   exactly when no import cycle is reachable and every module can be finished; every export is then named. Otherwise
   its error is that of the first module that cannot be finished among those completed before the walk ends or meets
   a cycle; if there is none, it is the cycle. Either way the container is left as finishing these modules leaves it.
   */
  lemma {:induction false} InitIsSequentialRegistration(ms: Modules, plan: Plan, limit: nat, root: Name, app: App)
    requires WellFormed(ms, plan, limit) && root in ms && Acyclic(app.env, plan)
    ensures var g, r := Imports(ms), VisitRuntime(ms, plan, limit, root, EMPTY_WALK, app);
      var plain := WalkFrom(g, root);
      && (forall n | n in Completed(plain) :: n in ms)
      && r == Finished(plain, FinishCompleted(ms, plan, limit, plain, app))
      && (r.Ready? <==> !HasCycleFrom(g, root) && FinishCompleted(ms, plan, limit, plain, app).0.None?)
      && (r.Ready? ==> forall n, e | n in r.walk.order && e in ms[n].exports :: e in r.app.names)
      && (r.Failed? && r.error.ImportCycle? ==> IsCycleFrom(g, root, r.error.path))
  {
    var g, r := Imports(ms), VisitRuntime(ms, plan, limit, root, EMPTY_WALK, app);
    var plain := WalkFrom(g, root);
    WalkSucceedsIffNoCycle(g, root);
    VisitIsSequential(ms, plan, limit, root, EMPTY_WALK, app);
    assert Completed(plain)[0..] == Completed(plain);
    FinishFailsOtherwise(ms, plan, limit, Completed(plain), app);
    if plain.Cycle? {
      CycleStartsAtRoot(g, root);
    }
    if r.Ready? {
      ExportsStayNamed(ms, plan, limit, r.walk.order, app);
    }
  }

  /** Finishing modules never fails with a cycle. */
  lemma {:induction false} FinishFailsOtherwise(ms: Modules, plan: Plan, limit: nat, order: seq<Name>, app: App)
    requires WellFormed(ms, plan, limit) && Acyclic(app.env, plan) && forall n | n in order :: n in ms
    ensures var error := FinishAll(ms, plan, limit, order, app).0; error.Some? ==> !error.value.ImportCycle?
    decreases |order|
  {
    if order != [] {
      FinishFailsOtherwise(ms, plan, limit, order[1..], Finish(plan, limit, order[0], ms[order[0]], app).1);
    }
  }

  // ---------------------------------------------------------------- what initialisation leaves to be resolved

  /** Nothing registered is lost or replaced. */
  ghost predicate EnvExtends(env: Env, env': Env) {
    && (forall t | t in env.inner :: t in env'.inner && env'.inner[t] == env.inner[t])
    && (forall t | t in env.request :: t in env'.request && env'.request[t] == env.request[t])
    && (forall t | t in env.transient :: t in env'.transient && env'.transient[t] == env.transient[t])
  }

  /** The value is what the factory returned when it ran on part of what is registered now. */
  ghost predicate BuiltBy(plan: Plan, limit: nat, f: Factory, value: Value, env: Env)
    requires AsksBelow(f, plan, limit)
  {
    exists at: Env, s: Scope {:trigger RunFactory(at, plan, limit, f, [], s)} ::
      Acyclic(at, plan) && EnvExtends(at, env) && RunFactory(at, plan, limit, f, [], s).0 == Ok(value)
  }

  /** The provider stands in the registry. */
  ghost predicate Registered(plan: Plan, limit: nat, p: Provider, env: Env)
    requires ProviderTerminates(p, plan, limit)
  {
    match p
    case ValueProvider(t, value) => t in env.inner && env.inner[t].value == value
    case FactoryProvider(t, f) => t in env.inner && BuiltBy(plan, limit, f, env.inner[t].value, env)
    case RequestFactoryProvider(t, f) => t in env.request && env.request[t] == f
    case TransientFactoryProvider(t, f) => t in env.transient && env.transient[t] == f
    case Reject(_) => false
  }

  /** The provider's type has no other provider of its kind, and its factory, if it has to run at once, succeeds. */
  ghost predicate CanRegister(plan: Plan, limit: nat, p: Provider, app: App)
    requires Acyclic(app.env, plan) && ProviderTerminates(p, plan, limit)
  {
    match p
    case ValueProvider(t, _) => t !in app.env.inner
    case FactoryProvider(t, f) => t !in app.env.inner && RunFactory(app.env, plan, limit, f, [], app.scope).0.Ok?
    case RequestFactoryProvider(t, _) => t !in app.env.request
    case TransientFactoryProvider(t, _) => t !in app.env.transient
    case Reject(_) => false
  }

  lemma {:induction false} RegistersIff(plan: Plan, limit: nat, p: Provider, app: App)
    requires Acyclic(app.env, plan) && ProviderTerminates(p, plan, limit)
    ensures var (error, app') := RegisterOne(plan, limit, p, app);
      && EnvExtends(app.env, app'.env)
      && (error.None? <==> CanRegister(plan, limit, p, app))
      && (error.None? ==> Registered(plan, limit, p, app'.env) && app'.names == app.names + {p.t})
      && (error.Some? ==> app'.env == app.env && app'.names == app.names)
  {
    if p.FactoryProvider? && CanRegister(plan, limit, p, app) {
      var app' := RegisterOne(plan, limit, p, app).1;
      assert EnvExtends(app.env, app'.env);
      assert BuiltBy(plan, limit, p.factory, app'.env.inner[p.t].value, app'.env);
    }
  }

  lemma {:induction false} StaysRegistered(plan: Plan, limit: nat, p: Provider, env: Env, env': Env)
    requires ProviderTerminates(p, plan, limit) && Registered(plan, limit, p, env) && EnvExtends(env, env')
    ensures Registered(plan, limit, p, env')
  {
    if p.FactoryProvider? {
      var value := env.inner[p.t].value;
      var at: Env, s: Scope :| Acyclic(at, plan) && EnvExtends(at, env)
        && RunFactory(at, plan, limit, p.factory, [], s).0 == Ok(value);
      assert EnvExtends(at, env');
    }
  }

  ghost predicate AllRegistered(plan: Plan, limit: nat, ps: seq<Provider>, env: Env)
    requires ProvidersTerminate(ps, plan, limit)
  {
    forall p | p in ps :: Registered(plan, limit, p, env)
  }

  ghost function TypesOf(ps: seq<Provider>): set<TypeId> {
    set p | p in ps && !p.Reject? :: p.t
  }

  lemma {:induction false} RegisteredCons(plan: Plan, limit: nat, ps: seq<Provider>, env: Env)
    requires ProvidersTerminate(ps, plan, limit) && ps != [] && Registered(plan, limit, ps[0], env)
    requires AllRegistered(plan, limit, ps[1..], env)
    ensures AllRegistered(plan, limit, ps, env) && TypesOf(ps) == {ps[0].t} + TypesOf(ps[1..])
  {
    assert ps == [ps[0]] + ps[1..];
  }

  lemma {:induction false} ManyRegistered(plan: Plan, limit: nat, ps: seq<Provider>, app: App)
    requires Acyclic(app.env, plan) && ProvidersTerminate(ps, plan, limit)
    ensures var (error, app') := RegisterMany(plan, limit, ps, app);
      && EnvExtends(app.env, app'.env)
      && (error.None? ==> AllRegistered(plan, limit, ps, app'.env) && app'.names == app.names + TypesOf(ps))
    decreases |ps|
  {
    if ps != [] {
      RegistersIff(plan, limit, ps[0], app);
      var app1 := RegisterOne(plan, limit, ps[0], app).1;
      if RegisterOne(plan, limit, ps[0], app).0.None? {
        ManyRegistered(plan, limit, ps[1..], app1);
        var (error, app') := RegisterMany(plan, limit, ps[1..], app1);
        if error.None? {
          StaysRegistered(plan, limit, ps[0], app1.env, app'.env);
          RegisteredCons(plan, limit, ps, app'.env);
        }
      }
    }
  }

  /**
   A module can be finished exactly when its providers can be registered in turn and every type it exports is named
   already or provided by itself.
   */
  lemma {:induction false} FinishesIff(plan: Plan, limit: nat, n: Name, m: ModuleDef, app: App)
    requires Acyclic(app.env, plan) && ProvidersTerminate(m.providers, plan, limit)
    ensures var (error, app') := Finish(plan, limit, n, m, app);
      var (failed, registered) := RegisterMany(plan, limit, m.providers, app);
      && app' == registered
      && (failed.Some? ==> error == Some(RegisterFailed(n, failed.value)))
      && (failed.None? ==> (error.None? <==> forall e | e in m.exports :: e in app.names || e in TypesOf(m.providers)))
      && (failed.None? && error.Some? ==> error.value.ExportMissing? && error.value.name == n)
  {
    ManyRegistered(plan, limit, m.providers, app);
  }

  /** When all modules of an order finish, every provider of every one of them stands in the registry. */
  lemma {:induction false} ProvidersStayRegistered(ms: Modules, plan: Plan, limit: nat, order: seq<Name>, app: App)
    requires WellFormed(ms, plan, limit) && Acyclic(app.env, plan) && forall n | n in order :: n in ms
    ensures var (error, app') := FinishAll(ms, plan, limit, order, app);
      && EnvExtends(app.env, app'.env)
      && (error.None? ==> forall n | n in order :: AllRegistered(plan, limit, ms[n].providers, app'.env))
    decreases |order|
  {
    if order != [] {
      var n := order[0];
      var (error, app1) := Finish(plan, limit, n, ms[n], app);
      ManyRegistered(plan, limit, ms[n].providers, app);
      if error.None? {
        ProvidersStayRegistered(ms, plan, limit, order[1..], app1);
        var (later, app') := FinishAll(ms, plan, limit, order[1..], app1);
        if later.None? {
          forall p | p in ms[n].providers
            ensures Registered(plan, limit, p, app'.env)
          {
            StaysRegistered(plan, limit, p, app1.env, app'.env);
          }
          assert forall x | x in order :: x == n || x in order[1..];
        }
      }
    }
  }

  /**
   What stands in the registry is what a scope resolves, as long as it does not override the type: a singleton is
   answered as it is, before any factory; a request factory runs and its value is kept; a transient factory runs and
   nothing of its own is kept.
   */
  lemma {:induction false} RegisteredIsFound(plan: Plan, limit: nat, p: Provider, env: Env, s: Scope)
    requires Acyclic(env, plan) && ProviderTerminates(p, plan, limit) && Registered(plan, limit, p, env)
    requires p.t !in s.overrides
    ensures var (r, s') := Resolve(env, plan, p.t, s);
      match p
      case ValueProvider(_, value) => r.Ok? && r.value == env.inner[p.t] && r.value.value == value && s' == s
      case FactoryProvider(_, _) => r == Ok(env.inner[p.t]) && s' == s
      case RequestFactoryProvider(t, f) =>
        p.t !in env.inner ==>
          var (made, s1) := RunFactory(env, plan, plan.rank(t), f, [], s);
          && (made.Err? ==> r == Err(FactoryFailed(t, made.error)) && s' == s1)
          && (made.Ok? ==> r.Ok? && r.value.value == made.value && s'.overrides == s1.overrides[t := r.value])
      case TransientFactoryProvider(t, f) =>
        p.t !in env.inner && p.t !in env.request ==>
          var (made, s1) := RunFactory(env, plan, plan.rank(t), f, [], s);
          && (made.Err? ==> r == Err(FactoryFailed(t, made.error)) && s' == s1)
          && (made.Ok? ==> r.Ok? && r.value.value == made.value && s'.overrides == s1.overrides)
  {
  }
}
