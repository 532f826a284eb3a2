/** The dependency-injection container of container.rs, as objects updated in place. */
module DiContainer {
  import opened Prelude
  import opened Resolution

  /** What all scopes of an application share; `nextInstance` stands for the allocator of shared instances. */
  class Registry {
    var inner: map<TypeId, Instance>
    var requestFactories: map<TypeId, Factory>
    var transientFactories: map<TypeId, Factory>
    var names: set<TypeId>
    var nextInstance: nat

    constructor ()
      ensures Valid() && Shared() == Env(map[], map[], map[]) && names == {}
    {
      inner, requestFactories, transientFactories, names, nextInstance := map[], map[], map[], {}, 0;
    }

    ghost function Shared(): Env
      reads this`inner, this`requestFactories, this`transientFactories
    {
      Env(inner, requestFactories, transientFactories)
    }

    /** Everything registered is named. */
    ghost predicate Valid()
      reads this
    {
      && inner.Keys <= names && requestFactories.Keys <= names && transientFactories.Keys <= names
      && forall t | t in inner :: inner[t].id < nextInstance
    }
  }

  class Container {
    const registry: Registry
    var overrides: map<TypeId, Instance>
    ghost var built: seq<TypeId>

    constructor (registry: Registry)
      ensures this.registry == registry && State() == Scope(map[], registry.nextInstance, [])
    {
      this.registry, overrides, built := registry, map[], [];
    }

    ghost function State(): Scope
      reads this, registry`nextInstance
    {
      Scope(overrides, registry.nextInstance, built)
    }

    ghost predicate Valid()
      reads this, registry
    {
      registry.Valid() && InOrder(State(), registry.names)
    }

    /** A child scope shares the registry and starts with no overrides, whatever this scope has overridden. */
    method Scoped() returns (child: Container)
      requires Valid()
      ensures fresh(child) && child.Valid() && child.registry == registry && child.overrides == map[]
    {
      child := new Container(registry);
    }

    method Register(t: TypeId, value: Value) returns (error: Option<Error>)
      requires Valid()
      modifies registry`inner, registry`names, registry`nextInstance
      ensures Valid()
      ensures error == if t in old(registry.inner) then Some(TypeAlreadyRegistered(t)) else None
      ensures error.Some? ==> unchanged(registry)
      ensures error.None? ==>
        && registry.names == old(registry.names) + {t} && registry.nextInstance == old(registry.nextInstance) + 1
        && registry.inner == old(registry.inner)[t := Instance(old(registry.nextInstance), value)]
    {
      if t in registry.inner {
        return Some(TypeAlreadyRegistered(t));
      }
      registry.inner := registry.inner[t := Instance(registry.nextInstance, value)];
      registry.nextInstance := registry.nextInstance + 1;
      registry.names := registry.names + {t};
      return None;
    }

    method Replace(t: TypeId, value: Value)
      requires Valid()
      modifies registry`inner, registry`names, registry`nextInstance
      ensures Valid() && registry.names == old(registry.names) + {t}
        && registry.nextInstance == old(registry.nextInstance) + 1
      ensures registry.inner == old(registry.inner)[t := Instance(old(registry.nextInstance), value)]
    {
      registry.inner := registry.inner[t := Instance(registry.nextInstance, value)];
      registry.nextInstance := registry.nextInstance + 1;
      registry.names := registry.names + {t};
    }

    /** The value goes to this scope only; its name goes to the names shared by all scopes. */
    method OverrideValue(t: TypeId, value: Value)
      requires Valid()
      modifies this`overrides, registry`names, registry`nextInstance
      ensures Valid() && State() == Override(t, value, old(State()))
      ensures registry.names == old(registry.names) + {t}
    {
      overrides := overrides[t := Instance(registry.nextInstance, value)];
      registry.nextInstance := registry.nextInstance + 1;
      registry.names := registry.names + {t};
    }

    /**
     A name that is not registered cannot be resolved in any scope; the converse fails for names overridden elsewhere.
     */
    method IsTypeRegisteredName(t: TypeId) returns (r: bool)
      ensures r <==> t in registry.names
      ensures Valid() && !r ==> forall plan | Acyclic(registry.Shared(), plan) ::
        Resolution.Resolve(registry.Shared(), plan, t, State()) == (Err(TypeNotRegistered(t)), State())
    {
      r := t in registry.names;
    }

    method RegisterRequestFactory(t: TypeId, factory: Factory) returns (error: Option<Error>)
      requires Valid()
      modifies registry`requestFactories, registry`names
      ensures Valid()
      ensures error == if t in old(registry.requestFactories) then Some(TypeAlreadyRegistered(t)) else None
      ensures registry.requestFactories == if error.None? then old(registry.requestFactories)[t := factory]
        else old(registry.requestFactories)
      ensures registry.names == if error.None? then old(registry.names) + {t} else old(registry.names)
    {
      if t in registry.requestFactories {
        return Some(TypeAlreadyRegistered(t));
      }
      registry.requestFactories := registry.requestFactories[t := factory];
      registry.names := registry.names + {t};
      return None;
    }

    method RegisterTransientFactory(t: TypeId, factory: Factory) returns (error: Option<Error>)
      requires Valid()
      modifies registry`transientFactories, registry`names
      ensures Valid()
      ensures error == if t in old(registry.transientFactories) then Some(TypeAlreadyRegistered(t)) else None
      ensures registry.transientFactories == if error.None? then old(registry.transientFactories)[t := factory]
        else old(registry.transientFactories)
      ensures registry.names == if error.None? then old(registry.names) + {t} else old(registry.names)
    {
      if t in registry.transientFactories {
        return Some(TypeAlreadyRegistered(t));
      }
      registry.transientFactories := registry.transientFactories[t := factory];
      registry.names := registry.names + {t};
      return None;
    }

    /**
     Resolves a type in this scope. Only this scope's cache and the allocator change, so every other scope, the
     parent included, keeps its overrides and everything it resolves.
     */
    method Resolve(ghost plan: Plan, t: TypeId) returns (r: Result<Instance, Error>)
      requires Valid() && Acyclic(registry.Shared(), plan)
      modifies this`overrides, this`built, registry`nextInstance
      ensures (r, State()) == Resolution.Resolve(registry.Shared(), plan, t, old(State()))
      ensures t in old(overrides) ==> r == Ok(old(overrides[t])) && State() == old(State())
      ensures t !in old(overrides) && t in registry.inner ==> r == Ok(registry.inner[t]) && State() == old(State())
      ensures Valid()
      decreases plan.rank(t), 1
    {
      if t in overrides {
        return Ok(overrides[t]);
      }
      if t in registry.inner {
        return Ok(registry.inner[t]);
      }
      var made := ResolveFromRequestFactory(plan, t);
      if made.Some? {
        return made.value;
      }
      made := ResolveFromTransientFactory(plan, t);
      if made.Some? {
        return made.value;
      }
      return Err(TypeNotRegistered(t));
    }

    /** Called when the type is neither overridden nor a singleton; that keeps the scope in order. */
    method ResolveFromRequestFactory(ghost plan: Plan, t: TypeId) returns (r: Option<Result<Instance, Error>>)
      requires Valid() && Acyclic(registry.Shared(), plan)
      modifies this`overrides, this`built, registry`nextInstance
      ensures (r, State()) == FromRequestFactory(registry.Shared(), plan, t, old(State()))
      ensures t !in old(overrides) && t !in registry.inner ==> Valid()
      decreases plan.rank(t), 0, 1
    {
      if t !in registry.requestFactories {
        return None;
      }
      if t !in overrides && t !in registry.inner {
        ResolveKeepsInOrder(registry.Shared(), plan, t, State(), registry.names);
      }
      RunFactoryProgresses(registry.Shared(), plan, plan.rank(t), registry.requestFactories[t], [], State());
      var made := RunFactory(plan, plan.rank(t), registry.requestFactories[t], []);
      if made.Err? {
        return Some(Err(FactoryFailed(t, made.error)));
      }
      var instance := Instance(registry.nextInstance, made.value);
      registry.nextInstance := registry.nextInstance + 1;
      overrides := overrides[t := instance];
      built := built + [t];
      return Some(Ok(instance));
    }

    method ResolveFromTransientFactory(ghost plan: Plan, t: TypeId) returns (r: Option<Result<Instance, Error>>)
      requires Valid() && Acyclic(registry.Shared(), plan)
      modifies this`overrides, this`built, registry`nextInstance
      ensures (r, State()) == FromTransientFactory(registry.Shared(), plan, t, old(State()))
      ensures Valid()
      decreases plan.rank(t), 0, 1
    {
      if t !in registry.transientFactories {
        return None;
      }
      RunFactoryProgresses(registry.Shared(), plan, plan.rank(t), registry.transientFactories[t], [], State());
      var made := RunFactory(plan, plan.rank(t), registry.transientFactories[t], []);
      if made.Err? {
        return Some(Err(FactoryFailed(t, made.error)));
      }
      var instance := Instance(registry.nextInstance, made.value);
      registry.nextInstance := registry.nextInstance + 1;
      return Some(Ok(instance));
    }

    method RunFactory(ghost plan: Plan, ghost bound: nat, f: Factory, h: seq<Reply>) returns (r: Result<Value, string>)
      requires Valid() && Acyclic(registry.Shared(), plan) && AsksBelow(f, plan, bound)
      modifies this`overrides, this`built, registry`nextInstance
      ensures (r, State()) == Resolution.RunFactory(registry.Shared(), plan, bound, f, h, old(State()))
      ensures Valid()
      decreases bound, 0, 0, plan.left(f, h)
    {
      match f(h)
      case Return(value) =>
        return Ok(value);
      case Fail(message) =>
        return Err(message);
      case Ask(t) =>
        var answer := Resolve(plan, t);
        r := RunFactory(plan, bound, f, h + [Plain(answer)]);
    }
  }
}
