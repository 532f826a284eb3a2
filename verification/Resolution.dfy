/**
 What resolving a type means, as pure functions of a registry and of one scope.

 Types are identified by their type name. An `Instance` is one shared allocation: two results are the same
 allocation exactly when their ids agree. A factory is interactive: given the answers so far (values or errors)
 it asks the container for one more type, returns a value or fails, as it likes.
 */
module Resolution {
  import opened Prelude

  type TypeId = string
  type Value = string

  datatype Instance = Instance(id: nat, value: Value)

  datatype Error =
    | TypeAlreadyRegistered(typeName: TypeId)
    | TypeNotRegistered(typeName: TypeId)
    | FactoryFailed(typeName: TypeId, message: string)

  type Reply = Result<Value, Error>

  datatype Step = Return(value: Value) | Fail(message: string) | Ask(typeName: TypeId)

  type Factory = seq<Reply> -> Step

  /** The part of a container shared by all scopes: singletons and factories. */
  datatype Env = Env(inner: map<TypeId, Instance>, request: map<TypeId, Factory>, transient: map<TypeId, Factory>)

  /** One scope: its overrides, the next unused instance id, and the request-scoped types built so far, in order. */
  datatype Scope = Scope(overrides: map<TypeId, Instance>, next: nat, built: seq<TypeId>)

  /** A certificate that resolution terminates: a rank for every type, and how many questions a factory has left. */
  datatype Plan = Plan(rank: TypeId -> nat, left: (Factory, seq<Reply>) -> nat)

  /**
   Whatever it has been told so far, the factory asks only for types ranked below `bound`, and stops asking
   eventually.
   */
  ghost predicate AsksBelow(f: Factory, plan: Plan, bound: nat) {
    forall h | f(h).Ask? ::
      plan.rank(f(h).typeName) < bound && forall reply :: plan.left(f, h + [reply]) < plan.left(f, h)
  }

  /** Factory dependencies are acyclic, as certified by `plan`. */
  ghost predicate Acyclic(env: Env, plan: Plan) {
    && (forall t | t in env.request :: AsksBelow(env.request[t], plan, plan.rank(t)))
    && (forall t | t in env.transient :: AsksBelow(env.transient[t], plan, plan.rank(t)))
  }

  function Plain(r: Result<Instance, Error>): Reply {
    match r
    case Ok(instance) => Ok(instance.value)
    case Err(error) => Err(error)
  }

  /** `Container::resolve`: overrides, singletons, request factories (cached in the overrides), transient factories. */
  ghost function Resolve(env: Env, plan: Plan, t: TypeId, s: Scope): (Result<Instance, Error>, Scope)
    requires Acyclic(env, plan)
    decreases plan.rank(t), 1
  {
    if t in s.overrides then (Ok(s.overrides[t]), s)
    else if t in env.inner then (Ok(env.inner[t]), s)
    else
      var (r, s1) := FromRequestFactory(env, plan, t, s);
      if r.Some? then (r.value, s1)
      else
        var (r', s2) := FromTransientFactory(env, plan, t, s);
        if r'.Some? then (r'.value, s2) else (Err(TypeNotRegistered(t)), s)
  }

  /** Runs the request factory, if there is one, and caches what it makes. */
  ghost function FromRequestFactory(env: Env, plan: Plan, t: TypeId, s: Scope): (Option<Result<Instance, Error>>, Scope)
    requires Acyclic(env, plan)
    decreases plan.rank(t), 0
  {
    if t !in env.request then (None, s)
    else
      var (r, s') := RunFactory(env, plan, plan.rank(t), env.request[t], [], s);
      match r
      case Err(message) => (Some(Err(FactoryFailed(t, message))), s')
      case Ok(value) =>
        var instance := Instance(s'.next, value);
        (Some(Ok(instance)), Scope(s'.overrides[t := instance], s'.next + 1, s'.built + [t]))
  }

  /** Runs the transient factory, if there is one, and keeps nothing. */
  ghost function FromTransientFactory(env: Env, plan: Plan, t: TypeId, s: Scope)
    : (Option<Result<Instance, Error>>, Scope)
    requires Acyclic(env, plan)
    decreases plan.rank(t), 0
  {
    if t !in env.transient then (None, s)
    else
      var (r, s') := RunFactory(env, plan, plan.rank(t), env.transient[t], [], s);
      match r
      case Err(message) => (Some(Err(FactoryFailed(t, message))), s')
      case Ok(value) => (Some(Ok(Instance(s'.next, value))), s'.(next := s'.next + 1))
  }

  ghost function RunFactory(env: Env, plan: Plan, bound: nat, f: Factory, h: seq<Reply>,
      s: Scope): (Result<Value, string>, Scope)
    requires Acyclic(env, plan) && AsksBelow(f, plan, bound)
    decreases bound, 0, plan.left(f, h)
  {
    match f(h)
    case Return(value) => (Ok(value), s)
    case Fail(message) => (Err(message), s)
    case Ask(t) =>
      var (r, s') := Resolve(env, plan, t, s);
      RunFactory(env, plan, bound, f, h + [Plain(r)], s')
  }

  // ---------------------------------------------------------------- the pure lookup

  function Values(overrides: map<TypeId, Instance>): map<TypeId, Value> {
    map t | t in overrides :: overrides[t].value
  }

  /**
   The value a type stands for, with no cache and no identities: the same search order, factories re-run every time.
   */
  ghost function Lookup(env: Env, plan: Plan, overrides: map<TypeId, Value>, t: TypeId): Reply
    requires Acyclic(env, plan)
    decreases plan.rank(t), 1
  {
    if t in overrides then Ok(overrides[t])
    else if t in env.inner then Ok(env.inner[t].value)
    else if t in env.request then Wrap(t, LookupFactory(env, plan, overrides, plan.rank(t), env.request[t], []))
    else if t in env.transient then Wrap(t, LookupFactory(env, plan, overrides, plan.rank(t), env.transient[t], []))
    else Err(TypeNotRegistered(t))
  }

  ghost function LookupFactory(env: Env, plan: Plan, overrides: map<TypeId, Value>, bound: nat, f: Factory,
      h: seq<Reply>): Result<Value, string>
    requires Acyclic(env, plan) && AsksBelow(f, plan, bound)
    decreases bound, 0, plan.left(f, h)
  {
    match f(h)
    case Return(value) => Ok(value)
    case Fail(message) => Err(message)
    case Ask(t) => LookupFactory(env, plan, overrides, bound, f, h + [Lookup(env, plan, overrides, t)])
  }

  function Wrap(t: TypeId, r: Result<Value, string>): Reply {
    match r
    case Ok(value) => Ok(value)
    case Err(message) => Err(FactoryFailed(t, message))
  }

  // ---------------------------------------------------------------- what one resolution may change

  /** From `s` to `s'`: nothing cached is lost or replaced, each new entry is one request-scoped type built once. */
  ghost predicate Progress(env: Env, plan: Plan, bound: nat, s: Scope, s': Scope) {
    && s.next <= s'.next
    && (forall t | t in s.overrides :: t in s'.overrides && s'.overrides[t] == s.overrides[t])
    && (forall t | t in s'.overrides && t !in s.overrides ::
          t in env.request && t !in env.inner && plan.rank(t) < bound && s.next <= s'.overrides[t].id < s'.next)
    && s.built <= s'.built
    && Distinct(s'.built[|s.built|..])
    && (forall t :: t in s'.built[|s.built|..] <==> t in s'.overrides && t !in s.overrides)
  }

  lemma {:induction false} ProgressTransitive(env: Env, plan: Plan, bound: nat, s0: Scope, s1: Scope, s2: Scope)
    requires Progress(env, plan, bound, s0, s1) && Progress(env, plan, bound, s1, s2)
    ensures Progress(env, plan, bound, s0, s2)
  {
    assert s2.built[|s0.built|..] == s1.built[|s0.built|..] + s2.built[|s1.built|..];
    DistinctAppend(s1.built[|s0.built|..], s2.built[|s1.built|..]);
  }

  lemma {:induction false} ResolveProgresses(env: Env, plan: Plan, t: TypeId, s: Scope)
    requires Acyclic(env, plan)
    ensures var (r, s') := Resolve(env, plan, t, s);
      && Progress(env, plan, plan.rank(t) + 1, s, s')
      && (t in s'.overrides && t !in s.overrides <==> r.Ok? && t !in s.overrides && t !in env.inner && t in env.request)
      && (r.Ok? && t in s'.overrides ==> r.value == s'.overrides[t])
    decreases plan.rank(t), 1
  {
    if t !in s.overrides && t !in env.inner {
      if t in env.request {
        RunFactoryProgresses(env, plan, plan.rank(t), env.request[t], [], s);
        var (r, s1) := RunFactory(env, plan, plan.rank(t), env.request[t], [], s);
        if r.Ok? {
          var s2 := Resolve(env, plan, t, s).1;
          assert s2.built == s1.built + [t] && s.built <= s1.built;
          assert s2.built[|s.built|..] == s1.built[|s.built|..] + [t];
        }
      } else if t in env.transient {
        RunFactoryProgresses(env, plan, plan.rank(t), env.transient[t], [], s);
      }
    }
  }

  lemma {:induction false} RunFactoryProgresses(env: Env, plan: Plan, bound: nat, f: Factory, h: seq<Reply>, s: Scope)
    requires Acyclic(env, plan) && AsksBelow(f, plan, bound)
    ensures Progress(env, plan, bound, s, RunFactory(env, plan, bound, f, h, s).1)
    decreases bound, 0, plan.left(f, h)
  {
    if f(h).Ask? {
      var (r, s1) := Resolve(env, plan, f(h).typeName, s);
      ResolveProgresses(env, plan, f(h).typeName, s);
      var next := h + [Plain(r)];
      RunFactoryProgresses(env, plan, bound, f, next, s1);
      ProgressTransitive(env, plan, bound, s, s1, RunFactory(env, plan, bound, f, next, s1).1);
    }
  }

  /** A factory that fails leaves no cached entry for its own type. */
  lemma {:induction false} FailureCachesNothing(env: Env, plan: Plan, t: TypeId, s: Scope)
    requires Acyclic(env, plan) && Resolve(env, plan, t, s).0.Err?
    ensures t !in Resolve(env, plan, t, s).1.overrides
  {
    ResolveProgresses(env, plan, t, s);
  }

  /** Every resolution of a transient type is a new allocation, and none of them is kept. */
  lemma {:induction false} TransientIsAlwaysFresh(env: Env, plan: Plan, t: TypeId, s: Scope)
    requires Acyclic(env, plan)
    requires t !in s.overrides && t !in env.inner && t !in env.request && t in env.transient
    ensures var (r, s') := Resolve(env, plan, t, s);
      t !in s'.overrides && (r.Ok? ==> s.next <= r.value.id < s'.next)
      && (r.Ok? ==> forall u | u in s'.overrides && s'.overrides[u] == r.value :: u in s.overrides)
  {
    ResolveProgresses(env, plan, t, s);
    RunFactoryProgresses(env, plan, plan.rank(t), env.transient[t], [], s);
  }

  // ---------------------------------------------------------------- caching is invisible

  /** `o'` extends `o` by entries that hold exactly what the pure lookup under `o` gives. */
  ghost predicate SoundCache(env: Env, plan: Plan, o: map<TypeId, Value>, o': map<TypeId, Value>)
    requires Acyclic(env, plan)
  {
    && (forall t | t in o :: t in o' && o'[t] == o[t])
    && (forall t | t in o' && t !in o :: Lookup(env, plan, o, t) == Ok(o'[t]))
  }

  lemma {:induction false} SoundCacheIsInvisible(env: Env, plan: Plan, o: map<TypeId, Value>, o': map<TypeId, Value>,
      t: TypeId)
    requires Acyclic(env, plan) && SoundCache(env, plan, o, o')
    ensures Lookup(env, plan, o', t) == Lookup(env, plan, o, t)
    decreases plan.rank(t), 1
  {
    if t !in o' && t !in env.inner {
      if t in env.request {
        SoundCacheIsInvisibleToFactory(env, plan, o, o', plan.rank(t), env.request[t], []);
      } else if t in env.transient {
        SoundCacheIsInvisibleToFactory(env, plan, o, o', plan.rank(t), env.transient[t], []);
      }
    }
  }

  lemma {:induction false} SoundCacheIsInvisibleToFactory(env: Env, plan: Plan, o: map<TypeId, Value>,
      o': map<TypeId, Value>, bound: nat, f: Factory, h: seq<Reply>)
    requires Acyclic(env, plan) && AsksBelow(f, plan, bound) && SoundCache(env, plan, o, o')
    ensures LookupFactory(env, plan, o', bound, f, h) == LookupFactory(env, plan, o, bound, f, h)
    decreases bound, 0, plan.left(f, h)
  {
    if f(h).Ask? {
      SoundCacheIsInvisible(env, plan, o, o', f(h).typeName);
      SoundCacheIsInvisibleToFactory(env, plan, o, o', bound, f, h + [Lookup(env, plan, o, f(h).typeName)]);
    }
  }

  lemma {:induction false} SoundCacheTransitive(env: Env, plan: Plan, o0: map<TypeId, Value>, o1: map<TypeId, Value>,
      o2: map<TypeId, Value>)
    requires Acyclic(env, plan) && SoundCache(env, plan, o0, o1) && SoundCache(env, plan, o1, o2)
    ensures SoundCache(env, plan, o0, o2)
  {
    forall t | t in o2 && t !in o1
      ensures Lookup(env, plan, o0, t) == Ok(o2[t])
    {
      SoundCacheIsInvisible(env, plan, o0, o1, t);
    }
  }

  /** Resolving returns what the pure lookup returns, and what it caches changes no later lookup. */
  lemma {:induction false} ResolveRefinesLookup(env: Env, plan: Plan, t: TypeId, s: Scope)
    requires Acyclic(env, plan)
    ensures var (r, s') := Resolve(env, plan, t, s);
      && Plain(r) == Lookup(env, plan, Values(s.overrides), t)
      && SoundCache(env, plan, Values(s.overrides), Values(s'.overrides))
    decreases plan.rank(t), 1
  {
    if t !in s.overrides && t !in env.inner {
      if t in env.request {
        RunFactoryRefinesLookup(env, plan, plan.rank(t), env.request[t], [], s);
      } else if t in env.transient {
        RunFactoryRefinesLookup(env, plan, plan.rank(t), env.transient[t], [], s);
      }
    }
  }

  lemma {:induction false} RunFactoryRefinesLookup(env: Env, plan: Plan, bound: nat, f: Factory, h: seq<Reply>,
      s: Scope)
    requires Acyclic(env, plan) && AsksBelow(f, plan, bound)
    ensures var (r, s') := RunFactory(env, plan, bound, f, h, s);
      && r == LookupFactory(env, plan, Values(s.overrides), bound, f, h)
      && SoundCache(env, plan, Values(s.overrides), Values(s'.overrides))
    decreases bound, 0, plan.left(f, h)
  {
    if f(h).Ask? {
      ResolveRefinesLookup(env, plan, f(h).typeName, s);
      var (r, s1) := Resolve(env, plan, f(h).typeName, s);
      var next := h + [Plain(r)];
      RunFactoryRefinesLookup(env, plan, bound, f, next, s1);
      var s2 := RunFactory(env, plan, bound, f, next, s1).1;
      SoundCacheIsInvisibleToFactory(env, plan, Values(s.overrides), Values(s1.overrides), bound, f, next);
      SoundCacheTransitive(env, plan, Values(s.overrides), Values(s1.overrides), Values(s2.overrides));
    }
  }

  // ---------------------------------------------------------------- runs

  datatype Op = ResolveType(t: TypeId) | OverrideType(t: TypeId, value: Value)

  ghost function Override(t: TypeId, value: Value, s: Scope): Scope {
    s.(overrides := s.overrides[t := Instance(s.next, value)], next := s.next + 1)
  }

  ghost function Apply(env: Env, plan: Plan, op: Op, s: Scope): (Result<Instance, Error>, Scope)
    requires Acyclic(env, plan)
  {
    match op
    case ResolveType(t) => Resolve(env, plan, t, s)
    case OverrideType(t, value) => (Ok(Instance(s.next, value)), Override(t, value, s))
  }

  /** A sequential run of operations in one scope: the answer of each (an override answers with the stored instance). */
  ghost function Run(env: Env, plan: Plan, ops: seq<Op>, s: Scope): (r: (seq<Result<Instance, Error>>, Scope))
    requires Acyclic(env, plan)
    ensures |r.0| == |ops|
    decreases |ops|
  {
    if ops == [] then ([], s)
    else
      var (r, s1) := Apply(env, plan, ops[0], s);
      var (rs, s2) := Run(env, plan, ops[1..], s1);
      ([r] + rs, s2)
  }

  /** The request-scoped types built are distinct and all present in the overrides. */
  ghost predicate BuiltOnce(s: Scope) {
    Distinct(s.built) && forall t | t in s.built :: t in s.overrides
  }

  lemma {:induction false} ProgressKeepsBuiltOnce(env: Env, plan: Plan, bound: nat, s: Scope, s': Scope)
    requires BuiltOnce(s) && Progress(env, plan, bound, s, s')
    ensures BuiltOnce(s')
  {
    assert s'.built == s.built + s'.built[|s.built|..];
    DistinctAppend(s.built, s'.built[|s.built|..]);
  }

  /** A scope is in order: built types are cached, cached types are named, cached ids have been handed out. */
  ghost predicate InOrder(s: Scope, names: set<TypeId>) {
    BuiltOnce(s) && s.overrides.Keys <= names && forall t | t in s.overrides :: s.overrides[t].id < s.next
  }

  lemma {:induction false} ResolveKeepsInOrder(env: Env, plan: Plan, t: TypeId, s: Scope, names: set<TypeId>)
    requires Acyclic(env, plan) && env.request.Keys <= names && InOrder(s, names)
    ensures InOrder(Resolve(env, plan, t, s).1, names)
  {
    ResolveProgresses(env, plan, t, s);
    ProgressKeepsBuiltOnce(env, plan, plan.rank(t) + 1, s, Resolve(env, plan, t, s).1);
  }

  /** In any sequential run in one scope, overrides included, every request-scoped factory completes at most once. */
  lemma {:induction false} FactoriesCompleteAtMostOnce(env: Env, plan: Plan, ops: seq<Op>, s: Scope)
    requires Acyclic(env, plan) && BuiltOnce(s)
    ensures BuiltOnce(Run(env, plan, ops, s).1)
    decreases |ops|
  {
    if ops != [] {
      match ops[0] {
        case ResolveType(t) =>
          ResolveProgresses(env, plan, t, s);
          var s1 := Resolve(env, plan, t, s).1;
          ProgressKeepsBuiltOnce(env, plan, plan.rank(t) + 1, s, s1);
          FactoriesCompleteAtMostOnce(env, plan, ops[1..], s1);
        case OverrideType(t, value) =>
          FactoriesCompleteAtMostOnce(env, plan, ops[1..], Override(t, value, s));
      }
    }
  }

  /** Once present in a scope, an instance is what every resolve returns, as long as its type is not overridden. */
  lemma {:induction false} CachedInstanceIsStable(env: Env, plan: Plan, ops: seq<Op>, s: Scope, t: TypeId)
    requires Acyclic(env, plan) && t in s.overrides
    requires forall i | 0 <= i < |ops| && ops[i].OverrideType? :: ops[i].t != t
    ensures forall i | 0 <= i < |ops| && ops[i] == ResolveType(t) :: Run(env, plan, ops, s).0[i] == Ok(s.overrides[t])
    ensures t in Run(env, plan, ops, s).1.overrides && Run(env, plan, ops, s).1.overrides[t] == s.overrides[t]
    decreases |ops|
  {
    if ops != [] {
      var s1 := if ops[0].ResolveType? then Resolve(env, plan, ops[0].t, s).1 else Override(ops[0].t, ops[0].value, s);
      if ops[0].ResolveType? {
        ResolveProgresses(env, plan, ops[0].t, s);
      }
      CachedInstanceIsStable(env, plan, ops[1..], s1, t);
      var rs := Run(env, plan, ops[1..], s1).0;
      forall i | 0 <= i < |ops| && ops[i] == ResolveType(t)
        ensures Run(env, plan, ops, s).0[i] == Ok(s.overrides[t])
      {
        if i > 0 {
          assert ops[1..][i - 1] == ResolveType(t);
        }
      }
    }
  }

  /** After one successful resolve of a request-scoped type, every later one in the run gives the same allocation. */
  lemma {:induction false} RequestScopedIsShared(env: Env, plan: Plan, t: TypeId, ops: seq<Op>, s: Scope)
    requires Acyclic(env, plan) && t in env.request && t !in env.inner
    requires Resolve(env, plan, t, s).0.Ok?
    requires forall i | 0 <= i < |ops| && ops[i].OverrideType? :: ops[i].t != t
    ensures var (first, s1) := Resolve(env, plan, t, s);
      forall i | 0 <= i < |ops| && ops[i] == ResolveType(t) :: Run(env, plan, ops, s1).0[i] == first
  {
    ResolveProgresses(env, plan, t, s);
    CachedInstanceIsStable(env, plan, ops, Resolve(env, plan, t, s).1, t);
  }

  /** A value put over a type is what every resolve of it answers, with nothing run, until it is overridden again. */
  lemma {:induction false} OverrideIsStable(env: Env, plan: Plan, t: TypeId, value: Value, ops: seq<Op>, s: Scope)
    requires Acyclic(env, plan)
    requires forall i | 0 <= i < |ops| && ops[i].OverrideType? :: ops[i].t != t
    ensures var (stored, s1) := Apply(env, plan, OverrideType(t, value), s);
      && stored == Ok(Instance(s.next, value)) && s1.next > s.next
      && (forall u | u in s.overrides && u != t :: u in s1.overrides && s1.overrides[u] == s.overrides[u])
      && (forall i | 0 <= i < |ops| && ops[i] == ResolveType(t) :: Run(env, plan, ops, s1).0[i] == stored)
  {
    CachedInstanceIsStable(env, plan, ops, Override(t, value, s), t);
  }

  // ---------------------------------------------------------------- what a factory is told

  /** The history is what the container answered, in turn, to the questions of the factory. */
  ghost predicate IsConversation(env: Env, plan: Plan, overrides: map<TypeId, Value>, f: Factory, h: seq<Reply>)
    requires Acyclic(env, plan)
  {
    forall k | 0 <= k < |h| :: f(h[..k]).Ask? && h[k] == Lookup(env, plan, overrides, f(h[..k]).typeName)
  }

  lemma {:induction false} ConversationGoesOn(env: Env, plan: Plan, overrides: map<TypeId, Value>, f: Factory,
      h: seq<Reply>)
    requires Acyclic(env, plan) && IsConversation(env, plan, overrides, f, h) && f(h).Ask?
    ensures IsConversation(env, plan, overrides, f, h + [Lookup(env, plan, overrides, f(h).typeName)])
  {
    var next := h + [Lookup(env, plan, overrides, f(h).typeName)];
    forall k | 0 <= k < |next|
      ensures f(next[..k]).Ask? && next[k] == Lookup(env, plan, overrides, f(next[..k]).typeName)
    {
      assert next[..k] == h[..k];
      assert k == |h| ==> h[..k] == h;
    }
  }

  /** A factory's result is its own last word, once all its questions have been answered by lookups in its scope. */
  lemma {:induction false} FactorySaysIt(env: Env, plan: Plan, overrides: map<TypeId, Value>, bound: nat, f: Factory,
      h: seq<Reply>) returns (all: seq<Reply>)
    requires Acyclic(env, plan) && AsksBelow(f, plan, bound) && IsConversation(env, plan, overrides, f, h)
    ensures h <= all && IsConversation(env, plan, overrides, f, all)
    ensures match f(all)
      case Return(value) => LookupFactory(env, plan, overrides, bound, f, h) == Ok(value)
      case Fail(message) => LookupFactory(env, plan, overrides, bound, f, h) == Err(message)
      case Ask(_) => false
    decreases bound, 0, plan.left(f, h)
  {
    if f(h).Ask? {
      var next := h + [Lookup(env, plan, overrides, f(h).typeName)];
      ConversationGoesOn(env, plan, overrides, f, h);
      all := FactorySaysIt(env, plan, overrides, bound, f, next);
    } else {
      all := h;
    }
  }

  // ---------------------------------------------------------------- what a factory was told is kept

  /** A value answered for a request-scoped type is the one the scope holds. */
  ghost predicate IsHeld(env: Env, t: TypeId, answer: Reply, s: Scope) {
    t in env.request && t !in env.inner && answer.Ok? ==> t in s.overrides && s.overrides[t].value == answer.value
  }

  /** Every value of a request-scoped type that the factory was given after the n-th answer is held. */
  ghost predicate AreHeld(env: Env, f: Factory, n: nat, all: seq<Reply>, s: Scope) {
    forall k | n <= k < |all| && f(all[..k]).Ask? :: IsHeld(env, f(all[..k]).typeName, all[k], s)
  }

  lemma {:induction false} AnswersAreHeld(env: Env, plan: Plan, overrides: map<TypeId, Value>, bound: nat, f: Factory,
      h: seq<Reply>, s: Scope) returns (all: seq<Reply>)
    requires Acyclic(env, plan) && AsksBelow(f, plan, bound) && SoundCache(env, plan, overrides, Values(s.overrides))
    requires IsConversation(env, plan, overrides, f, h)
    ensures h <= all && IsConversation(env, plan, overrides, f, all) && !f(all).Ask?
    ensures var (r, s') := RunFactory(env, plan, bound, f, h, s);
      r == (if f(all).Return? then Ok(f(all).value) else Err(f(all).message)) && AreHeld(env, f, |h|, all, s')
    decreases bound, 0, plan.left(f, h)
  {
    if !f(h).Ask? {
      return h;
    }
    var t := f(h).typeName;
    var (r, s1) := Resolve(env, plan, t, s);
    ResolveProgresses(env, plan, t, s);
    ResolveRefinesLookup(env, plan, t, s);
    SoundCacheIsInvisible(env, plan, overrides, Values(s.overrides), t);
    SoundCacheTransitive(env, plan, overrides, Values(s.overrides), Values(s1.overrides));
    ConversationGoesOn(env, plan, overrides, f, h);
    var next := h + [Plain(r)];
    all := AnswersAreHeld(env, plan, overrides, bound, f, next, s1);
    RunFactoryProgresses(env, plan, bound, f, next, s1);
    FirstIsHeld(env, f, t, h, all, s1, RunFactory(env, plan, bound, f, next, s1).1);
  }

  lemma {:induction false} FirstIsHeld(env: Env, f: Factory, t: TypeId, h: seq<Reply>, all: seq<Reply>, s: Scope,
      s': Scope)
    requires |h| < |all| && h <= all && f(h) == Ask(t) && AreHeld(env, f, |h| + 1, all, s')
    requires IsHeld(env, t, all[|h|], s)
    requires forall u | u in s.overrides :: u in s'.overrides && s'.overrides[u] == s.overrides[u]
    ensures AreHeld(env, f, |h|, all, s')
  {
    assert all[..|h|] == h;
  }

  /** The factory that makes instances of the type. */
  ghost predicate Makes(env: Env, t: TypeId, f: Factory) {
    if t in env.request then f == env.request[t] else t in env.transient && f == env.transient[t]
  }

  /** Resolving a type by its factory leaves the scope as the factory does, but for the type itself. */
  lemma {:induction false} MakingKeeps(env: Env, plan: Plan, t: TypeId, f: Factory, s: Scope)
    requires Acyclic(env, plan) && t !in s.overrides && t !in env.inner && Makes(env, t, f)
    ensures var (r, s') := RunFactory(env, plan, plan.rank(t), f, [], s);
      var (r1, s1) := Resolve(env, plan, t, s);
      && Plain(r1) == Wrap(t, r)
      && forall u | u in s'.overrides && u != t :: u in s1.overrides && s1.overrides[u] == s'.overrides[u]
  {
  }

  /** The factory asked for the type after k answers and was given the value. */
  ghost predicate IsGiven(f: Factory, all: seq<Reply>, k: nat, t: TypeId, value: Value) {
    k < |all| && f(all[..k]) == Ask(t) && all[k] == Ok(value)
  }

  /**
   What a factory is given is what its scope goes on using: when it was given a value of a request-scoped type, the
   scope holds an allocation with that value afterwards, and answers it until the type is overridden.
   */
  lemma {:induction false} DependenciesAreShared(env: Env, plan: Plan, t: TypeId, f: Factory, s: Scope, u: TypeId,
      ops: seq<Op>) returns (all: seq<Reply>)
    requires Acyclic(env, plan) && t !in s.overrides && t !in env.inner && Makes(env, t, f)
    requires u in env.request && u !in env.inner
    requires forall i | 0 <= i < |ops| && ops[i].OverrideType? :: ops[i].t != u
    ensures var (r, s1) := Resolve(env, plan, t, s);
      && IsConversation(env, plan, Values(s.overrides), f, all) && !f(all).Ask?
      && Plain(r) == (if f(all).Return? then Ok(f(all).value) else Err(FactoryFailed(t, f(all).message)))
      && forall k, value | IsGiven(f, all, k, u, value) ::
        && u in s1.overrides && s1.overrides[u].value == value
        && forall i | 0 <= i < |ops| && ops[i] == ResolveType(u) :: Run(env, plan, ops, s1).0[i] == Ok(s1.overrides[u])
  {
    all := AnswersAreHeld(env, plan, Values(s.overrides), plan.rank(t), f, [], s);
    var s', s1 := RunFactory(env, plan, plan.rank(t), f, [], s).1, Resolve(env, plan, t, s).1;
    MakingKeeps(env, plan, t, f, s);
    forall k: nat, value | IsGiven(f, all, k, u, value)
      ensures u in s1.overrides && s1.overrides[u].value == value
    {
      assert plan.rank(u) < plan.rank(t);
      assert IsHeld(env, u, all[k], s');
      assert u in s'.overrides && s1.overrides[u] == s'.overrides[u];
    }
    if u in s1.overrides {
      CachedInstanceIsStable(env, plan, ops, s1, u);
    }
  }

  // ---------------------------------------------------------------- many scopes over one registry

  /** The overrides and build log of one scope among several. */
  datatype Local = Local(overrides: map<TypeId, Instance>, built: seq<TypeId>)

  datatype World = World(scopes: seq<Local>, next: nat)

  datatype Event = Event(scope: nat, op: Op)

  ghost function View(w: World, i: nat): Scope
    requires i < |w.scopes|
  {
    Scope(w.scopes[i].overrides, w.next, w.scopes[i].built)
  }

  ghost function Update(w: World, i: nat, s: Scope): World
    requires i < |w.scopes|
  {
    World(w.scopes[i := Local(s.overrides, s.built)], s.next)
  }

  ghost predicate InRange(w: World, events: seq<Event>) {
    forall k | 0 <= k < |events| :: events[k].scope < |w.scopes|
  }

  /** Any interleaving of operations on the scopes. */
  ghost function RunWorld(env: Env, plan: Plan, events: seq<Event>,
      w: World): (r: (seq<Result<Instance, Error>>, World))
    requires Acyclic(env, plan) && InRange(w, events)
    ensures |r.0| == |events| && |r.1.scopes| == |w.scopes|
    decreases |events|
  {
    if events == [] then ([], w)
    else
      var (r, s) := Apply(env, plan, events[0].op, View(w, events[0].scope));
      var (rs, w') := RunWorld(env, plan, events[1..], Update(w, events[0].scope, s));
      ([r] + rs, w')
  }

  /** The operations of scope `i` within an interleaving. */
  ghost function OpsOf(events: seq<Event>, i: nat): seq<Op> {
    if events == [] then []
    else (if events[0].scope == i then [events[0].op] else []) + OpsOf(events[1..], i)
  }

  /** The values answered to scope `i` within an interleaving. */
  ghost function AnswersTo(events: seq<Event>, rs: seq<Result<Instance, Error>>, i: nat): seq<Reply>
    requires |events| == |rs|
  {
    if events == [] then []
    else (if events[0].scope == i then [Plain(rs[0])] else []) + AnswersTo(events[1..], rs[1..], i)
  }

  ghost function PlainAll(rs: seq<Result<Instance, Error>>): seq<Reply> {
    if rs == [] then [] else [Plain(rs[0])] + PlainAll(rs[1..])
  }

  lemma {:induction false} ResolveDependsOnValues(env: Env, plan: Plan, t: TypeId, s: Scope, s': Scope)
    requires Acyclic(env, plan) && Values(s.overrides) == Values(s'.overrides)
    ensures Plain(Resolve(env, plan, t, s).0) == Plain(Resolve(env, plan, t, s').0)
    ensures Values(Resolve(env, plan, t, s).1.overrides) == Values(Resolve(env, plan, t, s').1.overrides)
    decreases plan.rank(t), 1
  {
    assert t in s.overrides <==> t in Values(s.overrides);
    assert t in s'.overrides <==> t in Values(s'.overrides);
    if t !in s.overrides && t !in env.inner {
      if t in env.request {
        RunFactoryDependsOnValues(env, plan, plan.rank(t), env.request[t], [], s, s');
        var (r, s1) := RunFactory(env, plan, plan.rank(t), env.request[t], [], s);
        var (r', s1') := RunFactory(env, plan, plan.rank(t), env.request[t], [], s');
        if r.Ok? {
          assert Values(s1.overrides[t := Instance(s1.next, r.value)]) == Values(s1.overrides)[t := r.value];
          assert Values(s1'.overrides[t := Instance(s1'.next, r.value)]) == Values(s1'.overrides)[t := r.value];
        }
      } else if t in env.transient {
        RunFactoryDependsOnValues(env, plan, plan.rank(t), env.transient[t], [], s, s');
      }
    }
  }

  lemma {:induction false} RunFactoryDependsOnValues(env: Env, plan: Plan, bound: nat, f: Factory, h: seq<Reply>,
      s: Scope, s': Scope)
    requires Acyclic(env, plan) && AsksBelow(f, plan, bound) && Values(s.overrides) == Values(s'.overrides)
    ensures RunFactory(env, plan, bound, f, h, s).0 == RunFactory(env, plan, bound, f, h, s').0
    ensures Values(RunFactory(env, plan, bound, f, h, s).1.overrides)
      == Values(RunFactory(env, plan, bound, f, h, s').1.overrides)
    decreases bound, 0, plan.left(f, h)
  {
    if f(h).Ask? {
      ResolveDependsOnValues(env, plan, f(h).typeName, s, s');
      var (r, s1) := Resolve(env, plan, f(h).typeName, s);
      var (_, s1') := Resolve(env, plan, f(h).typeName, s');
      RunFactoryDependsOnValues(env, plan, bound, f, h + [Plain(r)], s1, s1');
    }
  }

  lemma {:induction false} ApplyDependsOnValues(env: Env, plan: Plan, op: Op, s: Scope, s': Scope)
    requires Acyclic(env, plan) && Values(s.overrides) == Values(s'.overrides)
    ensures Plain(Apply(env, plan, op, s).0) == Plain(Apply(env, plan, op, s').0)
    ensures Values(Apply(env, plan, op, s).1.overrides) == Values(Apply(env, plan, op, s').1.overrides)
  {
    match op
    case ResolveType(t) =>
      ResolveDependsOnValues(env, plan, t, s, s');
    case OverrideType(t, value) =>
      assert Values(Override(t, value, s).overrides) == Values(s.overrides)[t := value];
      assert Values(Override(t, value, s').overrides) == Values(s'.overrides)[t := value];
  }

  /**
   Scope isolation: in any interleaving over any number of scopes, a scope is answered with the values it would
   get, and ends with the values it would hold, if its own operations ran alone.
   */
  lemma {:induction false} ScopesDoNotInterfere(env: Env, plan: Plan, events: seq<Event>, w: World, i: nat,
      alone: Scope)
    requires Acyclic(env, plan) && InRange(w, events) && i < |w.scopes|
    requires Values(alone.overrides) == Values(w.scopes[i].overrides)
    ensures var (rs, w') := RunWorld(env, plan, events, w);
      var (own, s') := Run(env, plan, OpsOf(events, i), alone);
      AnswersTo(events, rs, i) == PlainAll(own) && Values(w'.scopes[i].overrides) == Values(s'.overrides)
    decreases |events|
  {
    if events != [] {
      var e := events[0];
      var (r, s) := Apply(env, plan, e.op, View(w, e.scope));
      var w1 := Update(w, e.scope, s);
      var (rs, w') := RunWorld(env, plan, events[1..], w1);
      assert ([r] + rs)[1..] == rs;
      if e.scope == i {
        ApplyDependsOnValues(env, plan, e.op, View(w, i), alone);
        var (r1, alone1) := Apply(env, plan, e.op, alone);
        ScopesDoNotInterfere(env, plan, events[1..], w1, i, alone1);
        var ops := OpsOf(events, i);
        assert ops == [e.op] + OpsOf(events[1..], i) && ops[1..] == OpsOf(events[1..], i);
        var own := Run(env, plan, ops[1..], alone1).0;
        assert ([r1] + own)[1..] == own;
      } else {
        ScopesDoNotInterfere(env, plan, events[1..], w1, i, alone);
        assert OpsOf(events, i) == OpsOf(events[1..], i);
      }
    }
  }

  lemma {:induction false} SingletonIsAnswered(env: Env, plan: Plan, t: TypeId, s: Scope)
    requires Acyclic(env, plan) && t in env.inner && t !in s.overrides
    ensures Resolve(env, plan, t, s) == (Ok(env.inner[t]), s)
  {
  }

  /**
   However operations interleave, every scope that does not override a singleton's type is answered with the one
   registered allocation, each time, and keeps nothing of it.
   */
  lemma {:induction false} SingletonIsShared(env: Env, plan: Plan, events: seq<Event>, w: World, t: TypeId, i: nat)
    requires Acyclic(env, plan) && InRange(w, events) && t in env.inner
    requires i < |w.scopes| && t !in w.scopes[i].overrides
    requires forall k | 0 <= k < |events| && events[k].scope == i && events[k].op.OverrideType? :: events[k].op.t != t
    ensures var (rs, w') := RunWorld(env, plan, events, w);
      && (forall k | 0 <= k < |events| && events[k] == Event(i, ResolveType(t)) :: rs[k] == Ok(env.inner[t]))
      && t !in w'.scopes[i].overrides
    decreases |events|
  {
    if events != [] {
      var e := events[0];
      var (r, s) := Apply(env, plan, e.op, View(w, e.scope));
      if e == Event(i, ResolveType(t)) {
        SingletonIsAnswered(env, plan, t, View(w, i));
      } else if e.scope == i && e.op.ResolveType? {
        ResolveProgresses(env, plan, e.op.t, View(w, i));
      }
      var w1 := Update(w, e.scope, s);
      SingletonIsShared(env, plan, events[1..], w1, t, i);
      var rs := RunWorld(env, plan, events, w).0;
      forall k | 0 <= k < |events| && events[k] == Event(i, ResolveType(t))
        ensures rs[k] == Ok(env.inner[t])
      {
        if k > 0 {
          assert events[1..][k - 1] == events[k];
        }
      }
    }
  }

  /** No allocation is held by two scopes, and every id in use has been handed out. */
  ghost predicate NothingShared(w: World) {
    && (forall i, t | 0 <= i < |w.scopes| && t in w.scopes[i].overrides :: w.scopes[i].overrides[t].id < w.next)
    && (forall i, j, t, u | 0 <= i < |w.scopes| && 0 <= j < |w.scopes| && i != j && t in w.scopes[i].overrides
      && u in w.scopes[j].overrides ::
          w.scopes[i].overrides[t].id != w.scopes[j].overrides[u].id)
  }

  /** One operation: what a scope holds afterwards it held before or was allocated just now. */
  ghost predicate OldOrFresh(before: Scope, after: Scope) {
    && before.next <= after.next
    && forall t | t in after.overrides ::
         || (t in before.overrides && after.overrides[t] == before.overrides[t])
         || before.next <= after.overrides[t].id < after.next
  }

  lemma {:induction false} ApplyIsOldOrFresh(env: Env, plan: Plan, op: Op, s: Scope)
    requires Acyclic(env, plan)
    ensures OldOrFresh(s, Apply(env, plan, op, s).1)
  {
    if op.ResolveType? {
      ResolveProgresses(env, plan, op.t, s);
    }
  }

  lemma {:induction false} UpdateSharesNothing(w: World, i: nat, s: Scope)
    requires NothingShared(w) && i < |w.scopes| && OldOrFresh(View(w, i), s)
    ensures NothingShared(Update(w, i, s))
  {
    var w' := Update(w, i, s);
    forall j, t | 0 <= j < |w'.scopes| && t in w'.scopes[j].overrides
      ensures w'.scopes[j].overrides[t].id < w'.next
      ensures j == i || (w'.scopes[j].overrides[t].id < w.next && t in w.scopes[j].overrides
        && w'.scopes[j] == w.scopes[j])
    {
    }
  }

  /** Two requests never hold the same request-scoped or overriding instance, however their operations interleave. */
  lemma {:induction false} ScopesShareNothing(env: Env, plan: Plan, events: seq<Event>, w: World)
    requires Acyclic(env, plan) && InRange(w, events) && NothingShared(w)
    ensures NothingShared(RunWorld(env, plan, events, w).1)
    decreases |events|
  {
    if events != [] {
      var e := events[0];
      ApplyIsOldOrFresh(env, plan, e.op, View(w, e.scope));
      var s := Apply(env, plan, e.op, View(w, e.scope)).1;
      UpdateSharesNothing(w, e.scope, s);
      ScopesShareNothing(env, plan, events[1..], Update(w, e.scope, s));
    }
  }
}
