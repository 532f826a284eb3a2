/** The pipeline as it runs: guard and filter loops, one-shot `next` cells, and the outermost request middleware. */
module PipelineRuntime {
  import opened Prelude
  import opened RouteMatching
  import opened Pipeline
  import DiContainer
  import Resolution

  /** The i-th guard rejects and all before it accept. */
  ghost predicate IsFirstRejection(guards: seq<Guard>, ctx: Context, i: nat, rejection: Option<HttpException>)
    requires i < |guards|
  {
    guards[i](ctx) == rejection && rejection.Some? && forall j | 0 <= j < i :: guards[j](ctx).None?
  }

  method RunGuardList(guards: seq<Guard>, ctx: Context) returns (rejection: Option<HttpException>)
    ensures rejection == RunGuards(guards, ctx)
    ensures rejection.None? <==> forall i | 0 <= i < |guards| :: guards[i](ctx).None?
    ensures rejection.Some? ==> exists i :: 0 <= i < |guards| && IsFirstRejection(guards, ctx, i, rejection)
  {
    for i := 0 to |guards|
      invariant RunGuards(guards, ctx) == RunGuards(guards[i..], ctx)
      invariant forall j | 0 <= j < i :: guards[j](ctx).None?
    {
      assert guards[i..][0] == guards[i] && guards[i..][1..] == guards[i + 1..];
      rejection := guards[i](ctx);
      if rejection.Some? {
        assert IsFirstRejection(guards, ctx, i, rejection);
        return;
      }
    }
    return None;
  }

  method ApplyExceptionFilters(e: HttpException, ctx: Context, filters: seq<Filter>) returns (r: HttpException)
    ensures r == ApplyFilters(e, ctx, filters)
  {
    r := e;
    for i := 0 to |filters|
      invariant ApplyFilters(e, ctx, filters) == ApplyFilters(r, ctx, filters[i..])
    {
      assert filters[i..][0] == filters[i] && filters[i..][1..] == filters[i + 1..];
      r := filters[i](r, ctx);
    }
  }

  /** The one-shot continuation behind a layer's `next`. */
  class OneShot {
    var open: bool

    constructor ()
      ensures open
    {
      open := true;
    }

    method Take() returns (taken: bool)
      modifies this
      ensures taken == old(open) && !open
    {
      taken := open;
      open := false;
    }
  }

  class Recorder {
    var log: seq<Event>

    constructor ()
      ensures log == []
    {
      log := [];
    }

    method Add(e: Event)
      modifies this
      ensures log == old(log) + [e]
    {
      log := log + [e];
    }
  }

  /** The remaining layers and the handler. */
  method RunLayers(layers: seq<Layer>, handler: Request -> Response, req: Request, rec: Recorder) returns (r: Response)
    requires WellFormed(layers)
    modifies rec
    ensures (r, rec.log) == Serve(layers, handler, req, old(rec.log))
    decreases |layers|, 1, 0, 0, 0
  {
    if |layers| == 0 {
      rec.Add(Handled(req));
      return handler(req);
    }
    if layers[0].MiddlewareLayer? && |layers[0].bindings| == 0 {
      r := RunLayers(layers[1..], handler, req, rec);
      return;
    }
    var ctx := ContextOf(req);
    if layers[0].PipelineLayer? {
      var rejection := RunGuardList(layers[0].guards, ctx);
      if rejection.Some? {
        rec.Add(Rejected(|layers|, ctx));
        var e := ApplyExceptionFilters(rejection.value, ctx, layers[0].filters);
        return IntoResponse(e);
      }
      rec.Add(Admitted(|layers|, ctx));
    } else {
      assert rec.log == old(rec.log) + Admission(layers, ctx);
    }
    var next := new OneShot();
    r := RunChain(layers, handler, 0, ctx, req, next, rec);
  }

  method RunChain(layers: seq<Layer>, handler: Request -> Response, i: nat, ctx: Context, req: Request, next: OneShot,
      rec: Recorder)
    returns (r: Response)
    requires WellFormed(layers) && layers != [] && i <= |LinksOf(layers[0])|
    modifies next, rec
    ensures (r, next.open, rec.log) == Chain(layers, handler, i, ctx, req, old(next.open), old(rec.log))
    decreases |layers|, 0, |LinksOf(layers[0])| - i, 1, 0
  {
    var links := LinksOf(layers[0]);
    if i >= |links| {
      var taken := next.Take();
      if taken {
        r := RunLayers(layers[1..], handler, req, rec);
      } else {
        r := NextTwice(layers[0]);
      }
    } else if !Applies(links[i], req) {
      r := RunChain(layers, handler, i + 1, ctx, req, next, rec);
    } else {
      rec.Add(Entered(links[i].id));
      r := RunOneLink(layers, handler, i, ctx, req, next, rec);
      rec.Add(Left(links[i].id));
    }
  }

  method RunOneLink(layers: seq<Layer>, handler: Request -> Response, i: nat, ctx: Context, req: Request,
      next: OneShot, rec: Recorder)
    returns (r: Response)
    requires WellFormed(layers) && layers != [] && i < |LinksOf(layers[0])|
    modifies next, rec
    ensures (r, next.open, rec.log) == RunLink(layers, handler, i, ctx, req, [], old(next.open), old(rec.log))
    decreases |layers|, 0, |LinksOf(layers[0])| - i, 0, 0
  {
    var link := LinksOf(layers[0])[i];
    assert link in LinksOf(layers[0]) && layers[0] in layers && Finite(link);
    var h: seq<Response> := [];
    while true
      invariant RunLink(layers, handler, i, ctx, req, [], old(next.open), old(rec.log))
             == RunLink(layers, handler, i, ctx, req, h, next.open, rec.log)
      decreases Remaining(link, h)
    {
      match ActOf(link, ctx, req, h)
      case Reply(response) =>
        return response;
      case CallNext(request) =>
        var answer := RunChain(layers, handler, i + 1, ctx, request, next, rec);
        h := h + [answer];
    }
  }

  datatype AuthOutcome = Identified(identity: Identity) | Anonymous | Refused(exception: HttpException)

  /** What stands in a container for an identity and for a request's context. */
  datatype Encoding = Encoding(identity: Identity -> Resolution.Value, context: Context -> Resolution.Value)

  const REQUEST_ID := "RequestId"
  const AUTH_IDENTITY := "AuthIdentity"
  const REQUEST_CONTEXT := "RequestContext"

  /** Puts a value into the request's own container. */
  method Store(scope: DiContainer.Container, t: Resolution.TypeId, value: Resolution.Value)
    requires scope.Valid()
    modifies scope`overrides, scope.registry`names, scope.registry`nextInstance
    ensures scope.Valid() && Resolution.Values(scope.overrides) == old(Resolution.Values(scope.overrides))[t := value]
    ensures old(scope.registry.names) <= scope.registry.names
      && old(scope.registry.nextInstance) <= scope.registry.nextInstance
  {
    scope.OverrideValue(t, value);
  }

  /**
   The outermost middleware: resolves the identity, then runs the layers. Every response carries the request id; a
   refused request reaches no layer at all, and the filters see its error with the request id; otherwise the handler
   runs at most once. What is known about the request is held by a container of its own, and by no other.
   */
  method HandleHttp(layers: seq<Layer>, handler: Request -> Response, filters: seq<Filter>,
      resolver: Option<Request -> AuthOutcome>, encoding: Encoding, app: DiContainer.Container, requestId: string,
      req: Request, rec: Recorder)
    returns (r: Response, scope: DiContainer.Container)
    requires WellFormed(layers) && app.Valid()
    modifies rec, app.registry`names, app.registry`nextInstance
    ensures app.Valid()
    ensures fresh(scope) && scope.Valid() && scope.registry == app.registry
    ensures var outcome := if resolver.Some? then resolver.value(req) else Anonymous;
      var identity := if outcome.Identified? then Some(outcome.identity) else req.identity;
      var req' := Request(req.verb, req.path, req.body, Some(requestId), identity);
      var known := map[REQUEST_ID := requestId];
      var known' := if outcome.Identified? then known[AUTH_IDENTITY := encoding.identity(outcome.identity)] else known;
      && Resolution.Values(scope.overrides) == known'[REQUEST_CONTEXT := encoding.context(ContextOf(req'))]
      && (outcome.Refused? ==>
        var e := ApplyFilters(outcome.exception.(requestId := Some(requestId)), ContextOf(req'), filters);
        && rec.log == old(rec.log)
        && r == Response(e.status, ErrorBody(e), Some(requestId)))
      && (!outcome.Refused? ==>
        var (served, log') := Serve(layers, handler, req', old(rec.log));
        && rec.log == log'
        && r == Response(served.status, served.body, Some(requestId)))
    ensures Runs(rec.log) <= Runs(old(rec.log)) + 1
  {
    scope := app.Scoped();
    Store(scope, REQUEST_ID, requestId);
    var resolved := req.(requestId := Some(requestId));
    if resolver.Some? {
      match resolver.value(req) {
        case Identified(identity) =>
          Store(scope, AUTH_IDENTITY, encoding.identity(identity));
          resolved := resolved.(identity := Some(identity));
        case Anonymous =>
        case Refused(exception) =>
          Store(scope, REQUEST_CONTEXT, encoding.context(ContextOf(resolved)));
          var e := ApplyExceptionFilters(exception.(requestId := Some(requestId)), ContextOf(resolved), filters);
          r := IntoResponse(e).(requestIdHeader := Some(requestId));
          return;
      }
    }
    Store(scope, REQUEST_CONTEXT, encoding.context(ContextOf(resolved)));
    HandlerRunsAtMostOnce(layers, handler, resolved, rec.log);
    r := RunLayers(layers, handler, resolved, rec);
    r := r.(requestIdHeader := Some(requestId));
  }
}
