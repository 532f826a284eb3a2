/**
 The request pipeline: middleware around global guards and interceptors around route guards and interceptors around
 the handler. Each layer's innermost `next` can be taken once.

 An interceptor or middleware is interactive: given the responses its `next` has returned so far, it either calls
 `next` with some request or replies. It calls `next` at most `limit` times, for a limit of its own.
 */
module Pipeline {
  import opened Prelude
  import opened RouteMatching

  datatype Identity = Identity(subject: string, roles: seq<string>)

  datatype Request = Request(
    verb: string, path: string, body: string, requestId: Option<string>, identity: Option<Identity>)

  datatype HttpException = HttpException(
    status: nat, code: string, message: string, details: Option<string>, requestId: Option<string>)

  /** An error body is the JSON of the exception's fields and the name of its status. */
  datatype Body = Plain(text: string) | ErrorBody(exception: HttpException)

  datatype Response = Response(status: nat, body: Body, requestIdHeader: Option<string>)

  function Exception(status: nat, code: string, message: string): HttpException {
    HttpException(status, code, message, None, None)
  }

  datatype Context = Context(verb: string, path: string, requestId: Option<string>, identity: Option<Identity>)

  function ContextOf(req: Request): Context {
    Context(req.verb, req.path, req.requestId, req.identity)
  }

  function IntoResponse(e: HttpException): Response {
    Response(e.status, ErrorBody(e), None)
  }

  type Guard = Context -> Option<HttpException>
  type Filter = (HttpException, Context) -> HttpException

  datatype Act = Reply(response: Response) | CallNext(request: Request)

  datatype Link =
    | Interceptor(id: nat, around: (Context, Request, seq<Response>) -> Act, limit: nat)
    | Middleware(id: nat, matcher: RouteMatcher, handle: (Request, seq<Response>) -> Act, limit: nat)

  datatype Layer =
    | MiddlewareLayer(bindings: seq<Link>)
    | PipelineLayer(guards: seq<Guard>, interceptors: seq<Link>, filters: seq<Filter>)

  /** A layer is told by its depth, the number of layers from it inwards. */
  datatype Event =
    | Admitted(depth: nat, ctx: Context)
    | Rejected(depth: nat, ctx: Context)
    | Entered(id: nat)
    | Left(id: nat)
    | Handled(request: Request)

  const MIDDLEWARE_NEXT_TWICE := Exception(500, "internal_server_error", "Middleware next called multiple times")
  const PIPELINE_NEXT_TWICE := Exception(500, "internal_server_error", "Pipeline next called multiple times")

  function LinksOf(layer: Layer): seq<Link> {
    match layer
    case MiddlewareLayer(bindings) => bindings
    case PipelineLayer(_, interceptors, _) => interceptors
  }

  function NextTwice(layer: Layer): Response {
    IntoResponse(if layer.MiddlewareLayer? then MIDDLEWARE_NEXT_TWICE else PIPELINE_NEXT_TWICE)
  }

  /** Middleware runs only when its matcher accepts the request as it arrives; interceptors always run. */
  predicate Applies(link: Link, req: Request) {
    link.Middleware? ==> MatcherMatches(link.matcher, req.verb, req.path)
  }

  function ActOf(link: Link, ctx: Context, req: Request, h: seq<Response>): Act {
    match link
    case Interceptor(_, around, _) => around(ctx, req, h)
    case Middleware(_, _, handle, _) => handle(req, h)
  }

  /** After `limit` responses the link only replies. */
  ghost predicate Finite(link: Link) {
    forall ctx, req, h | |h| >= link.limit :: ActOf(link, ctx, req, h).Reply?
  }

  function Remaining(link: Link, h: seq<Response>): nat {
    if |h| < link.limit then link.limit - |h| else 0
  }

  ghost predicate WellFormed(layers: seq<Layer>) {
    forall layer, link | layer in layers && link in LinksOf(layer) :: Finite(link)
  }

  function RunGuards(guards: seq<Guard>, ctx: Context): Option<HttpException> {
    if guards == [] then None
    else
      var rejection := guards[0](ctx);
      if rejection.Some? then rejection else RunGuards(guards[1..], ctx)
  }

  function ApplyFilters(e: HttpException, ctx: Context, filters: seq<Filter>): HttpException
    decreases |filters|
  {
    if filters == [] then e else ApplyFilters(filters[0](e, ctx), ctx, filters[1..])
  }

  // ---------------------------------------------------------------- the pipeline as a function

  /** Running a request through the layers: the response, and the log extended by what happened. */
  ghost function Serve(layers: seq<Layer>, handler: Request -> Response, req: Request, log: seq<Event>): (Response,
      seq<Event>)
    requires WellFormed(layers)
    decreases |layers|, 1, 0, 0, 0
  {
    if layers == [] then
      (handler(req), log + [Handled(req)])
    else if layers[0].MiddlewareLayer? && layers[0].bindings == [] then
      Serve(layers[1..], handler, req, log)
    else
      var ctx := ContextOf(req);
      var rejection := if layers[0].MiddlewareLayer? then None else RunGuards(layers[0].guards, ctx);
      if rejection.Some? then
        (IntoResponse(ApplyFilters(rejection.value, ctx, layers[0].filters)), log + [Rejected(|layers|, ctx)])
      else
        var (r, _, log') := Chain(layers, handler, 0, ctx, req, true, log + Admission(layers, ctx));
        (r, log')
  }

  function Admission(layers: seq<Layer>, ctx: Context): seq<Event>
    requires layers != []
  {
    if layers[0].PipelineLayer? then [Admitted(|layers|, ctx)] else []
  }

  /** The links of the first layer from index `i` on; `open` says whether the layer's `next` is still there to take. */
  ghost function Chain(layers: seq<Layer>, handler: Request -> Response, i: nat, ctx: Context, req: Request,
      open: bool, log: seq<Event>)
    : (Response, bool, seq<Event>)
    requires WellFormed(layers) && layers != [] && i <= |LinksOf(layers[0])|
    decreases |layers|, 0, |LinksOf(layers[0])| - i, 1, 0
  {
    var links := LinksOf(layers[0]);
    if i == |links| then
      if open then
        var (r, log') := Serve(layers[1..], handler, req, log);
        (r, false, log')
      else
        (NextTwice(layers[0]), false, log)
    else if !Applies(links[i], req) then
      Chain(layers, handler, i + 1, ctx, req, open, log)
    else
      var (r, open', log') := RunLink(layers, handler, i, ctx, req, [], open, log + [Entered(links[i].id)]);
      (r, open', log' + [Left(links[i].id)])
  }

  ghost function RunLink(layers: seq<Layer>, handler: Request -> Response, i: nat, ctx: Context, req: Request,
      h: seq<Response>, open: bool, log: seq<Event>)
    : (Response, bool, seq<Event>)
    requires WellFormed(layers) && layers != [] && i < |LinksOf(layers[0])|
    decreases |layers|, 0, |LinksOf(layers[0])| - i, 0, Remaining(LinksOf(layers[0])[i], h)
  {
    var link := LinksOf(layers[0])[i];
    assert link in LinksOf(layers[0]) && layers[0] in layers && Finite(link);
    match ActOf(link, ctx, req, h)
    case Reply(r) => (r, open, log)
    case CallNext(req') =>
      var (r, open', log') := Chain(layers, handler, i + 1, ctx, req', open, log);
      RunLink(layers, handler, i, ctx, req, h + [r], open', log')
  }

  // ---------------------------------------------------------------- the handler runs at most once

  function Runs(log: seq<Event>): nat {
    if log == [] then 0 else Runs(log[..|log| - 1]) + if log[|log| - 1].Handled? then 1 else 0
  }

  lemma {:induction false} RunsSnoc(log: seq<Event>, e: Event)
    ensures Runs(log + [e]) == Runs(log) + if e.Handled? then 1 else 0
  {
    assert (log + [e])[..|log|] == log;
  }

  /** The layer's guards accepted some request of this part of the log. */
  ghost predicate AdmittedBy(layer: Layer, depth: nat, log: seq<Event>) {
    layer.PipelineLayer? ==> exists ctx :: Admitted(depth, ctx) in log && RunGuards(layer.guards, ctx).None?
  }

  /** Every layer's did, each at its own depth. */
  ghost predicate AllAdmitted(layers: seq<Layer>, log: seq<Event>) {
    forall k | 0 <= k < |layers| :: AdmittedBy(layers[k], |layers| - k, log)
  }

  /** Whatever the links do, one request runs the handler at most once, and only if every layer's guards admitted it. */
  lemma {:induction false} HandlerRunsAtMostOnce(layers: seq<Layer>, handler: Request -> Response, req: Request,
      log: seq<Event>)
    requires WellFormed(layers)
    ensures var log' := Serve(layers, handler, req, log).1;
      && log <= log' && Runs(log) <= Runs(log') <= Runs(log) + 1
      && (Runs(log') > Runs(log) ==> AllAdmitted(layers, log'[|log|..]))
    decreases |layers|, 1, 0, 0, 0
  {
    if layers == [] {
      RunsSnoc(log, Handled(req));
    } else if layers[0].MiddlewareLayer? && layers[0].bindings == [] {
      HandlerRunsAtMostOnce(layers[1..], handler, req, log);
    } else if layers[0].MiddlewareLayer? || RunGuards(layers[0].guards, ContextOf(req)).None? {
      var ctx := ContextOf(req);
      var log1 := log + Admission(layers, ctx);
      ChainRunsAtMostOnce(layers, handler, 0, ctx, req, true, log1);
      AdmissionCounts(layers, ctx, log, Serve(layers, handler, req, log).1);
    } else {
      RunsSnoc(log, Rejected(|layers|, ContextOf(req)));
    }
  }

  lemma {:induction false} AdmissionCounts(layers: seq<Layer>, ctx: Context, log: seq<Event>, log': seq<Event>)
    requires layers != [] && (layers[0].MiddlewareLayer? || RunGuards(layers[0].guards, ctx).None?)
    requires AtMostOnce(layers[1..], true, log + Admission(layers, ctx), false, log')
    ensures log <= log' && Runs(log) <= Runs(log') <= Runs(log) + 1
    ensures Runs(log') > Runs(log) ==> AllAdmitted(layers, log'[|log|..])
  {
    var log1 := log + Admission(layers, ctx);
    if layers[0].PipelineLayer? {
      RunsSnoc(log, Admitted(|layers|, ctx));
      assert log'[|log|] == Admitted(|layers|, ctx) && log'[|log|..][0] == log'[|log|];
    } else {
      assert log1 == log;
    }
    assert log'[|log|..] == Admission(layers, ctx) + log'[|log1|..];
    if Runs(log') > Runs(log) {
      forall k | 0 <= k < |layers|
        ensures AdmittedBy(layers[k], |layers| - k, log'[|log|..])
      {
        assert k > 0 ==> AdmittedBy(layers[1..][k - 1], |layers[1..]| - (k - 1), log'[|log1|..]);
      }
    }
  }

  /** What a chain may add to the log: one handler run, only by taking `next`, admitted by all inner layers. */
  ghost predicate AtMostOnce(inner: seq<Layer>, open: bool, log: seq<Event>, open': bool, log': seq<Event>) {
    && log <= log' && (open' ==> open)
    && Runs(log) <= Runs(log') <= Runs(log) + (if open && !open' then 1 else 0)
    && (Runs(log') > Runs(log) ==> AllAdmitted(inner, log'[|log|..]))
  }

  lemma {:induction false} AtMostOnceTransitive(inner: seq<Layer>, o0: bool, l0: seq<Event>, o1: bool, l1: seq<Event>,
      o2: bool, l2: seq<Event>)
    requires AtMostOnce(inner, o0, l0, o1, l1) && AtMostOnce(inner, o1, l1, o2, l2)
    ensures AtMostOnce(inner, o0, l0, o2, l2)
  {
    assert l2[|l0|..] == l1[|l0|..] + l2[|l1|..];
  }

  lemma {:induction false} ChainRunsAtMostOnce(layers: seq<Layer>, handler: Request -> Response, i: nat, ctx: Context,
      req: Request, open: bool, log: seq<Event>)
    requires WellFormed(layers) && layers != [] && i <= |LinksOf(layers[0])|
    ensures var (_, open', log') := Chain(layers, handler, i, ctx, req, open, log);
      AtMostOnce(layers[1..], open, log, open', log')
    decreases |layers|, 0, |LinksOf(layers[0])| - i, 1, 0
  {
    var links := LinksOf(layers[0]);
    if i == |links| {
      if open {
        HandlerRunsAtMostOnce(layers[1..], handler, req, log);
      }
    } else if !Applies(links[i], req) {
      ChainRunsAtMostOnce(layers, handler, i + 1, ctx, req, open, log);
    } else {
      var log1 := log + [Entered(links[i].id)];
      RunsSnoc(log, Entered(links[i].id));
      LinkRunsAtMostOnce(layers, handler, i, ctx, req, [], open, log1);
      var (_, open2, log2) := RunLink(layers, handler, i, ctx, req, [], open, log1);
      RunsSnoc(log2, Left(links[i].id));
      AtMostOnceTransitive(layers[1..], open, log, open, log1, open2, log2);
      AtMostOnceTransitive(layers[1..], open, log, open2, log2, open2, log2 + [Left(links[i].id)]);
    }
  }

  lemma {:induction false} LinkRunsAtMostOnce(layers: seq<Layer>, handler: Request -> Response, i: nat, ctx: Context,
      req: Request, h: seq<Response>, open: bool, log: seq<Event>)
    requires WellFormed(layers) && layers != [] && i < |LinksOf(layers[0])|
    ensures var (_, open', log') := RunLink(layers, handler, i, ctx, req, h, open, log);
      AtMostOnce(layers[1..], open, log, open', log')
    decreases |layers|, 0, |LinksOf(layers[0])| - i, 0, Remaining(LinksOf(layers[0])[i], h)
  {
    var link := LinksOf(layers[0])[i];
    assert link in LinksOf(layers[0]) && layers[0] in layers && Finite(link);
    var act := ActOf(link, ctx, req, h);
    if act.CallNext? {
      ChainRunsAtMostOnce(layers, handler, i + 1, ctx, act.request, open, log);
      var (r, open1, log1) := Chain(layers, handler, i + 1, ctx, act.request, open, log);
      LinkRunsAtMostOnce(layers, handler, i, ctx, req, h + [r], open1, log1);
      var (_, open2, log2) := RunLink(layers, handler, i, ctx, req, h + [r], open1, log1);
      AtMostOnceTransitive(layers[1..], open, log, open1, log1, open2, log2);
    }
  }

  // ---------------------------------------------------------------- a link's answer is its own

  /** The responses in `h` are those of the rest of the chain to the link's calls of `next`, one after another. */
  ghost predicate IsExchange(layers: seq<Layer>, handler: Request -> Response, i: nat, ctx: Context, req: Request,
      h: seq<Response>, opens: seq<bool>, logs: seq<seq<Event>>)
    requires WellFormed(layers) && layers != [] && i < |LinksOf(layers[0])|
  {
    && |opens| == |logs| == |h| + 1
    && forall k | 0 <= k < |h| :: IsCall(layers, handler, i, ctx, req, h, opens, logs, k)
  }

  ghost predicate IsCall(layers: seq<Layer>, handler: Request -> Response, i: nat, ctx: Context, req: Request,
      h: seq<Response>, opens: seq<bool>, logs: seq<seq<Event>>, k: nat)
    requires WellFormed(layers) && layers != [] && i < |LinksOf(layers[0])|
    requires |opens| == |logs| == |h| + 1 && k < |h|
  {
    var act := ActOf(LinksOf(layers[0])[i], ctx, req, h[..k]);
    act.CallNext?
    && Chain(layers, handler, i + 1, ctx, act.request, opens[k], logs[k]) == (h[k], opens[k + 1], logs[k + 1])
  }

  /** Whatever a link does, its answer is its last reply, to exactly the responses that its calls of `next` got. */
  lemma {:induction false} LinkAnswersItself(layers: seq<Layer>, handler: Request -> Response, i: nat, ctx: Context,
      req: Request, h: seq<Response>, opens: seq<bool>, logs: seq<seq<Event>>)
      returns (all: seq<Response>, opens': seq<bool>, logs': seq<seq<Event>>)
    requires WellFormed(layers) && layers != [] && i < |LinksOf(layers[0])|
    requires IsExchange(layers, handler, i, ctx, req, h, opens, logs)
    ensures h <= all && IsExchange(layers, handler, i, ctx, req, all, opens', logs')
    ensures opens <= opens' && logs <= logs'
    ensures var (r, open', log') := RunLink(layers, handler, i, ctx, req, h, opens[|h|], logs[|h|]);
      ActOf(LinksOf(layers[0])[i], ctx, req, all) == Reply(r) && open' == opens'[|all|] && log' == logs'[|all|]
    decreases Remaining(LinksOf(layers[0])[i], h)
  {
    var link := LinksOf(layers[0])[i];
    assert link in LinksOf(layers[0]) && layers[0] in layers && Finite(link);
    var act := ActOf(link, ctx, req, h);
    if act.CallNext? {
      var (r, open1, log1) := Chain(layers, handler, i + 1, ctx, act.request, opens[|h|], logs[|h|]);
      var h1, opens1, logs1 := h + [r], opens + [open1], logs + [log1];
      forall k | 0 <= k < |h1|
        ensures IsCall(layers, handler, i, ctx, req, h1, opens1, logs1, k)
      {
        assert h1[..k] == h[..k];
        if k < |h| {
          assert IsCall(layers, handler, i, ctx, req, h, opens, logs, k);
        } else {
          assert h[..k] == h;
        }
      }
      all, opens', logs' := LinkAnswersItself(layers, handler, i, ctx, req, h1, opens1, logs1);
    } else {
      all, opens', logs' := h, opens, logs;
    }
  }

  // ---------------------------------------------------------------- what a request must pass to be handled

  /** Told `h` so far, response by response, the link has called `next` each time. */
  ghost predicate HasCalled(link: Link, ctx: Context, req: Request, h: seq<Response>) {
    forall k | 0 <= k < |h| :: ActOf(link, ctx, req, h[..k]).CallNext?
  }

  /** The link may hand on `out`; it does call `next`, then, before it replies. */
  ghost predicate HandsOn(link: Link, ctx: Context, req: Request, out: Request) {
    exists h :: HasCalled(link, ctx, req, h) && ActOf(link, ctx, req, h) == CallNext(out)
  }

  /** Every link that applies to the request as it receives it hands it on. */
  ghost predicate PassesLinks(links: seq<Link>, ctx: Context, req: Request, out: Request)
    decreases |links|
  {
    if links == [] then out == req
    else if !Applies(links[0], req) then PassesLinks(links[1..], ctx, req, out)
    else exists next :: HandsOn(links[0], ctx, req, next) && PassesLinks(links[1..], ctx, next, out)
  }

  /** In every layer, guards accept the request as it arrives and the links hand it on; `out` is what is left of it. */
  ghost predicate Passes(layers: seq<Layer>, req: Request, out: Request)
    decreases |layers|, 1
  {
    if layers == [] then out == req
    else
      && (layers[0].PipelineLayer? ==> RunGuards(layers[0].guards, ContextOf(req)).None?)
      && PassesOn(layers, 0, ContextOf(req), req, out)
  }

  ghost predicate PassesOn(layers: seq<Layer>, i: nat, ctx: Context, req: Request, out: Request)
    requires layers != [] && i <= |LinksOf(layers[0])|
    decreases |layers|, 0
  {
    exists below :: PassesLinks(LinksOf(layers[0])[i..], ctx, req, below) && Passes(layers[1..], below, out)
  }

  /** The handler is only ever run on a request that passed every layer. */
  lemma {:induction false} HandledHasPassed(layers: seq<Layer>, handler: Request -> Response, req: Request,
      log: seq<Event>, out: Request)
    requires WellFormed(layers)
    ensures var log' := Serve(layers, handler, req, log).1;
      log <= log' && (Handled(out) in log'[|log|..] ==> Passes(layers, req, out))
    decreases |layers|, 1, 0, 0, 0
  {
    HandlerRunsAtMostOnce(layers, handler, req, log);
    if layers != [] {
      if layers[0].MiddlewareLayer? && layers[0].bindings == [] {
        HandledHasPassed(layers[1..], handler, req, log, out);
        assert layers[0].bindings[0..] == [];
        assert PassesLinks([], ContextOf(req), req, req);
      } else if layers[0].MiddlewareLayer? || RunGuards(layers[0].guards, ContextOf(req)).None? {
        ChainHasPassed(layers, handler, 0, ContextOf(req), req, true, log + Admission(layers, ContextOf(req)), out);
      }
    }
  }

  lemma {:induction false} ChainHasPassed(layers: seq<Layer>, handler: Request -> Response, i: nat, ctx: Context,
      req: Request, open: bool, log: seq<Event>, out: Request)
    requires WellFormed(layers) && layers != [] && i <= |LinksOf(layers[0])|
    ensures var log' := Chain(layers, handler, i, ctx, req, open, log).2;
      log <= log' && (Handled(out) in log'[|log|..] ==> PassesOn(layers, i, ctx, req, out))
    decreases |layers|, 0, |LinksOf(layers[0])| - i, 1, 0
  {
    var links := LinksOf(layers[0]);
    ChainRunsAtMostOnce(layers, handler, i, ctx, req, open, log);
    if i == |links| {
      assert links[i..] == [];
      if open {
        HandledHasPassed(layers[1..], handler, req, log, out);
      }
    } else {
      assert links[i..][0] == links[i] && links[i..][1..] == links[i + 1..];
      if !Applies(links[i], req) {
        ChainHasPassed(layers, handler, i + 1, ctx, req, open, log, out);
      } else {
        LinkHasPassed(layers, handler, i, ctx, req, [], open, log + [Entered(links[i].id)], out);
      }
    }
  }

  ghost predicate PassesLink(layers: seq<Layer>, i: nat, ctx: Context, req: Request, out: Request)
    requires layers != [] && i < |LinksOf(layers[0])|
  {
    exists next :: HandsOn(LinksOf(layers[0])[i], ctx, req, next) && PassesOn(layers, i + 1, ctx, next, out)
  }

  lemma {:induction false} LinkHasPassed(layers: seq<Layer>, handler: Request -> Response, i: nat, ctx: Context,
      req: Request, h: seq<Response>, open: bool, log: seq<Event>, out: Request)
    requires WellFormed(layers) && layers != [] && i < |LinksOf(layers[0])|
    requires HasCalled(LinksOf(layers[0])[i], ctx, req, h)
    ensures var log' := RunLink(layers, handler, i, ctx, req, h, open, log).2;
      log <= log' && (Handled(out) in log'[|log|..] ==> PassesLink(layers, i, ctx, req, out))
    decreases |layers|, 0, |LinksOf(layers[0])| - i, 0, Remaining(LinksOf(layers[0])[i], h)
  {
    var link := LinksOf(layers[0])[i];
    assert link in LinksOf(layers[0]) && layers[0] in layers && Finite(link);
    var act := ActOf(link, ctx, req, h);
    if act.CallNext? {
      assert HandsOn(link, ctx, req, act.request);
      ChainHasPassed(layers, handler, i + 1, ctx, act.request, open, log, out);
      var (r, open1, log1) := Chain(layers, handler, i + 1, ctx, act.request, open, log);
      assert HasCalled(link, ctx, req, h + [r]) by {
        forall k | 0 <= k < |h + [r]|
          ensures ActOf(link, ctx, req, (h + [r])[..k]).CallNext?
        {
          assert (h + [r])[..k] == h[..k];
          assert k == |h| ==> h[..k] == h;
        }
      }
      LinkHasPassed(layers, handler, i, ctx, req, h + [r], open1, log1, out);
      var log2 := RunLink(layers, handler, i, ctx, req, h + [r], open1, log1).2;
      assert log2[|log|..] == log1[|log|..] + log2[|log1|..];
    }
  }
}
