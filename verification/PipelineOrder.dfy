/** In which order the layers of the pipeline run, and what filters and matchers can change. */
module PipelineOrder {
  import opened Prelude
  import opened RouteMatching
  import opened Pipeline

  ghost predicate CallsNextOnce(link: Link) {
    forall ctx, req :: ActOf(link, ctx, req, []).CallNext? && forall r :: ActOf(link, ctx, req, [r]).Reply?
  }

  ghost predicate AllCallOnce(links: seq<Link>) {
    forall link | link in links :: CallsNextOnce(link)
  }

  ghost predicate WellBehaved(layers: seq<Layer>) {
    forall layer | layer in layers :: AllCallOnce(LinksOf(layer))
  }

  /** The request a link hands on. */
  ghost function Passed(link: Link, ctx: Context, req: Request): Request
    requires CallsNextOnce(link)
  {
    ActOf(link, ctx, req, []).request
  }

  /** The request as it leaves the links, innermost last. */
  ghost function Forwarded(links: seq<Link>, ctx: Context, req: Request): Request
    requires AllCallOnce(links)
  {
    if links == [] then req
    else Forwarded(links[1..], ctx, if Applies(links[0], req) then Passed(links[0], ctx, req) else req)
  }

  /** The links that apply to the request as each of them receives it, outermost first. */
  ghost function Crossed(links: seq<Link>, ctx: Context, req: Request): seq<nat>
    requires AllCallOnce(links)
  {
    if links == [] then []
    else if !Applies(links[0], req) then Crossed(links[1..], ctx, req)
    else [links[0].id] + Crossed(links[1..], ctx, Passed(links[0], ctx, req))
  }

  function Enters(ids: seq<nat>): (r: seq<Event>)
    ensures |r| == |ids| && forall i | 0 <= i < |ids| :: r[i] == Entered(ids[i])
  {
    if ids == [] then [] else [Entered(ids[0])] + Enters(ids[1..])
  }

  /** Links are left in the reverse of the order in which they were entered. */
  function Leaves(ids: seq<nat>): (r: seq<Event>)
    ensures |r| == |ids| && forall i | 0 <= i < |ids| :: r[i] == Left(ids[|ids| - 1 - i])
  {
    if ids == [] then [] else Leaves(ids[1..]) + [Left(ids[0])]
  }

  /** Every layer's guards accept the request that reaches that layer. */
  ghost predicate Admits(layers: seq<Layer>, req: Request)
    requires WellBehaved(layers)
  {
    layers == [] ||
      var layer, ctx := layers[0], ContextOf(req);
      assert layer in layers;
      && (layer.PipelineLayer? ==> RunGuards(layer.guards, ctx).None?)
      && Admits(layers[1..], Forwarded(LinksOf(layer), ctx, req))
  }

  /**
   The onion: each layer is admitted, its links are entered in order, the inner layers run, the links are left in
   reverse.
   */
  ghost function Onion(layers: seq<Layer>, req: Request): seq<Event>
    requires WellBehaved(layers)
  {
    if layers == [] then [Handled(req)]
    else
      var layer, ctx := layers[0], ContextOf(req);
      assert layer in layers;
      var ids := Crossed(LinksOf(layer), ctx, req);
      Admission(layers, ctx) + Enters(ids) + Onion(layers[1..], Forwarded(LinksOf(layer), ctx, req)) + Leaves(ids)
  }

  /** What the links, outermost first, make of the response `r` from inside them. */
  ghost function Outward(links: seq<Link>, ctx: Context, req: Request, r: Response): Response
    requires AllCallOnce(links)
  {
    if links == [] then r
    else if !Applies(links[0], req) then Outward(links[1..], ctx, req, r)
    else
      ActOf(links[0], ctx, req, [Outward(links[1..], ctx, Passed(links[0], ctx, req), r)]).response
  }

  lemma {:induction false} UnfoldAt(all: seq<Link>, i: nat, ctx: Context, req: Request, r: Response)
    requires i < |all| && AllCallOnce(all[i..])
    ensures AllCallOnce(all[i + 1..]) && CallsNextOnce(all[i])
    ensures var rest := all[i + 1..];
      if Applies(all[i], req) then
        var req' := Passed(all[i], ctx, req);
        && Crossed(all[i..], ctx, req) == [all[i].id] + Crossed(rest, ctx, req')
        && Forwarded(all[i..], ctx, req) == Forwarded(rest, ctx, req')
        && Outward(all[i..], ctx, req, r) == ActOf(all[i], ctx, req, [Outward(rest, ctx, req', r)]).response
      else
        && Crossed(all[i..], ctx, req) == Crossed(rest, ctx, req)
        && Forwarded(all[i..], ctx, req) == Forwarded(rest, ctx, req)
        && Outward(all[i..], ctx, req, r) == Outward(rest, ctx, req, r)
  {
    assert all[i..][1..] == all[i + 1..] && all[i..][0] == all[i] && all[i] in all[i..];
    assert forall link | link in all[i + 1..] :: link in all[i..];
  }

  /** A link that calls `next` once replies to what the rest of the chain answers, and logs nothing else. */
  lemma {:induction false} RunsOnce(layers: seq<Layer>, handler: Request -> Response, i: nat, ctx: Context,
      req: Request, open: bool, log: seq<Event>)
    requires Pipeline.WellFormed(layers) && layers != [] && i < |LinksOf(layers[0])|
      && CallsNextOnce(LinksOf(layers[0])[i])
    ensures var link := LinksOf(layers[0])[i];
      var (r, open', log') := Chain(layers, handler, i + 1, ctx, Passed(link, ctx, req), open, log);
      RunLink(layers, handler, i, ctx, req, [], open, log) == (ActOf(link, ctx, req, [r]).response, open', log')
  {
    var link := LinksOf(layers[0])[i];
    assert link in LinksOf(layers[0]) && layers[0] in layers && Finite(link);
    var (r, open', log') := Chain(layers, handler, i + 1, ctx, Passed(link, ctx, req), open, log);
    assert [] + [r] == [r];
    assert ActOf(link, ctx, req, [r]).Reply?;
  }

  /** What stands at the end of a layer's chain: the inner layers, or the refusal of a second `next`. */
  ghost function Core(layers: seq<Layer>, handler: Request -> Response, req: Request, open: bool,
      log: seq<Event>): (Response, seq<Event>)
    requires Pipeline.WellFormed(layers) && layers != []
  {
    if open then Serve(layers[1..], handler, req, log) else (NextTwice(layers[0]), log)
  }

  /** Links that call `next` once stand around the end of the chain: entered in order, left in reverse. */
  lemma {:induction false} ChainWraps(layers: seq<Layer>, handler: Request -> Response, i: nat, ctx: Context,
      req: Request, open: bool, log: seq<Event>)
    requires Pipeline.WellFormed(layers) && layers != [] && i <= |LinksOf(layers[0])|
    requires AllCallOnce(LinksOf(layers[0])[i..])
    ensures var links := LinksOf(layers[0])[i..];
      var ids := Crossed(links, ctx, req);
      var (r, log') := Core(layers, handler, Forwarded(links, ctx, req), open, log + Enters(ids));
      Chain(layers, handler, i, ctx, req, open, log) == (Outward(links, ctx, req, r), false, log' + Leaves(ids))
    decreases |LinksOf(layers[0])| - i
  {
    var all := LinksOf(layers[0]);
    if i == |all| {
      assert all[i..] == [] && log + Enters([]) == log;
      var log' := Core(layers, handler, req, open, log).1;
      assert log' + Leaves([]) == log';
    } else {
      var link, rest := all[i], all[i + 1..];
      UnfoldAt(all, i, ctx, req, handler(req));
      if Applies(link, req) {
        var req', log1 := Passed(link, ctx, req), log + [Entered(link.id)];
        ChainWraps(layers, handler, i + 1, ctx, req', open, log1);
        RunsOnce(layers, handler, i, ctx, req, open, log1);
        var ids := Crossed(rest, ctx, req');
        CrossOne(link.id, ids);
        Regroup(log, Entered(link.id), Enters(ids));
        var (r, log') := Core(layers, handler, Forwarded(rest, ctx, req'), open, log1 + Enters(ids));
        UnfoldAt(all, i, ctx, req, r);
        RegroupBack(log', Leaves(ids), Left(link.id));
      } else {
        ChainWraps(layers, handler, i + 1, ctx, req, open, log);
        var (r, _) := Core(layers, handler, Forwarded(rest, ctx, req), open, log + Enters(Crossed(rest, ctx, req)));
        UnfoldAt(all, i, ctx, req, r);
      }
    }
  }

  lemma {:induction false} Regroup<T>(log: seq<T>, e: T, es: seq<T>)
    ensures log + [e] + es == log + ([e] + es)
  {
  }

  lemma {:induction false} RegroupBack<T>(log: seq<T>, ls: seq<T>, l: T)
    ensures log + ls + [l] == log + (ls + [l])
  {
  }

  lemma {:induction false} CrossOne(id: nat, ids: seq<nat>)
    ensures Enters([id] + ids) == [Entered(id)] + Enters(ids) && Leaves([id] + ids) == Leaves(ids) + [Left(id)]
  {
    assert ([id] + ids)[1..] == ids;
  }

  /** The request that reaches the layer below. */
  ghost function Below(layer: Layer, req: Request): Request
    requires AllCallOnce(LinksOf(layer))
  {
    Forwarded(LinksOf(layer), ContextOf(req), req)
  }

  ghost function CrossedIn(layer: Layer, req: Request): seq<nat>
    requires AllCallOnce(LinksOf(layer))
  {
    Crossed(LinksOf(layer), ContextOf(req), req)
  }

  /**
   A layer whose guards accept and whose links call `next` once, around any inner layers: they get the request as the
   links hand it on, and the links make the answer of theirs.
   */
  lemma {:induction false} LayerWraps(layers: seq<Layer>, handler: Request -> Response, req: Request, log: seq<Event>)
    requires Pipeline.WellFormed(layers) && layers != [] && AllCallOnce(LinksOf(layers[0]))
    requires layers[0].PipelineLayer? ==> RunGuards(layers[0].guards, ContextOf(req)).None?
    ensures var links, ctx := LinksOf(layers[0]), ContextOf(req);
      var ids := Crossed(links, ctx, req);
      var (r, log') := Serve(layers[1..], handler, Below(layers[0], req), log + Admission(layers, ctx) + Enters(ids));
      Serve(layers, handler, req, log) == (Outward(links, ctx, req, r), log' + Leaves(ids))
  {
    var links, ctx := LinksOf(layers[0]), ContextOf(req);
    assert links[0..] == links;
    if layers[0].MiddlewareLayer? && layers[0].bindings == [] {
      assert log + Admission(layers, ctx) + Enters([]) == log;
      var (r, log') := Serve(layers[1..], handler, req, log);
      assert log' + Leaves([]) == log';
    } else {
      ChainWraps(layers, handler, 0, ctx, req, true, log + Admission(layers, ctx));
    }
  }

  lemma {:induction false} ServeIsOnion(layers: seq<Layer>, handler: Request -> Response, req: Request, log: seq<Event>)
    requires Pipeline.WellFormed(layers) && WellBehaved(layers) && Admits(layers, req)
    ensures Serve(layers, handler, req, log).1 == log + Onion(layers, req)
    decreases |layers|
  {
    if layers != [] {
      var layer, ctx := layers[0], ContextOf(req);
      assert layer in layers;
      var ids := Crossed(LinksOf(layer), ctx, req);
      LayerWraps(layers, handler, req, log);
      ServeIsOnion(layers[1..], handler, Below(layer, req), log + Admission(layers, ctx) + Enters(ids));
      Nest(log, Admission(layers, ctx), Enters(ids), Onion(layers[1..], Below(layer, req)), Leaves(ids));
    }
  }

  lemma {:induction false} Nest<T>(a: seq<T>, b: seq<T>, c: seq<T>, d: seq<T>, e: seq<T>)
    ensures a + b + c + d + e == a + (b + c + d + e)
  {
  }

  lemma {:induction false} OnionUnfolds(layer: Layer, inner: seq<Layer>, req: Request)
    requires WellBehaved([layer] + inner)
    ensures AllCallOnce(LinksOf(layer)) && WellBehaved(inner)
    ensures Onion([layer] + inner, req)
         == Admission([layer] + inner, ContextOf(req)) + Enters(CrossedIn(layer, req)) + Onion(inner, Below(layer, req))
           + Leaves(CrossedIn(layer, req))
  {
    var layers := [layer] + inner;
    assert layer in layers && layers[1..] == inner;
    assert forall l | l in inner :: l in layers;
  }

  /** The three layers of an application: middleware outside global interceptors outside route interceptors. */
  lemma {:induction false} ApplicationRunsAsOnion(middleware: Layer, global: Layer, route: Layer,
      handler: Request -> Response, req: Request)
    requires middleware.MiddlewareLayer? && global.PipelineLayer? && route.PipelineLayer?
    requires var layers := [middleware, global, route];
      Pipeline.WellFormed(layers) && WellBehaved(layers) && Admits(layers, req)
    ensures AllCallOnce(LinksOf(middleware)) && AllCallOnce(LinksOf(global)) && AllCallOnce(LinksOf(route))
    ensures var req1 := Below(middleware, req);
      var req2 := Below(global, req1);
      var m, g, r := CrossedIn(middleware, req), CrossedIn(global, req1), CrossedIn(route, req2);
      Serve([middleware, global, route], handler, req, []).1 ==
        [] + Enters(m)
          + ([Admitted(2, ContextOf(req1))] + Enters(g)
            + ([Admitted(1, ContextOf(req2))] + Enters(r) + [Handled(Below(route, req2))] + Leaves(r))
            + Leaves(g))
          + Leaves(m)
  {
    var layers := [middleware, global, route];
    ServeIsOnion(layers, handler, req, []);
    assert layers == [middleware] + [global, route] && [global, route] == [global] + [route] && [route] == [route] + [];
    OnionUnfolds(middleware, [global, route], req);
    OnionUnfolds(global, [route], Below(middleware, req));
    OnionUnfolds(route, [], Below(global, Below(middleware, req)));
    assert [] + Onion(layers, req) == Onion(layers, req);
  }

  // ---------------------------------------------------------------- a refusal ends the run

  /** A link that applies and replies without calling `next` ends the chain with its reply. */
  lemma {:induction false} ReplyEndsChain(layers: seq<Layer>, handler: Request -> Response, i: nat, ctx: Context,
      req: Request, open: bool, log: seq<Event>)
    requires Pipeline.WellFormed(layers) && layers != [] && i < |LinksOf(layers[0])|
    requires Applies(LinksOf(layers[0])[i], req) && ActOf(LinksOf(layers[0])[i], ctx, req, []).Reply?
    ensures var link := LinksOf(layers[0])[i];
      Chain(layers, handler, i, ctx, req, open, log)
      == (ActOf(link, ctx, req, []).response, open, log + [Entered(link.id), Left(link.id)])
  {
    var link := LinksOf(layers[0])[i];
    assert log + [Entered(link.id)] + [Left(link.id)] == log + [Entered(link.id), Left(link.id)];
  }

  /** The link replies at once to the request that the links before it hand on to it. */
  ghost predicate RefusesAt(links: seq<Link>, k: nat, ctx: Context, req: Request)
    requires k < |links| && AllCallOnce(links[..k])
  {
    var req' := Forwarded(links[..k], ctx, req);
    Applies(links[k], req') && ActOf(links[k], ctx, req', []).Reply?
  }

  /** What the client of the links gets then: the reply, as the links before make it. */
  ghost function Refusal(links: seq<Link>, k: nat, ctx: Context, req: Request): Response
    requires k < |links| && AllCallOnce(links[..k]) && RefusesAt(links, k, ctx, req)
  {
    Outward(links[..k], ctx, req, ActOf(links[k], ctx, Forwarded(links[..k], ctx, req), []).response)
  }

  ghost predicate NoneHandled(log: seq<Event>) {
    forall i | 0 <= i < |log| :: !log[i].Handled?
  }

  /** From `log` to `log'` nothing was lost and the handler did not run. */
  ghost predicate Unhandled(log: seq<Event>, log': seq<Event>) {
    log <= log' && NoneHandled(log'[|log|..])
  }

  lemma {:induction false} UnhandledThen(log: seq<Event>, log1: seq<Event>, log2: seq<Event>)
    requires Unhandled(log, log1) && Unhandled(log1, log2)
    ensures Unhandled(log, log2)
  {
    assert log2[|log|..] == log1[|log|..] + log2[|log1|..];
  }

  lemma {:induction false} UnhandledPlus(log: seq<Event>, more: seq<Event>)
    requires NoneHandled(more)
    ensures Unhandled(log, log + more)
  {
    assert (log + more)[|log|..] == more;
  }

  lemma {:induction false} ChainRefuses(layers: seq<Layer>, handler: Request -> Response, i: nat, k: nat, ctx: Context,
      req: Request, open: bool, log: seq<Event>)
    requires Pipeline.WellFormed(layers) && layers != [] && i + k < |LinksOf(layers[0])|
    requires AllCallOnce(LinksOf(layers[0])[i..][..k]) && RefusesAt(LinksOf(layers[0])[i..], k, ctx, req)
    ensures var (r, _, log') := Chain(layers, handler, i, ctx, req, open, log);
      r == Refusal(LinksOf(layers[0])[i..], k, ctx, req) && Unhandled(log, log')
    decreases k
  {
    var all := LinksOf(layers[0]);
    var links := all[i..];
    if k == 0 {
      assert links[..0] == [] && links[0] == all[i];
      ReplyEndsChain(layers, handler, i, ctx, req, open, log);
      UnhandledPlus(log, [Entered(all[i].id), Left(all[i].id)]);
    } else {
      var head, rest := links[..k], all[i + 1..];
      assert head[0] == all[i] && head[1..] == rest[..k - 1] && links[k] == rest[k - 1] && all[i] in head;
      assert forall link | link in rest[..k - 1] :: link in head;
      if Applies(all[i], req) {
        var req', log1 := Passed(all[i], ctx, req), log + [Entered(all[i].id)];
        ChainRefuses(layers, handler, i + 1, k - 1, ctx, req', open, log1);
        RunsOnce(layers, handler, i, ctx, req, open, log1);
        var log2 := Chain(layers, handler, i + 1, ctx, req', open, log1).2;
        UnhandledPlus(log, [Entered(all[i].id)]);
        UnhandledPlus(log2, [Left(all[i].id)]);
        UnhandledThen(log, log1, log2);
        UnhandledThen(log, log2, log2 + [Left(all[i].id)]);
      } else {
        ChainRefuses(layers, handler, i + 1, k - 1, ctx, req, open, log);
      }
    }
  }

  /** The outermost layer turns the request away: a guard rejects it, or a link replies at once. */
  ghost predicate TurnsAway(layer: Layer, k: nat, req: Request) {
    var ctx := ContextOf(req);
    if layer.PipelineLayer? && RunGuards(layer.guards, ctx).Some? then true
    else k < |LinksOf(layer)| && AllCallOnce(LinksOf(layer)[..k]) && RefusesAt(LinksOf(layer), k, ctx, req)
  }

  /** What comes back: the rejection as the layer's own filters leave it, or the reply as the links before make it. */
  ghost function TurnedAway(layer: Layer, k: nat, req: Request): Response
    requires TurnsAway(layer, k, req)
  {
    var ctx := ContextOf(req);
    if layer.PipelineLayer? && RunGuards(layer.guards, ctx).Some? then
      IntoResponse(ApplyFilters(RunGuards(layer.guards, ctx).value, ctx, layer.filters))
    else Refusal(LinksOf(layer), k, ctx, req)
  }

  lemma {:induction false} LayerTurnsAway(layers: seq<Layer>, handler: Request -> Response, k: nat, req: Request,
      log: seq<Event>)
    requires Pipeline.WellFormed(layers) && layers != [] && TurnsAway(layers[0], k, req)
    ensures var (r, log') := Serve(layers, handler, req, log);
      r == TurnedAway(layers[0], k, req) && Unhandled(log, log')
  {
    var layer, ctx := layers[0], ContextOf(req);
    if layer.PipelineLayer? && RunGuards(layer.guards, ctx).Some? {
      UnhandledPlus(log, [Rejected(|layers|, ctx)]);
    } else {
      assert LinksOf(layer)[0..] == LinksOf(layer);
      ChainRefuses(layers, handler, 0, k, ctx, req, true, log + Admission(layers, ctx));
      UnhandledPlus(log, Admission(layers, ctx));
      UnhandledThen(log, log + Admission(layers, ctx), Serve(layers, handler, req, log).1);
    }
  }

  /** What the layers, outermost first, make of the response `r` from inside them. */
  ghost function OutwardAll(layers: seq<Layer>, req: Request, r: Response): Response
    requires WellBehaved(layers)
  {
    if layers == [] then r
    else
      assert layers[0] in layers;
      Outward(LinksOf(layers[0]), ContextOf(req), req, OutwardAll(layers[1..], Below(layers[0], req), r))
  }

  /** The request as it arrives below the layers. */
  ghost function Arriving(layers: seq<Layer>, req: Request): Request
    requires WellBehaved(layers)
  {
    if layers == [] then req
    else
      assert layers[0] in layers;
      Arriving(layers[1..], Below(layers[0], req))
  }

  /**
   Below any layers that let the request through, a layer that turns it away ends the run: the handler is not run, and
   the client gets the refusal as the links outside make it.
   */
  lemma {:induction false} RefusalEndsRun(outer: seq<Layer>, layer: Layer, inner: seq<Layer>, k: nat,
      handler: Request -> Response, req: Request, log: seq<Event>)
    requires Pipeline.WellFormed(outer + [layer] + inner) && WellBehaved(outer) && Admits(outer, req)
    requires TurnsAway(layer, k, Arriving(outer, req))
    ensures var (r, log') := Serve(outer + [layer] + inner, handler, req, log);
      r == OutwardAll(outer, req, TurnedAway(layer, k, Arriving(outer, req))) && Unhandled(log, log')
    decreases |outer|
  {
    var layers := outer + [layer] + inner;
    if outer == [] {
      assert layers[0] == layer;
      LayerTurnsAway(layers, handler, k, req, log);
    } else {
      var ctx, ids := ContextOf(req), Crossed(LinksOf(outer[0]), ContextOf(req), req);
      assert layers[0] == outer[0] && layers[1..] == outer[1..] + [layer] + inner && outer[0] in outer;
      var log1 := log + Admission(layers, ctx) + Enters(ids);
      LayerWraps(layers, handler, req, log);
      RefusalEndsRun(outer[1..], layer, inner, k, handler, Below(outer[0], req), log1);
      UnhandledPlus(log, Admission(layers, ctx));
      UnhandledPlus(log + Admission(layers, ctx), Enters(ids));
      UnhandledThen(log, log + Admission(layers, ctx), log1);
      var log2 := Serve(layers[1..], handler, Below(outer[0], req), log1).1;
      UnhandledThen(log, log1, log2);
      UnhandledPlus(log2, Leaves(ids));
      UnhandledThen(log, log2, log2 + Leaves(ids));
    }
  }

  // ---------------------------------------------------------------- skipping is filtering

  /** The middleware passes on the method and path it was given. */
  ghost predicate KeepsRoute(link: Link) {
    forall ctx, req, h | ActOf(link, ctx, req, h).CallNext? ::
      var req' := ActOf(link, ctx, req, h).request;
      req'.verb == req.verb && req'.path == req.path
  }

  /** The bindings whose matcher accepts the method and path, in order. */
  function Select(links: seq<Link>, verb: string, path: string): (r: seq<Link>)
    ensures forall link | link in r :: link in links
  {
    if links == [] then []
    else
      var rest := Select(links[1..], verb, path);
      if links[0].Middleware? && !MatcherMatches(links[0].matcher, verb, path) then rest else [links[0]] + rest
  }

  lemma {:induction false} ChainSkipsAsSelected(layers: seq<Layer>, selected: seq<Layer>,
      handler: Request -> Response, i: nat, j: nat, ctx: Context, req: Request, open: bool, log: seq<Event>)
    requires Pipeline.WellFormed(layers) && Pipeline.WellFormed(selected) && layers != [] && selected != []
    requires layers[0].MiddlewareLayer? && selected[0].MiddlewareLayer? && layers[1..] == selected[1..]
    requires i <= |LinksOf(layers[0])| && j <= |LinksOf(selected[0])|
    requires LinksOf(selected[0])[j..] == Select(LinksOf(layers[0])[i..], req.verb, req.path)
    requires forall link | link in LinksOf(layers[0]) :: KeepsRoute(link)
    ensures Chain(layers, handler, i, ctx, req, open, log) == Chain(selected, handler, j, ctx, req, open, log)
    decreases |LinksOf(layers[0])| - i, 1, 0
  {
    var links, chosen := LinksOf(layers[0]), LinksOf(selected[0]);
    if i < |links| {
      assert links[i..][0] == links[i] && links[i..][1..] == links[i + 1..];
      if !Applies(links[i], req) {
        ChainSkipsAsSelected(layers, selected, handler, i + 1, j, ctx, req, open, log);
      } else {
        assert chosen[j..][0] == chosen[j] == links[i];
        assert chosen[j..][1..] == chosen[j + 1..];
        LinkSkipsAsSelected(layers, selected, handler, i, j, ctx, req, [], open, log + [Entered(links[i].id)]);
      }
    }
  }

  lemma {:induction false} LinkSkipsAsSelected(layers: seq<Layer>, selected: seq<Layer>, handler: Request -> Response,
      i: nat, j: nat, ctx: Context, req: Request, h: seq<Response>, open: bool, log: seq<Event>)
    requires Pipeline.WellFormed(layers) && Pipeline.WellFormed(selected) && layers != [] && selected != []
    requires layers[0].MiddlewareLayer? && selected[0].MiddlewareLayer? && layers[1..] == selected[1..]
    requires i < |LinksOf(layers[0])| && j < |LinksOf(selected[0])| && LinksOf(layers[0])[i] == LinksOf(selected[0])[j]
    requires LinksOf(selected[0])[j + 1..] == Select(LinksOf(layers[0])[i + 1..], req.verb, req.path)
    requires forall link | link in LinksOf(layers[0]) :: KeepsRoute(link)
    ensures RunLink(layers, handler, i, ctx, req, h, open, log) == RunLink(selected, handler, j, ctx, req, h, open, log)
    decreases |LinksOf(layers[0])| - i, 0, Remaining(LinksOf(layers[0])[i], h)
  {
    var link := LinksOf(layers[0])[i];
    assert link in LinksOf(layers[0]) && layers[0] in layers && Finite(link) && KeepsRoute(link);
    var act := ActOf(link, ctx, req, h);
    if act.CallNext? {
      ChainSkipsAsSelected(layers, selected, handler, i + 1, j + 1, ctx, act.request, open, log);
      var (r, open', log') := Chain(layers, handler, i + 1, ctx, act.request, open, log);
      LinkSkipsAsSelected(layers, selected, handler, i, j, ctx, req, h + [r], open', log');
    }
  }

  /**
   For middleware that keeps method and path, running the chain equals running the bindings that match the request.
   */
  lemma {:induction false} SkippingIsFiltering(bindings: seq<Link>, inner: seq<Layer>, handler: Request -> Response,
      req: Request, log: seq<Event>)
    requires Pipeline.WellFormed([MiddlewareLayer(bindings)] + inner)
    requires forall link | link in bindings :: link.Middleware? && KeepsRoute(link)
    ensures Pipeline.WellFormed([MiddlewareLayer(Select(bindings, req.verb, req.path))] + inner)
    ensures Serve([MiddlewareLayer(bindings)] + inner, handler, req, log)
         == Serve([MiddlewareLayer(Select(bindings, req.verb, req.path))] + inner, handler, req, log)
  {
    var chosen := Select(bindings, req.verb, req.path);
    var layers, selected := [MiddlewareLayer(bindings)] + inner, [MiddlewareLayer(chosen)] + inner;
    assert layers[0] in layers;
    forall layer, link | layer in selected && link in LinksOf(layer)
      ensures Finite(link)
    {
      if layer == selected[0] {
        assert link in LinksOf(layers[0]);
      } else {
        assert layer in layers;
      }
    }
    assert layers[1..] == inner == selected[1..];
    assert bindings[0..] == bindings && chosen[0..] == chosen;
    ChainSkipsAsSelected(layers, selected, handler, 0, 0, ContextOf(req), req, true, log);
    assert log + [] == log;
  }

  // ---------------------------------------------------------------- what exception filters touch

  function WithoutFilters(layer: Layer): Layer {
    if layer.PipelineLayer? then layer.(filters := []) else layer
  }

  function AllWithoutFilters(layers: seq<Layer>): (r: seq<Layer>)
    ensures |r| == |layers| && forall i | 0 <= i < |layers| :: r[i] == WithoutFilters(layers[i])
  {
    if layers == [] then [] else [WithoutFilters(layers[0])] + AllWithoutFilters(layers[1..])
  }

  ghost predicate NoRejection(log: seq<Event>) {
    forall i | 0 <= i < |log| :: !log[i].Rejected?
  }

  /** A run in which no guard rejects is, for any guards and whatever the handler answers, the run without filters. */
  lemma {:induction false} FiltersSeeOnlyRejections(layers: seq<Layer>, handler: Request -> Response, req: Request,
      log: seq<Event>)
    requires Pipeline.WellFormed(layers) && NoRejection(Serve(layers, handler, req, log).1)
    ensures Pipeline.WellFormed(AllWithoutFilters(layers))
    ensures Serve(AllWithoutFilters(layers), handler, req, log) == Serve(layers, handler, req, log)
    decreases |layers|, 1, 0, 0, 0
  {
    var bare := AllWithoutFilters(layers);
    BareIsWellFormed(layers);
    if layers != [] {
      assert bare[1..] == AllWithoutFilters(layers[1..]);
      var ctx := ContextOf(req);
      if layers[0].MiddlewareLayer? && layers[0].bindings == [] {
        FiltersSeeOnlyRejections(layers[1..], handler, req, log);
      } else if layers[0].PipelineLayer? && RunGuards(layers[0].guards, ctx).Some? {
        RejectionIsLogged(log, Rejected(|layers|, ctx));
      } else {
        ChainIgnoresFilters(layers, handler, 0, ctx, req, true, log + Admission(layers, ctx));
      }
    }
  }

  lemma {:induction false} RejectionIsLogged(log: seq<Event>, e: Event)
    requires e.Rejected?
    ensures !NoRejection(log + [e])
  {
    assert (log + [e])[|log|] == e;
  }

  lemma {:induction false} BareIsWellFormed(layers: seq<Layer>)
    requires Pipeline.WellFormed(layers)
    ensures Pipeline.WellFormed(AllWithoutFilters(layers))
  {
    var bare := AllWithoutFilters(layers);
    forall layer, link | layer in bare && link in LinksOf(layer)
      ensures Finite(link)
    {
      var i :| 0 <= i < |bare| && bare[i] == layer;
      assert layers[i] in layers && LinksOf(layers[i]) == LinksOf(layer);
    }
  }

  lemma {:induction false} ChainIgnoresFilters(layers: seq<Layer>, handler: Request -> Response, i: nat, ctx: Context,
      req: Request, open: bool, log: seq<Event>)
    requires Pipeline.WellFormed(layers) && Pipeline.WellFormed(AllWithoutFilters(layers))
    requires layers != [] && i <= |LinksOf(layers[0])|
    requires NoRejection(Chain(layers, handler, i, ctx, req, open, log).2)
    ensures Chain(AllWithoutFilters(layers), handler, i, ctx, req, open, log)
         == Chain(layers, handler, i, ctx, req, open, log)
    decreases |layers|, 0, |LinksOf(layers[0])| - i, 1, 0
  {
    var links, bare := LinksOf(layers[0]), AllWithoutFilters(layers);
    if i == |links| {
      assert bare[1..] == AllWithoutFilters(layers[1..]);
      if open {
        FiltersSeeOnlyRejections(layers[1..], handler, req, log);
      }
    } else if !Applies(links[i], req) {
      ChainIgnoresFilters(layers, handler, i + 1, ctx, req, open, log);
    } else {
      var log1 := log + [Entered(links[i].id)];
      BeforeLeaving(RunLink(layers, handler, i, ctx, req, [], open, log1).2, links[i].id);
      LinkIgnoresFilters(layers, handler, i, ctx, req, [], open, log1);
    }
  }

  lemma {:induction false} BeforeLeaving(log: seq<Event>, id: nat)
    requires NoRejection(log + [Left(id)])
    ensures NoRejection(log)
  {
    forall i | 0 <= i < |log|
      ensures !log[i].Rejected?
    {
      assert (log + [Left(id)])[i] == log[i];
    }
  }

  lemma {:induction false} LinkIgnoresFilters(layers: seq<Layer>, handler: Request -> Response, i: nat, ctx: Context,
      req: Request, h: seq<Response>, open: bool, log: seq<Event>)
    requires Pipeline.WellFormed(layers) && Pipeline.WellFormed(AllWithoutFilters(layers))
    requires layers != [] && i < |LinksOf(layers[0])|
    requires NoRejection(RunLink(layers, handler, i, ctx, req, h, open, log).2)
    ensures RunLink(AllWithoutFilters(layers), handler, i, ctx, req, h, open, log)
         == RunLink(layers, handler, i, ctx, req, h, open, log)
    decreases |layers|, 0, |LinksOf(layers[0])| - i, 0, Remaining(LinksOf(layers[0])[i], h)
  {
    var link := LinksOf(layers[0])[i];
    assert link in LinksOf(layers[0]) && layers[0] in layers && Finite(link);
    var act := ActOf(link, ctx, req, h);
    if act.CallNext? {
      var (r, open', log') := Chain(layers, handler, i + 1, ctx, act.request, open, log);
      LinkRunsAtMostOnce(layers, handler, i, ctx, req, h + [r], open', log');
      ChainIgnoresFilters(layers, handler, i + 1, ctx, act.request, open, log);
      LinkIgnoresFilters(layers, handler, i, ctx, req, h + [r], open', log');
    }
  }

  // ---------------------------------------------------------------- when a handler's failure passes as filtered

  /** The link calls `next` once and hands on the response it gets. */
  ghost predicate Relays(link: Link) {
    CallsNextOnce(link) && forall ctx, req, r :: ActOf(link, ctx, req, [r]) == Reply(r)
  }

  ghost predicate AllRelay(layers: seq<Layer>) {
    forall layer, link | layer in layers && link in LinksOf(layer) :: Relays(link)
  }

  lemma {:induction false} RelayedAnswer(layers: seq<Layer>, handler: Request -> Response, req: Request,
      log: seq<Event>)
    requires Pipeline.WellFormed(layers) && WellBehaved(layers) && AllRelay(layers) && Admits(layers, req)
    ensures Serve(layers, handler, req, log).0 == handler(Arriving(layers, req))
    decreases |layers|
  {
    if layers != [] {
      var layer, ctx := layers[0], ContextOf(req);
      assert layer in layers;
      var inner := log + Admission(layers, ctx) + Enters(Crossed(LinksOf(layer), ctx, req));
      LayerWraps(layers, handler, req, log);
      RelayedAnswer(layers[1..], handler, Below(layer, req), inner);
      RelayedOutward(LinksOf(layer), ctx, req, Serve(layers[1..], handler, Below(layer, req), inner).0);
    }
  }

  lemma {:induction false} RelayedOutward(links: seq<Link>, ctx: Context, req: Request, r: Response)
    requires AllCallOnce(links) && forall link | link in links :: Relays(link)
    ensures Outward(links, ctx, req, r) == r
    decreases |links|
  {
    if links != [] {
      assert links[0] in links;
      RelayedOutward(links[1..], ctx, if Applies(links[0], req) then Passed(links[0], ctx, req) else req, r);
    }
  }

  /** A second `next` of a layer reaches nothing inside it: links that only relay bring back an internal error. */
  lemma {:induction false} SecondNextIsRefused(layers: seq<Layer>, handler: Request -> Response, i: nat, ctx: Context,
      req: Request, log: seq<Event>)
    requires Pipeline.WellFormed(layers) && layers != [] && i <= |LinksOf(layers[0])|
    requires forall link | link in LinksOf(layers[0])[i..] :: Relays(link)
    ensures var (r, open, log') := Chain(layers, handler, i, ctx, req, false, log);
      && r.status == 500 && r.body.ErrorBody? && r.body.exception.code == "internal_server_error"
      && !open && Unhandled(log, log')
  {
    var links := LinksOf(layers[0])[i..];
    var ids := Crossed(links, ctx, req);
    ChainWraps(layers, handler, i, ctx, req, false, log);
    RelayedOutward(links, ctx, req, NextTwice(layers[0]));
    UnhandledPlus(log, Enters(ids));
    UnhandledPlus(log + Enters(ids), Leaves(ids));
    UnhandledThen(log, log + Enters(ids), log + Enters(ids) + Leaves(ids));
  }

  /** Filters are applied one after another: each to what the one before it made, the last one's result stands. */
  lemma {:induction false} FiltersInTurn(e: HttpException, ctx: Context, filters: seq<Filter>)
      returns (es: seq<HttpException>)
    ensures |es| == |filters| + 1 && es[0] == e && es[|filters|] == ApplyFilters(e, ctx, filters)
    ensures forall i | 0 <= i < |filters| :: es[i + 1] == filters[i](es[i], ctx)
    decreases |filters|
  {
    if filters == [] {
      es := [e];
    } else {
      var rest := FiltersInTurn(filters[0](e, ctx), ctx, filters[1..]);
      es := [e] + rest;
    }
  }

  /**
   What the documentation promises of an exception from the handler: each layer's filters, the innermost layer's
   first.
   */
  ghost function Filtered(layers: seq<Layer>, e: HttpException, req: Request): HttpException
    requires WellBehaved(layers)
  {
    if layers == [] then e
    else
      assert layers[0] in layers;
      var inner := Filtered(layers[1..], e, Below(layers[0], req));
      if layers[0].PipelineLayer? then ApplyFilters(inner, ContextOf(req), layers[0].filters) else inner
  }

  /**
   The documented promise that a failing handler is passed to the filters: when the guards accept and the links only
   relay, its answer is the filtered one if and only if the filters leave the exception as it is.
   */
  lemma {:induction false} FailurePassesAsFilteredIff(layers: seq<Layer>, handler: Request -> Response, req: Request,
      e: HttpException)
    requires Pipeline.WellFormed(layers) && WellBehaved(layers) && AllRelay(layers) && Admits(layers, req)
    requires handler(Arriving(layers, req)) == IntoResponse(e)
    ensures Serve(layers, handler, req, []).0 == IntoResponse(Filtered(layers, e, req))
      <==> Filtered(layers, e, req) == e
  {
    RelayedAnswer(layers, handler, req, []);
  }

  /** It fails with one filter that turns every exception into a 400: a handler answering 500 still answers 500. */
  lemma {:induction false} HandlerFailuresAreNotFiltered(req: Request, e: HttpException)
    requires e.status != 400
    ensures var layers := [PipelineLayer([], [], [(e: HttpException, ctx: Context) => e.(status := 400)])];
      && Pipeline.WellFormed(layers) && WellBehaved(layers)
      && Serve(layers, (r: Request) => IntoResponse(e), req, []).0 != IntoResponse(Filtered(layers, e, req))
  {
    var handler := (r: Request) => IntoResponse(e);
    var filter: Filter := (e: HttpException, ctx: Context) => e.(status := 400);
    var layers := [PipelineLayer([], [], [filter])];
    assert layers[1..] == [] && [filter][1..] == [];
    assert Admits(layers[1..], Below(layers[0], req));
    assert Filtered(layers[1..], e, Below(layers[0], req)) == e;
    assert ApplyFilters(e, ContextOf(req), [filter]) == ApplyFilters(filter(e, ContextOf(req)), ContextOf(req), []);
    FailurePassesAsFilteredIff(layers, handler, req, e);
  }
}
