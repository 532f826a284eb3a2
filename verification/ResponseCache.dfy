/** The response-caching interceptor over its in-memory store. */
module ResponseCache {
  import opened Prelude

  /** A response body as the cache sees it: UTF-8 text, other bytes, or a stream that cannot be read. */
  datatype Body = Utf8(text: string) | NotUtf8(bytes: seq<nat>) | Unreadable

  /** A header's value: visible ASCII, or bytes that do not read as text. */
  datatype HeaderValue = Readable(value: string) | Raw(bytes: seq<nat>)

  type Header = (string, HeaderValue)

  /** Headers are named in lowercase and can repeat. */
  datatype Response = Response(status: nat, body: Body, headers: seq<Header>)

  datatype CachedResponse = CachedResponse(status: nat, body: string, contentType: Option<string>)

  /** A stored string: the JSON of a cached response, or anything that does not decode to one. */
  datatype Stored = Json(cached: CachedResponse) | Foreign(text: string)

  datatype Policy = Policy(typeName: string, ttl: Option<nat>, cacheable: Response -> bool)

  type Handler = (string, string) -> Response

  const CONTENT_TYPE := "content-type"
  const PLAIN_TEXT := Readable("text/plain; charset=utf-8")
  const READ_FAILED := Response(500, Utf8("Failed to read response body for caching"),
    [(CONTENT_TYPE, Readable("application/json"))])

  /** The first value of a header. */
  function Value(headers: seq<Header>, name: string): Option<HeaderValue> {
    if headers == [] then None else if headers[0].0 == name then Some(headers[0].1) else Value(headers[1..], name)
  }

  /** The response's first content type, if that reads as text. */
  function ContentType(r: Response): Option<string> {
    var value := Value(r.headers, CONTENT_TYPE);
    if value.Some? && value.value.Readable? then Some(value.value.value) else None
  }

  predicate IsHeaderText(s: string) {
    forall c | c in s :: c == '\t' || ' ' <= c <= '~'
  }

  /** Statuses are three-digit codes; a content type that reads as text is visible ASCII. */
  predicate IsHttp(r: Response) {
    100 <= r.status < 1000 && (ContentType(r).Some? ==> IsHeaderText(ContentType(r).value))
  }

  function CacheKey(policy: Policy, verb: string, uri: string): Option<string> {
    if verb != "GET" then None else Some(policy.typeName + ":" + uri)
  }

  function FromCache(c: CachedResponse): Response {
    Response(
      if 100 <= c.status < 1000 then c.status else 200,
      Utf8(c.body),
      [(CONTENT_TYPE, if c.contentType.Some? && IsHeaderText(c.contentType.value) then Readable(c.contentType.value)
        else PLAIN_TEXT)])
  }

  function ToCache(r: Response): CachedResponse
    requires r.body.Utf8?
  {
    CachedResponse(r.status, r.body.text, ContentType(r))
  }

  type Values = map<string, Stored>

  /** The first half of `around`: what the cache answers, if it answers. */
  function Hit(policy: Policy, values: Values, verb: string, uri: string): Option<Response> {
    var key := CacheKey(policy, verb, uri);
    if key.Some? && key.value in values && values[key.value].Json? then Some(FromCache(values[key.value].cached))
      else None
  }

  /** The second half, once the handler has answered: what the client gets and what the store holds afterwards. */
  function Save(policy: Policy, values: Values, verb: string, uri: string, r: Response): (Response, Values) {
    var key := CacheKey(policy, verb, uri);
    if key.None? || !policy.cacheable(r) then (r, values)
    else if r.body.Unreadable? then (READ_FAILED, values)
    else if r.body.NotUtf8? || policy.ttl.Some? then (r, values)
    else (r, values[key.value := Json(ToCache(r))])
  }

  // ---------------------------------------------------------------- the store and the interceptor, in place

  class InMemoryRedisStore {
    var values: Values

    constructor ()
      ensures values == map[]
    {
      values := map[];
    }

    method Get(key: string) returns (r: Option<Stored>)
      ensures r == if key in values then Some(values[key]) else None
    {
      r := if key in values then Some(values[key]) else None;
    }

    /** Entries with a time to live are refused. */
    method Set(key: string, value: Stored, ttl: Option<nat>) returns (ok: bool)
      modifies this
      ensures ok == ttl.None?
      ensures values == if ok then old(values)[key := value] else old(values)
    {
      if ttl.Some? {
        return false;
      }
      values := values[key := value];
      return true;
    }
  }

  class CallLog {
    var calls: seq<(string, string)>

    constructor ()
      ensures calls == []
    {
      calls := [];
    }

    /** The continuation behind the interceptor. */
    method Next(handler: Handler, verb: string, uri: string) returns (r: Response)
      modifies this
      ensures r == handler(verb, uri) && calls == old(calls) + [(verb, uri)]
    {
      calls := calls + [(verb, uri)];
      r := handler(verb, uri);
    }
  }

  method Around(policy: Policy, store: InMemoryRedisStore?, handler: Handler, verb: string, uri: string,
      log: CallLog) returns (r: Response)
    modifies store, log
    ensures store == null ==> r == handler(verb, uri) && log.calls == old(log.calls) + [(verb, uri)]
    ensures store != null ==>
      var hit := Hit(policy, old(store.values), verb, uri);
      if hit.Some? then
        r == hit.value && store.values == old(store.values) && log.calls == old(log.calls)
      else
        (r, store.values) == Save(policy, old(store.values), verb, uri, handler(verb, uri))
          && log.calls == old(log.calls) + [(verb, uri)]
  {
    var key := CacheKey(policy, verb, uri);
    if store == null || key.None? {
      r := log.Next(handler, verb, uri);
      return;
    }
    var cached := store.Get(key.value);
    if cached.Some? && cached.value.Json? {
      return FromCache(cached.value.cached);
    }
    r := log.Next(handler, verb, uri);
    if !policy.cacheable(r) {
      return;
    }
    if r.body.Unreadable? {
      return READ_FAILED;
    }
    if r.body.NotUtf8? {
      return;
    }
    var _ := store.Set(key.value, Json(ToCache(r)), policy.ttl);
  }

  // ---------------------------------------------------------------- transparency

  /** Every entry under a GET key encodes what the handler answers for that URI. */
  ghost predicate Faithful(policy: Policy, handler: Handler, values: Values) {
    forall uri :: var key := CacheKey(policy, "GET", uri).value;
      key in values && values[key].Json? ==>
        handler("GET", uri).body.Utf8? && values[key].cached == ToCache(handler("GET", uri))
  }

  /** All headers of a hit: a content type that reads as text, else the default. */
  function CachedHeaders(r: Response): seq<Header> {
    [(CONTENT_TYPE, if ContentType(r).Some? then Readable(ContentType(r).value) else PLAIN_TEXT)]
  }

  /** The client gets `direct` itself, or all of it but the headers that the cache does not keep. */
  ghost predicate Alike(r: Response, direct: Response) {
    r == direct || r == direct.(headers := CachedHeaders(direct))
  }

  lemma {:induction false} KeysDistinguishUris(policy: Policy, uri1: string, uri2: string)
    requires CacheKey(policy, "GET", uri1) == CacheKey(policy, "GET", uri2)
    ensures uri1 == uri2
  {
    var prefix := policy.typeName + ":";
    assert (prefix + uri1)[|prefix|..] == uri1 && (prefix + uri2)[|prefix|..] == uri2;
  }

  /**
   A hit has the status, the body and the readable content type of the handler's answer and loses every other header: it
   is that answer exactly when its one header is a content type that reads as text.
   */
  lemma {:induction false} HitIsAlike(policy: Policy, handler: Handler, values: Values, verb: string, uri: string)
    requires Faithful(policy, handler, values) && IsHttp(handler(verb, uri)) && Hit(policy, values, verb, uri).Some?
    ensures var hit, direct := Hit(policy, values, verb, uri).value, handler(verb, uri);
      && hit == direct.(headers := CachedHeaders(direct))
      && ContentType(hit) == Some(if ContentType(direct).Some? then ContentType(direct).value else PLAIN_TEXT.value)
      && (hit == direct <==> |direct.headers| == 1 && direct.headers[0].0 == CONTENT_TYPE
                             && direct.headers[0].1.Readable?)
  {
    assert CacheKey(policy, "GET", uri).value in values;
    var headers := handler(verb, uri).headers;
    if |headers| == 1 {
      assert headers == [headers[0]];
    }
  }

  /**
   Saving keeps the store faithful, and the client's answer is the handler's unless a cacheable body could not be
   read.
   */
  lemma {:induction false} SaveIsFaithful(policy: Policy, handler: Handler, values: Values, verb: string, uri: string)
    requires Faithful(policy, handler, values)
    ensures var (r, values') := Save(policy, values, verb, uri, handler(verb, uri));
      && Faithful(policy, handler, values')
      && (r == handler(verb, uri)
        <==> !(verb == "GET" && policy.cacheable(handler(verb, uri)) && handler(verb, uri).body.Unreadable?))
  {
    var direct := handler(verb, uri);
    var values' := Save(policy, values, verb, uri, direct).1;
    forall other
      ensures var key := CacheKey(policy, "GET", other).value;
        key in values' && values'[key].Json? ==>
          handler("GET", other).body.Utf8? && values'[key].cached == ToCache(handler("GET", other))
    {
      var key := CacheKey(policy, "GET", other).value;
      if verb == "GET" && key == CacheKey(policy, verb, uri).value {
        KeysDistinguishUris(policy, other, uri);
      }
      assert key in values ==> key in values';
    }
  }

  /** The answer to this request may be kept: a GET, no time to live, worth caching, and readable as text. */
  ghost predicate MayKeep(policy: Policy, verb: string, r: Response) {
    verb == "GET" && policy.ttl.None? && policy.cacheable(r) && r.body.Utf8?
  }

  /**
   Saving makes a hit of exactly the responses that may be kept, with all of them that is kept, and changes no other
   URI's; a body that cannot be read becomes an error for the client.
   */
  lemma {:induction false} SavedIff(policy: Policy, values: Values, verb: string, uri: string, r: Response,
      other: string)
    requires IsHttp(r)
    ensures var (answer, values') := Save(policy, values, verb, uri, r);
      && Hit(policy, values', "GET", other)
         == (if other == uri && MayKeep(policy, verb, r) then Some(r.(headers := CachedHeaders(r)))
             else Hit(policy, values, "GET", other))
      && answer.status == (if verb == "GET" && policy.cacheable(r) && r.body.Unreadable? then 500 else r.status)
      && (verb != "GET" ==> Hit(policy, values, verb, uri).None?)
  {
    if verb == "GET" && CacheKey(policy, "GET", other) == CacheKey(policy, "GET", uri) {
      KeysDistinguishUris(policy, other, uri);
    }
  }

  /** Whatever stands in the store, an answer from it is well-formed. */
  lemma {:induction false} HitIsHttp(policy: Policy, values: Values, verb: string, uri: string)
    ensures Hit(policy, values, verb, uri).Some? ==> IsHttp(Hit(policy, values, verb, uri).value)
  {
    assert IsHeaderText(PLAIN_TEXT.value);
  }

  /** Policies of different types never share a key: type names hold no slash, and a URI starts with one. */
  lemma {:induction false} KeysDistinguishPolicies(a: Policy, b: Policy, uri1: string, uri2: string)
    requires '/' !in a.typeName && '/' !in b.typeName && uri1 != "" && uri2 != "" && uri1[0] == '/' == uri2[0]
    requires CacheKey(a, "GET", uri1) == CacheKey(b, "GET", uri2)
    ensures a.typeName == b.typeName && uri1 == uri2
  {
    var key := CacheKey(a, "GET", uri1).value;
    FirstSlash(a.typeName, uri1);
    FirstSlash(b.typeName, uri2);
    assert |a.typeName| == |b.typeName|;
    assert key[..|a.typeName|] == a.typeName && key[..|a.typeName|] == b.typeName;
    assert key[|a.typeName| + 1..] == uri1 && key[|a.typeName| + 1..] == uri2;
  }

  lemma {:induction false} FirstSlash(typeName: string, uri: string)
    requires '/' !in typeName && uri != "" && uri[0] == '/'
    ensures var key := typeName + ":" + uri;
      key[|typeName| + 1] == '/' && forall i | 0 <= i <= |typeName| :: key[i] != '/'
  {
    var key := typeName + ":" + uri;
    assert forall i | 0 <= i < |typeName| :: key[i] == typeName[i];
  }

  // ---------------------------------------------------------------- any interleaving of requests

  /** A request in flight: it has missed and waits for the handler, or holds the handler's answer. */
  datatype Flight = Missed(verb: string, uri: string) | Answered(verb: string, uri: string, response: Response)

  datatype Exchange = Exchange(verb: string, uri: string, response: Response)

  datatype State = State(values: Values, flights: map<nat, Flight>, exchanges: seq<Exchange>,
    calls: seq<(string, string)>)

  /** One step of one request: look up, call the handler, or save and reply. */
  datatype Step = LookUp(id: nat, verb: string, uri: string) | CallHandler(id: nat) | Reply(id: nat)

  ghost predicate Enabled(step: Step, s: State) {
    match step
    case LookUp(id, _, _) => id !in s.flights
    case CallHandler(id) => id in s.flights && s.flights[id].Missed?
    case Reply(id) => id in s.flights && s.flights[id].Answered?
  }

  ghost function Take(policy: Policy, handler: Handler, step: Step, s: State): State
    requires Enabled(step, s)
  {
    match step
    case LookUp(id, verb, uri) =>
      var hit := Hit(policy, s.values, verb, uri);
      if hit.Some? then s.(exchanges := s.exchanges + [Exchange(verb, uri, hit.value)])
      else s.(flights := s.flights[id := Missed(verb, uri)])
    case CallHandler(id) =>
      var Missed(verb, uri) := s.flights[id];
      s.(flights := s.flights[id := Answered(verb, uri, handler(verb, uri))], calls := s.calls + [(verb, uri)])
    case Reply(id) =>
      var Answered(verb, uri, response) := s.flights[id];
      var (r, values) := Save(policy, s.values, verb, uri, response);
      State(values, s.flights - {id}, s.exchanges + [Exchange(verb, uri, r)], s.calls)
  }

  /** The states that runs of enabled steps from `s` lead to, one per step. */
  ghost predicate IsRun(policy: Policy, handler: Handler, steps: seq<Step>, states: seq<State>) {
    && |states| == |steps| + 1
    && forall i | 0 <= i < |steps| ::
      Enabled(steps[i], states[i]) && states[i + 1] == Take(policy, handler, steps[i], states[i])
  }

  /** The handler's answers are well-formed, and a body that is worth caching can be read. */
  ghost predicate Serves(policy: Policy, handler: Handler) {
    && (forall verb, uri :: IsHttp(handler(verb, uri)))
    && (forall uri :: policy.cacheable(handler("GET", uri)) ==> !handler("GET", uri).body.Unreadable?)
  }

  ghost predicate Transparent(policy: Policy, handler: Handler, s: State) {
    && Faithful(policy, handler, s.values)
    && (forall id | id in s.flights && s.flights[id].Answered? ::
      s.flights[id].response == handler(s.flights[id].verb, s.flights[id].uri))
    && (forall i | 0 <= i < |s.exchanges| ::
      Alike(s.exchanges[i].response, handler(s.exchanges[i].verb, s.exchanges[i].uri)))
  }

  lemma {:induction false} StepIsTransparent(policy: Policy, handler: Handler, step: Step, s: State)
    requires Serves(policy, handler) && Transparent(policy, handler, s) && Enabled(step, s)
    ensures Transparent(policy, handler, Take(policy, handler, step, s))
  {
    match step
    case LookUp(id, verb, uri) =>
      if Hit(policy, s.values, verb, uri).Some? {
        HitIsAlike(policy, handler, s.values, verb, uri);
      }
    case CallHandler(id) =>
    case Reply(id) =>
      var Answered(verb, uri, response) := s.flights[id];
      SaveIsFaithful(policy, handler, s.values, verb, uri);
  }

  /** However requests interleave, each is answered as if the handler had been called directly. */
  lemma {:induction false} CacheIsTransparent(policy: Policy, handler: Handler, steps: seq<Step>, states: seq<State>)
    requires Serves(policy, handler) && IsRun(policy, handler, steps, states) && Transparent(policy, handler, states[0])
    ensures forall i | 0 <= i < |states| :: Transparent(policy, handler, states[i])
    decreases |steps|
  {
    if steps != [] {
      var n := |steps| - 1;
      CacheIsTransparent(policy, handler, steps[..n], states[..n + 1]);
      assert states[..n + 1][n] == states[n];
      StepIsTransparent(policy, handler, steps[n], states[n]);
      forall i | 0 <= i < |states|
        ensures Transparent(policy, handler, states[i])
      {
        if i <= n {
          assert states[..n + 1][i] == states[i];
        }
      }
    }
  }

  // ---------------------------------------------------------------- the handler is spared, in sequence

  /**
   A sequential run of requests, method and URI each: those for which the handler is called, and the store at the end.
   */
  ghost function RunAll(policy: Policy, handler: Handler, requests: seq<(string, string)>, values: Values)
    : (seq<(string, string)>, Values)
    decreases |requests|
  {
    if requests == [] then ([], values)
    else
      var (verb, uri) := requests[0];
      if Hit(policy, values, verb, uri).Some? then RunAll(policy, handler, requests[1..], values)
      else
        var (_, values') := Save(policy, values, verb, uri, handler(verb, uri));
        var (called, values'') := RunAll(policy, handler, requests[1..], values');
        ([requests[0]] + called, values'')
  }

  ghost predicate Storable(policy: Policy, handler: Handler, uri: string) {
    policy.ttl.None? && policy.cacheable(handler("GET", uri)) && handler("GET", uri).body.Utf8?
  }

  /** Saving any response, of whatever request, leaves every hit a hit. */
  lemma {:induction false} SaveKeepsHits(policy: Policy, values: Values, verb: string, uri: string, r: Response,
      cached: string)
    requires Hit(policy, values, "GET", cached).Some?
    ensures Hit(policy, Save(policy, values, verb, uri, r).1, "GET", cached).Some?
  {
  }

  /** A cached URI stays cached, and the handler is not called for it any more. */
  lemma {:induction false} CachedStaysCached(policy: Policy, handler: Handler, requests: seq<(string, string)>,
      values: Values,
      uri: string)
    requires Hit(policy, values, "GET", uri).Some?
    ensures ("GET", uri) !in RunAll(policy, handler, requests, values).0
    decreases |requests|
  {
    if requests != [] {
      var (verb, other) := requests[0];
      if Hit(policy, values, verb, other).Some? {
        CachedStaysCached(policy, handler, requests[1..], values, uri);
      } else {
        SaveKeepsHits(policy, values, verb, other, handler(verb, other), uri);
        CachedStaysCached(policy, handler, requests[1..], Save(policy, values, verb, other, handler(verb, other)).1,
          uri);
      }
    }
  }

  ghost predicate OncePerUri(policy: Policy, handler: Handler, called: seq<(string, string)>) {
    forall i, j | 0 <= i < j < |called| && called[i].0 == "GET" && Storable(policy, handler, called[i].1) ::
      called[j] != called[i]
  }

  /**
   In sequence, whatever other requests come between, the handler runs at most once per GET of a URI that can be
   stored.
   */
  lemma {:induction false} HandlerRunsOncePerUri(policy: Policy, handler: Handler, requests: seq<(string, string)>,
      values: Values)
    ensures OncePerUri(policy, handler, RunAll(policy, handler, requests, values).0)
    decreases |requests|
  {
    if requests != [] {
      var (verb, uri) := requests[0];
      if Hit(policy, values, verb, uri).Some? {
        HandlerRunsOncePerUri(policy, handler, requests[1..], values);
      } else {
        var next := Save(policy, values, verb, uri, handler(verb, uri)).1;
        HandlerRunsOncePerUri(policy, handler, requests[1..], next);
        if verb == "GET" && Storable(policy, handler, uri) {
          CachedStaysCached(policy, handler, requests[1..], next, uri);
        }
        assert OncePerUri(policy, handler, [requests[0]] + RunAll(policy, handler, requests[1..], next).0);
      }
    }
  }

  /** Serving requests one after another through the interceptor makes exactly the handler calls of `RunAll`. */
  method ServeAll(policy: Policy, store: InMemoryRedisStore, handler: Handler, requests: seq<(string, string)>,
      log: CallLog)
      returns (responses: seq<Response>)
    requires Faithful(policy, handler, store.values) && Serves(policy, handler)
    modifies store, log
    ensures log.calls == old(log.calls) + RunAll(policy, handler, requests, old(store.values)).0
    ensures |responses| == |requests|
    ensures forall i | 0 <= i < |requests| :: Alike(responses[i], handler(requests[i].0, requests[i].1))
    decreases |requests|
  {
    if |requests| == 0 {
      return [];
    }
    var (verb, uri) := requests[0];
    var hit := Hit(policy, store.values, verb, uri);
    if hit.Some? {
      HitIsAlike(policy, handler, store.values, verb, uri);
    } else {
      SaveIsFaithful(policy, handler, store.values, verb, uri);
    }
    var first := Around(policy, store, handler, verb, uri, log);
    var rest := ServeAll(policy, store, handler, requests[1..], log);
    responses := [first] + rest;
  }

  // ---------------------------------------------------------------- the handler is spared, with requests overlapping

  ghost predicate IsFor(f: Flight, uri: string) {
    f.verb == "GET" && f.uri == uri
  }

  type Flights = map<nat, Flight>

  /** The flights for a URI, and those of them that still wait for the handler. */
  ghost function AllFor(flights: Flights, uri: string): set<nat> {
    set id | id in flights && IsFor(flights[id], uri)
  }

  ghost function MissedFor(flights: Flights, uri: string): set<nat> {
    set id | id in flights && IsFor(flights[id], uri) && flights[id].Missed?
  }

  ghost function Flying(s: State, uri: string): set<nat> {
    AllFor(s.flights, uri)
  }

  ghost function Waiting(s: State, uri: string): set<nat> {
    MissedFor(s.flights, uri)
  }

  lemma {:induction false} FlightOpens(flights: Flights, id: nat, verb: string, other: string, uri: string)
    requires id !in flights
    ensures var f := Missed(verb, other); var more := if IsFor(f, uri) then {id} else {};
      && AllFor(flights[id := f], uri) == AllFor(flights, uri) + more
      && MissedFor(flights[id := f], uri) == MissedFor(flights, uri) + more
      && AllFor(flights, uri) !! more && MissedFor(flights, uri) !! more
  {
  }

  lemma {:induction false} FlightIsAnswered(flights: Flights, id: nat, response: Response, uri: string)
    requires id in flights && flights[id].Missed?
    ensures var f := Answered(flights[id].verb, flights[id].uri, response);
      && AllFor(flights[id := f], uri) == AllFor(flights, uri)
      && MissedFor(flights[id := f], uri) == MissedFor(flights, uri) - {id}
      && (id in MissedFor(flights, uri) <==> IsFor(flights[id], uri))
  {
  }

  lemma {:induction false} FlightCloses(flights: Flights, id: nat, uri: string)
    requires id in flights && flights[id].Answered?
    ensures AllFor(flights - {id}, uri) == AllFor(flights, uri) - {id}
    ensures MissedFor(flights - {id}, uri) == MissedFor(flights, uri)
    ensures id in AllFor(flights, uri) <==> IsFor(flights[id], uri)
  {
  }

  ghost function CallsFor(calls: seq<(string, string)>, uri: string): nat {
    if calls == [] then 0
    else
      var n := |calls| - 1;
      CallsFor(calls[..n], uri) + if calls[n] == ("GET", uri) then 1 else 0
  }

  lemma {:induction false} CallsForSnoc(calls: seq<(string, string)>, call: (string, string), uri: string)
    ensures CallsFor(calls + [call], uri) == CallsFor(calls, uri) + if call == ("GET", uri) then 1 else 0
  {
    assert (calls + [call])[..|calls|] == calls;
  }

  /** The handler calls for a URI, made and still to be made. */
  ghost function Opened(s: State, uri: string): nat {
    CallsFor(s.calls, uri) + |Waiting(s, uri)|
  }

  ghost predicate Opens(policy: Policy, step: Step, s: State, uri: string) {
    step.LookUp? && step.verb == "GET" && step.uri == uri && Hit(policy, s.values, "GET", uri).None?
  }

  ghost predicate Closes(step: Step, s: State, uri: string)
    requires Enabled(step, s)
  {
    step.Reply? && IsFor(s.flights[step.id], uri)
  }

  lemma {:induction false} StepCounts(policy: Policy, handler: Handler, step: Step, s: State, uri: string)
    requires Enabled(step, s)
    ensures var s' := Take(policy, handler, step, s);
      && Opened(s', uri) == Opened(s, uri) + (if Opens(policy, step, s, uri) then 1 else 0)
      && |Flying(s', uri)|
         == |Flying(s, uri)| + (if Opens(policy, step, s, uri) then 1 else 0) - (if Closes(step, s, uri) then 1 else 0)
  {
    match step
    case LookUp(id, verb, other) =>
      FlightOpens(s.flights, id, verb, other, uri);
    case CallHandler(id) =>
      var Missed(verb, other) := s.flights[id];
      CallsForSnoc(s.calls, (verb, other), uri);
      FlightIsAnswered(s.flights, id, handler(verb, other), uri);
    case Reply(id) =>
      FlightCloses(s.flights, id, uri);
  }

  /** Calls made and to be made grow at least as the open flights do. */
  lemma {:induction false} OpenedGrows(policy: Policy, handler: Handler, steps: seq<Step>, states: seq<State>,
      uri: string,
      i: nat, j: nat)
    requires IsRun(policy, handler, steps, states) && i <= j <= |steps|
    ensures Opened(states[i], uri) <= Opened(states[j], uri)
    ensures |Flying(states[j], uri)| - |Flying(states[i], uri)| <= Opened(states[j], uri) - Opened(states[i], uri)
    decreases j - i
  {
    if i < j {
      OpenedGrows(policy, handler, steps, states, uri, i, j - 1);
      StepCounts(policy, handler, steps[j - 1], states[j - 1], uri);
    }
  }

  ghost predicate AnswersHold(handler: Handler, s: State, uri: string) {
    forall id | id in Flying(s, uri) && s.flights[id].Answered? :: s.flights[id].response == handler("GET", uri)
  }

  /**
   Since `start` calls were made or to be made, one flight at most was opened; it is still open, or the URI is cached.
   */
  ghost predicate OpenedOnce(policy: Policy, start: nat, s: State, uri: string) {
    || (Opened(s, uri) == start && |Flying(s, uri)| == 0)
    || (Opened(s, uri) == start + 1 && (|Flying(s, uri)| == 1 || Hit(policy, s.values, "GET", uri).Some?))
  }

  lemma {:induction false} StepKeepsAnswers(policy: Policy, handler: Handler, step: Step, s: State, uri: string)
    requires Enabled(step, s) && AnswersHold(handler, s, uri)
    ensures AnswersHold(handler, Take(policy, handler, step, s), uri)
  {
    var s' := Take(policy, handler, step, s);
    forall id | id in Flying(s', uri) && s'.flights[id].Answered?
      ensures s'.flights[id].response == handler("GET", uri)
    {
      if step.CallHandler? && step.id == id {
      } else {
        assert id in Flying(s, uri);
      }
    }
  }

  lemma {:induction false} StepOpensOnce(policy: Policy, handler: Handler, step: Step, s: State, uri: string,
      start: nat)
    requires Enabled(step, s) && AnswersHold(handler, s, uri) && Storable(policy, handler, uri)
    requires OpenedOnce(policy, start, s, uri) && |Flying(Take(policy, handler, step, s), uri)| < 2
    ensures OpenedOnce(policy, start, Take(policy, handler, step, s), uri)
  {
    StepCounts(policy, handler, step, s, uri);
    if step.Reply? {
      var Answered(verb, other, response) := s.flights[step.id];
      if Hit(policy, s.values, "GET", uri).Some? {
        SaveKeepsHits(policy, s.values, verb, other, response, uri);
      }
      assert Closes(step, s, uri) ==> step.id in Flying(s, uri);
    }
  }

  lemma {:induction false} RunOpensOnce(policy: Policy, handler: Handler, steps: seq<Step>, states: seq<State>,
      uri: string, i: nat)
    requires Storable(policy, handler, uri) && IsRun(policy, handler, steps, states) && i <= |steps|
    requires Flying(states[0], uri) == {} && forall j | 0 <= j < |states| :: |Flying(states[j], uri)| < 2
    ensures AnswersHold(handler, states[i], uri) && OpenedOnce(policy, Opened(states[0], uri), states[i], uri)
  {
    if i > 0 {
      RunOpensOnce(policy, handler, steps, states, uri, i - 1);
      StepKeepsAnswers(policy, handler, steps[i - 1], states[i - 1], uri);
      assert |Flying(states[i], uri)| < 2;
      StepOpensOnce(policy, handler, steps[i - 1], states[i - 1], uri, Opened(states[0], uri));
    }
  }

  lemma {:induction false} IdleHasNoneWaiting(s: State, uri: string)
    requires Flying(s, uri) == {}
    ensures Opened(s, uri) == CallsFor(s.calls, uri)
  {
    assert Waiting(s, uri) <= Flying(s, uri);
  }

  /**
   A run of overlapping requests that starts and ends without open flights for a URI that can be stored calls the
   handler for it at most once if and only if at no time two flights for it are open.
   */
  lemma {:induction false} CalledOnceIff(policy: Policy, handler: Handler, steps: seq<Step>, states: seq<State>,
      uri: string)
    requires Storable(policy, handler, uri) && IsRun(policy, handler, steps, states)
    requires Flying(states[0], uri) == {} && Flying(states[|steps|], uri) == {}
    ensures CallsFor(states[|steps|].calls, uri) <= CallsFor(states[0].calls, uri) + 1
      <==> forall i | 0 <= i < |states| :: |Flying(states[i], uri)| < 2
  {
    IdleHasNoneWaiting(states[0], uri);
    IdleHasNoneWaiting(states[|steps|], uri);
    if forall i | 0 <= i < |states| :: |Flying(states[i], uri)| < 2 {
      RunOpensOnce(policy, handler, steps, states, uri, |steps|);
    } else {
      var i :| 0 <= i < |states| && |Flying(states[i], uri)| >= 2;
      OpenedGrows(policy, handler, steps, states, uri, 0, i);
      OpenedGrows(policy, handler, steps, states, uri, i, |steps|);
    }
  }

  /** Two interleaved requests for one URI can both miss, so overlapping runs need not spare the handler. */
  lemma {:induction false} ConcurrentRequestsBothMiss(policy: Policy, handler: Handler, uri: string)
    ensures exists steps: seq<Step>, states: seq<State> ::
      IsRun(policy, handler, steps, states) && states[0] == State(map[], map[], [], [])
        && states[|steps|].calls == [("GET", uri), ("GET", uri)]
  {
    var steps := [LookUp(0, "GET", uri), LookUp(1, "GET", uri), CallHandler(0), CallHandler(1)];
    var s0 := State(map[], map[], [], []);
    var s1 := Take(policy, handler, steps[0], s0);
    var s2 := Take(policy, handler, steps[1], s1);
    var s3 := Take(policy, handler, steps[2], s2);
    var s4 := Take(policy, handler, steps[3], s3);
    var states := [s0, s1, s2, s3, s4];
    assert IsRun(policy, handler, steps, states);
    assert states[|steps|].calls == [("GET", uri), ("GET", uri)];
  }
}
