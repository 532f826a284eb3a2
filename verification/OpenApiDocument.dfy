/** The generated OpenAPI document: what it says at a path and method, and that its references resolve in it. */
module OpenApiDocument {
  import opened Prelude
  import opened SchemaRefs
  import CaseConversion

  /** What is documented at one status: a description, and a schema if there is one. */
  datatype Content = Content(description: string, schema: Option<Schema>)

  /** `secured` stands for the bearer entry in the operation's security list. */
  datatype Operation = Operation(
    summary: Option<string>, description: Option<string>, tags: seq<string>, requiredRoles: seq<string>, secured: bool,
    responses: map<nat, Content>, requestBody: Option<Schema>)

  type Paths = map<string, map<string, Operation>>

  datatype SecurityScheme = HttpBearer(format: string)

  datatype Document = Document(
    title: string, version: string, bearerAuth: SecurityScheme, schemas: map<string, Body>, paths: Paths)

  function Lower(verb: string): (r: string)
    ensures |r| == |verb|
    ensures forall i | 0 <= i < |verb| ::
      r[i] == if 'A' <= verb[i] <= 'Z' then verb[i] - 'A' + 'a' else verb[i]
  {
    if verb == "" then "" else [CaseConversion.ToLower(verb[0])] + Lower(verb[1..])
  }

  function ContentOf(r: RouteResponse): Content {
    Content(r.description, r.schema)
  }

  /** The map collected from pairs in order: of several responses with one status the last stands. */
  function ByStatus(responses: seq<RouteResponse>): map<nat, Content> {
    if responses == [] then map[]
    else
      var n := |responses| - 1;
      ByStatus(responses[..n])[responses[n].status := ContentOf(responses[n])]
  }

  function OperationOf(r: Route): Operation {
    Operation(
      r.info.summary, r.info.description, r.info.tags, r.info.requiredRoles, r.info.requiresAuth,
      ByStatus(r.responses), r.requestBody)
  }

  function Entry(paths: Paths, path: string): map<string, Operation> {
    if path in paths then paths[path] else map[]
  }

  function Put(paths: Paths, r: Route): Paths {
    paths[r.path := Entry(paths, r.path)[Lower(r.verb) := OperationOf(r)]]
  }

  function PathsOf(routes: seq<Route>): Paths {
    if routes == [] then map[] else Put(PathsOf(routes[..|routes| - 1]), routes[|routes| - 1])
  }

  function SchemasOf(components: seq<Component>): map<string, Body> {
    if components == [] then map[]
    else
      var n := |components| - 1;
      SchemasOf(components[..n])[components[n].name := components[n].body]
  }

  method ToOpenApiJson(title: string, version: string, routes: seq<Route>,
      components: seq<Component>) returns (doc: Document)
    ensures doc == Document(title, version, HttpBearer("JWT"), SchemasOf(components), PathsOf(routes))
  {
    var paths: Paths := map[];
    for i := 0 to |routes|
      invariant paths == PathsOf(routes[..i])
    {
      assert routes[..i + 1][..i] == routes[..i];
      var r := routes[i];
      var responses := CollectResponses(r.responses);
      if r.path !in paths {
        paths := paths[r.path := map[]];
      }
      var operation := Operation(
        r.info.summary, r.info.description, r.info.tags, r.info.requiredRoles, r.info.requiresAuth, responses,
          r.requestBody);
      paths := paths[r.path := paths[r.path][Lower(r.verb) := operation]];
    }
    assert routes[..|routes|] == routes;
    var schemas: map<string, Body> := map[];
    for i := 0 to |components|
      invariant schemas == SchemasOf(components[..i])
    {
      assert components[..i + 1][..i] == components[..i];
      schemas := schemas[components[i].name := components[i].body];
    }
    assert components[..|components|] == components;
    doc := Document(title, version, HttpBearer("JWT"), schemas, paths);
  }

  method CollectResponses(responses: seq<RouteResponse>) returns (m: map<nat, Content>)
    ensures m == ByStatus(responses)
  {
    m := map[];
    for i := 0 to |responses|
      invariant m == ByStatus(responses[..i])
    {
      assert responses[..i + 1][..i] == responses[..i];
      m := m[responses[i].status := Content(responses[i].description, responses[i].schema)];
    }
    assert responses[..|responses|] == responses;
  }

  // ---------------------------------------------------------------- what the document says

  ghost predicate Answers(r: Route, path: string, verb: string) {
    r.path == path && Lower(r.verb) == verb
  }

  ghost predicate Documents(paths: Paths, path: string, verb: string) {
    path in paths && verb in paths[path]
  }

  /** The document has an operation at a path and method exactly when a route answers there. */
  lemma {:induction false} DocumentedIffAnswered(routes: seq<Route>, path: string, verb: string)
    ensures Documents(PathsOf(routes), path, verb) <==> exists i :: 0 <= i < |routes| && Answers(routes[i], path, verb)
    decreases |routes|
  {
    if routes != [] {
      var n := |routes| - 1;
      DocumentedIffAnswered(routes[..n], path, verb);
      if i :| 0 <= i < n && Answers(routes[..n][i], path, verb) {
        assert Answers(routes[i], path, verb);
      }
      if i :| 0 <= i < n && Answers(routes[i], path, verb) {
        assert Answers(routes[..n][i], path, verb);
      }
    }
  }

  /** The i-th response is the last of its status. */
  ghost predicate IsLastOf(responses: seq<RouteResponse>, i: nat) {
    i < |responses| && forall j | i < j < |responses| :: responses[j].status != responses[i].status
  }

  ghost predicate HasStatus(responses: seq<RouteResponse>, status: nat) {
    exists i :: 0 <= i < |responses| && responses[i].status == status
  }

  /** The operation says all that the route's documentation does; of several responses of one status the last stands. */
  ghost predicate Describes(op: Operation, r: Route) {
    && op.summary == r.info.summary && op.description == r.info.description && op.tags == r.info.tags
    && op.requiredRoles == r.info.requiredRoles && op.secured == r.info.requiresAuth && op.requestBody == r.requestBody
    && ResponsesStand(op.responses, r.responses)
  }

  ghost predicate ResponsesStand(m: map<nat, Content>, responses: seq<RouteResponse>) {
    && (forall status :: status in m <==> HasStatus(responses, status))
    && (forall i: nat | IsLastOf(responses, i) && responses[i].status in m ::
      m[responses[i].status] == Content(responses[i].description, responses[i].schema))
  }

  lemma {:induction false} HasStatusSnoc(before: seq<RouteResponse>, last: RouteResponse, status: nat)
    ensures HasStatus(before + [last], status) <==> HasStatus(before, status) || last.status == status
  {
    var responses := before + [last];
    assert responses[|before|] == last;
    if i :| 0 <= i < |before| && before[i].status == status {
      assert responses[i].status == status;
    }
  }

  lemma {:induction false} LastResponsesStand(responses: seq<RouteResponse>)
    ensures ResponsesStand(ByStatus(responses), responses)
    decreases |responses|
  {
    if responses != [] {
      var before, last := responses[..|responses| - 1], responses[|responses| - 1];
      assert before + [last] == responses;
      LastResponsesStand(before);
      forall status
        ensures status in ByStatus(responses) <==> HasStatus(responses, status)
      {
        HasStatusSnoc(before, last, status);
      }
      forall i: nat | IsLastOf(responses, i)
        ensures ByStatus(responses)[responses[i].status] == Content(responses[i].description, responses[i].schema)
      {
        LastOfBefore(before, last, i);
        assert HasStatus(responses, responses[i].status);
        if i < |before| {
          assert HasStatus(before, before[i].status);
        }
      }
    }
  }

  lemma {:induction false} LastOfBefore(before: seq<RouteResponse>, last: RouteResponse, i: nat)
    requires IsLastOf(before + [last], i)
    ensures i < |before| ==> IsLastOf(before, i) && (before + [last])[i] == before[i] && last.status != before[i].status
  {
    var responses := before + [last];
    assert responses[|before|] == last && forall j | 0 <= j < |before| :: responses[j] == before[j];
  }

  /** It is the last such route's. */
  lemma {:induction false} LastRouteStands(routes: seq<Route>, path: string, verb: string, i: nat)
    requires i < |routes| && Answers(routes[i], path, verb)
    requires forall j | i < j < |routes| :: !Answers(routes[j], path, verb)
    ensures Documents(PathsOf(routes), path, verb) && PathsOf(routes)[path][verb] == OperationOf(routes[i])
    ensures Describes(PathsOf(routes)[path][verb], routes[i])
    decreases |routes|
  {
    var n := |routes| - 1;
    LastResponsesStand(routes[i].responses);
    if i < n {
      assert !Answers(routes[n], path, verb);
      LastRouteStands(routes[..n], path, verb, i);
    }
  }

  ghost function OperationRefs(op: Operation): set<string> {
    (set status, n | status in op.responses && op.responses[status].schema.Some?
      && n in Refs(op.responses[status].schema.value) :: n)
    + if op.requestBody.Some? then Refs(op.requestBody.value) else {}
  }

  lemma {:induction false} StatusComesFrom(responses: seq<RouteResponse>, status: nat)
    requires status in ByStatus(responses)
    ensures RouteResponseIn(responses, status, ByStatus(responses)[status])
    decreases |responses|
  {
    var n := |responses| - 1;
    if responses[n].status == status {
      assert responses[n] in responses;
    } else {
      StatusComesFrom(responses[..n], status);
    }
  }

  ghost predicate RouteResponseIn(responses: seq<RouteResponse>, status: nat, content: Content) {
    exists r :: r in responses && r.status == status && ContentOf(r) == content
  }

  lemma {:induction false} OperationKeepsRefs(r: Route)
    ensures OperationRefs(OperationOf(r)) <= RouteRefs(r.responses, r.requestBody)
  {
    var op := OperationOf(r);
    forall status, n | status in op.responses && op.responses[status].schema.Some?
      && n in Refs(op.responses[status].schema.value)
      ensures n in RouteRefs(r.responses, r.requestBody)
    {
      StatusComesFrom(r.responses, status);
    }
  }

  lemma {:induction false} SchemaKeys(components: seq<Component>)
    ensures SchemasOf(components).Keys == NamesOf(components)
    ensures DistinctNames(components) ==> forall c | c in components :: SchemasOf(components)[c.name] == c.body
    decreases |components|
  {
    if components != [] {
      var n := |components| - 1;
      SchemaKeys(components[..n]);
      assert components == components[..n] + [components[n]];
    }
  }

  /** Every reference at every path and method of the document names a schema of the document. */
  lemma {:induction false} DocumentRefsResolve(routes: seq<Route>, path: string, verb: string)
    requires forall r | r in routes :: IsClosed(r)
    requires Documents(PathsOf(routes), path, verb)
    ensures OperationRefs(PathsOf(routes)[path][verb]) <= SchemasOf(CollectFrom([], routes)).Keys
  {
    var r := LastAnswering(routes, path, verb);
    OperationKeepsRefs(r);
    CollectedNames([], routes);
    SchemaKeys(CollectFrom([], routes));
  }

  lemma {:induction false} LastAnswering(routes: seq<Route>, path: string, verb: string) returns (r: Route)
    requires Documents(PathsOf(routes), path, verb)
    ensures r in routes && Answers(r, path, verb) && PathsOf(routes)[path][verb] == OperationOf(r)
    decreases |routes|
  {
    var n := |routes| - 1;
    if Answers(routes[n], path, verb) {
      r := routes[n];
    } else {
      r := LastAnswering(routes[..n], path, verb);
    }
  }

  function DocumentedAll(sigs: seq<Signature>, serializers: Serializers, impls: Impls): (r: seq<Route>)
    ensures |r| == |sigs| && forall i | 0 <= i < |sigs| :: r[i] == Documented(sigs[i], serializers, impls)
  {
    if sigs == [] then [] else [Documented(sigs[0], serializers, impls)] + DocumentedAll(sigs[1..], serializers, impls)
  }

  /** From the handlers' signatures to the document: every reference names a schema, whatever the types nest. */
  lemma {:induction false} HandlersDocumentResolves(sigs: seq<Signature>, serializers: Serializers, impls: Impls,
      path: string, verb: string)
    requires Sound(impls)
    ensures var routes := DocumentedAll(sigs, serializers, impls);
      Documents(PathsOf(routes), path, verb) ==>
        OperationRefs(PathsOf(routes)[path][verb]) <= SchemasOf(CollectFrom([], routes)).Keys
  {
    var routes := DocumentedAll(sigs, serializers, impls);
    forall r | r in routes
      ensures IsClosed(r)
    {
      var i :| 0 <= i < |routes| && routes[i] == r;
      DocumentedIsClosed(sigs[i], serializers, impls);
    }
    if Documents(PathsOf(routes), path, verb) {
      DocumentRefsResolve(routes, path, verb);
    }
  }
}
