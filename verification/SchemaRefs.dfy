/**
 Schemas and components of the generated OpenAPI document: how the route macros document request and response types,
 and why every reference they write names a component.
 */
module SchemaRefs {
  import opened Prelude

  /** A type: the module that declares it, and what the macros see, the last segment of its path and its arguments. */
  datatype Ty = Path(scope: string, name: string, args: seq<Ty>)

  datatype Schema =
    | Ref(name: string)
    | ArrayOf(items: Schema)
    | Nullable(inner: Schema)
    | Envelope(data: Schema)
    | Inline(text: string)

  datatype Property = Property(name: string, schema: Schema, rules: string)

  datatype Body = Body(properties: seq<Property>, required: seq<string>)

  datatype Component = Component(name: string, body: Body)

  /** A named field of a struct: its type, whether a rule makes it required, and the text of its other rules. */
  datatype Field = Field(name: string, ty: Ty, required: bool, rules: string)

  type Structs = Ty -> seq<Field>

  /** The type a response serializer turns a value type into. */
  type Serializers = (Ty, Ty) -> Ty

  const PRIMITIVES := {"String", "bool", "u8", "u16", "u32", "u64", "usize", "i8", "i16", "i32", "i64", "isize", "f32",
    "f64"}

  predicate IsList(ty: Ty) {
    (ty.name == "Vec" || ty.name == "List") && ty.args != []
  }

  predicate IsOption(ty: Ty) {
    ty.name == "Option" && ty.args != []
  }

  // ---------------------------------------------------------------- the schema trait

  function Refs(s: Schema): set<string> {
    match s
    case Ref(name) => {name}
    case ArrayOf(items) => Refs(items)
    case Nullable(inner) => Refs(inner)
    case Envelope(data) => Refs(data)
    case Inline(_) => {}
  }

  function NamesOf(cs: seq<Component>): set<string> {
    set c | c in cs :: c.name
  }

  /** A schema and the components that come with it. */
  datatype Payload = Payload(schema: Schema, components: seq<Component>)

  ghost predicate Covered(p: Payload) {
    Refs(p.schema) <= NamesOf(p.components)
  }

  /**
   How each type that is no list and no option implements the schema trait: what it is referred to by, and components.
   */
  type Impls = Ty -> Payload

  predicate IsPrimitive(ty: Ty) {
    ty.scope == "" && ty.name in PRIMITIVES
  }

  /** What a type is referred to by when the type inside its lists and options is primitive or derived. */
  function DerivedSchema(ty: Ty): Schema {
    if IsList(ty) then ArrayOf(DerivedSchema(ty.args[0]))
    else if IsOption(ty) then Nullable(DerivedSchema(ty.args[0]))
    else if IsPrimitive(ty) then Inline(ty.name)
    else Ref(ty.name)
  }

  function Properties(fields: seq<Field>): (r: seq<Property>)
    ensures |r| == |fields|
    ensures forall i | 0 <= i < |fields| ::
      r[i] == Property(fields[i].name, DerivedSchema(fields[i].ty), fields[i].rules)
  {
    seq(|fields|, i requires 0 <= i < |fields| =>
      Property(fields[i].name, DerivedSchema(fields[i].ty), fields[i].rules))
  }

  function Required(fields: seq<Field>): seq<string> {
    if fields == [] then []
    else (if fields[0].ty.name == "Option" && !fields[0].required then [] else [fields[0].name]) + Required(fields[1..])
  }

  function DerivedBody(fields: seq<Field>): Body {
    Body(Properties(fields), Required(fields))
  }

  /** The implementations that come with the framework and those it derives: a reference to one's own component. */
  function Provided(structs: Structs): Impls {
    ty => if IsPrimitive(ty) then Payload(Inline(ty.name), [])
      else Payload(Ref(ty.name), [Component(ty.name, DerivedBody(structs(ty)))])
  }

  /** `schema_or_ref`: lists and options spell out their inner type. */
  function SchemaOrRef(ty: Ty, impls: Impls): Schema {
    if IsList(ty) then ArrayOf(SchemaOrRef(ty.args[0], impls))
    else if IsOption(ty) then Nullable(SchemaOrRef(ty.args[0], impls))
    else impls(ty).schema
  }

  function SchemaComponents(ty: Ty, impls: Impls): seq<Component> {
    if IsList(ty) || IsOption(ty) then SchemaComponents(ty.args[0], impls) else impls(ty).components
  }

  /** The type inside all lists and options. */
  function Leaf(ty: Ty): Ty {
    if IsList(ty) || IsOption(ty) then Leaf(ty.args[0]) else ty
  }

  /**
   Through any nesting, references name components exactly when the innermost type's own implementation sees to it.
   */
  lemma {:induction false} SchemaIsCoveredIff(ty: Ty, impls: Impls)
    ensures Covered(Payload(SchemaOrRef(ty, impls), SchemaComponents(ty, impls))) <==> Covered(impls(Leaf(ty)))
  {
    if IsList(ty) || IsOption(ty) {
      SchemaIsCoveredIff(ty.args[0], impls);
    }
  }

  /** Every implementation brings the components it refers to, as the provided and derived ones do. */
  ghost predicate Sound(impls: Impls) {
    forall ty :: Covered(impls(ty))
  }

  lemma {:induction false} ProvidedIsSound(structs: Structs)
    ensures Sound(Provided(structs))
  {
    forall ty
      ensures Covered(Provided(structs)(ty))
    {
      if !IsPrimitive(ty) {
        assert Component(ty.name, DerivedBody(structs(ty))) in Provided(structs)(ty).components;
      }
    }
  }

  // ---------------------------------------------------------------- what the macros infer

  /** The first type argument, if the type is one of the named wrappers. */
  function InnerOf(ty: Ty, names: set<string>): Option<Ty> {
    if ty.name in names && ty.args != [] then Some(ty.args[0]) else None
  }

  /** The expression the macros write for a payload type: lists and options by their inner type. */
  function SchemaExpression(ty: Ty, impls: Impls): Schema {
    if IsList(ty) then ArrayOf(SchemaOrRef(ty.args[0], impls))
    else if IsOption(ty) then Nullable(SchemaOrRef(ty.args[0], impls))
    else SchemaOrRef(ty, impls)
  }

  /** The documentation of a return type, unwrapping result and envelope types in the order the macros try them. */
  function ResponsePayload(ty: Ty, serializers: Serializers, impls: Impls): Payload {
    if ty.name == "ApiSerializedResult" && |ty.args| >= 2 then
      var output := serializers(ty.args[0], ty.args[1]);
      Payload(SchemaOrRef(output, impls), SchemaComponents(output, impls))
    else if ty.name == "ApiEnvelopeResult" && ty.args != [] then
      Payload(Envelope(SchemaOrRef(ty.args[0], impls)), SchemaComponents(ty.args[0], impls))
    else if (ty.name == "ApiResult" || ty.name == "Json" || ty.name == "Result") && ty.args != [] then
      ResponsePayload(ty.args[0], serializers, impls)
    else if ty.name == "Serialized" && |ty.args| >= 2 then
      var output := serializers(ty.args[0], ty.args[1]);
      Payload(SchemaOrRef(output, impls), SchemaComponents(output, impls))
    else if ty.name == "ResponseEnvelope" && ty.args != [] then
      Payload(Envelope(SchemaOrRef(ty.args[0], impls)), SchemaComponents(ty.args[0], impls))
    else
      Payload(SchemaExpression(ty, impls), SchemaComponents(ty, impls))
  }

  /** The documentation of the first argument that is a body extractor. */
  function RequestPayload(args: seq<Ty>, impls: Impls): Option<Payload> {
    if args == [] then None
    else
      var inner := InnerOf(args[0], {"ValidatedBody", "Body", "Json"});
      if inner.Some? then Some(Payload(SchemaExpression(inner.value, impls), SchemaComponents(inner.value, impls)))
      else RequestPayload(args[1..], impls)
  }

  lemma {:induction false} ResponseIsCovered(ty: Ty, serializers: Serializers, impls: Impls)
    requires Sound(impls)
    ensures Covered(ResponsePayload(ty, serializers, impls))
  {
    if (ty.name == "ApiSerializedResult" || ty.name == "Serialized") && |ty.args| >= 2 {
      SchemaIsCoveredIff(serializers(ty.args[0], ty.args[1]), impls);
    } else if (ty.name == "ApiEnvelopeResult" || ty.name == "ResponseEnvelope") && ty.args != [] {
      SchemaIsCoveredIff(ty.args[0], impls);
    } else if (ty.name == "ApiResult" || ty.name == "Json" || ty.name == "Result") && ty.args != [] {
      ResponseIsCovered(ty.args[0], serializers, impls);
    } else {
      SchemaIsCoveredIff(ty, impls);
    }
  }

  lemma {:induction false} RequestIsCovered(args: seq<Ty>, impls: Impls)
    requires Sound(impls)
    ensures RequestPayload(args, impls).Some? ==> Covered(RequestPayload(args, impls).value)
  {
    if args != [] {
      var inner := InnerOf(args[0], {"ValidatedBody", "Body", "Json"});
      if inner.Some? {
        SchemaIsCoveredIff(inner.value, impls);
      } else {
        RequestIsCovered(args[1..], impls);
      }
    }
  }

  // ---------------------------------------------------------------- route documentation, in place

  datatype RouteResponse = RouteResponse(status: nat, description: string, schema: Option<Schema>)

  ghost predicate DistinctNames(cs: seq<Component>) {
    forall i, j | 0 <= i < j < |cs| :: cs[i].name != cs[j].name
  }

  /** Appends the components whose names are new, one after another. */
  function AddComponents(known: seq<Component>, more: seq<Component>): seq<Component>
    decreases |more|
  {
    if more == [] then known
    else AddComponents(if more[0].name in NamesOf(known) then known else known + [more[0]], more[1..])
  }

  lemma {:induction false} AddComponentsNames(known: seq<Component>, more: seq<Component>)
    ensures NamesOf(AddComponents(known, more)) == NamesOf(known) + NamesOf(more)
    ensures DistinctNames(known) ==> DistinctNames(AddComponents(known, more))
    ensures known <= AddComponents(known, more)
    decreases |more|
  {
    if more != [] {
      var c := more[0];
      var next := if c.name in NamesOf(known) then known else known + [c];
      assert more == [c] + more[1..];
      assert NamesOf(more) == {c.name} + NamesOf(more[1..]);
      assert NamesOf(next) == NamesOf(known) + {c.name} by {
        if c.name !in NamesOf(known) {
          assert forall x | x in next :: x in known || x == c;
          assert c in next;
        }
      }
      assert DistinctNames(known) ==> DistinctNames(next) by {
        if c.name !in NamesOf(known) {
          assert forall i | 0 <= i < |known| :: known[i] in known;
        }
      }
      AddComponentsNames(next, more[1..]);
    }
  }

  /** Where the success schema goes: the first 2xx response, else the first one, else a new one at the end. */
  function SuccessIndex(responses: seq<RouteResponse>): (i: nat)
    ensures i <= |responses| && (responses != [] ==> i < |responses|)
  {
    var k := First2xx(responses);
    if k < |responses| then k else 0
  }

  function First2xx(responses: seq<RouteResponse>): (k: nat)
    ensures k <= |responses|
    ensures k < |responses| ==> 200 <= responses[k].status < 300
    ensures forall i | 0 <= i < k :: !(200 <= responses[i].status < 300)
  {
    if responses == [] || 200 <= responses[0].status < 300 then 0
    else
      var k := 1 + First2xx(responses[1..]);
      assert forall i | 0 < i < k :: responses[i] == responses[1..][i - 1];
      k
  }

  function WithSuccess(responses: seq<RouteResponse>, schema: Schema): seq<RouteResponse> {
    if responses == [] then [RouteResponse(200, "OK", Some(schema))]
    else
      var i := SuccessIndex(responses);
      responses[i := responses[i].(schema := Some(schema))]
  }

  /** The first 2xx response, or the first of all when there is no 2xx. */
  ghost predicate IsSuccessPlace(responses: seq<RouteResponse>, i: nat) {
    i < |responses|
    && if 200 <= responses[i].status < 300 then forall j | 0 <= j < i :: !(200 <= responses[j].status < 300)
       else i == 0 && forall j | 0 <= j < |responses| :: !(200 <= responses[j].status < 300)
  }

  /** The schema is attached at the place of success and nowhere else; a response is made when there is none. */
  lemma {:induction false} WithSuccessAttaches(responses: seq<RouteResponse>, schema: Schema) returns (i: nat)
    ensures var after := WithSuccess(responses, schema);
      if responses == [] then i == 0 && after == [RouteResponse(200, "OK", Some(schema))]
      else
        && |after| == |responses| && IsSuccessPlace(responses, i)
        && after[i] == RouteResponse(responses[i].status, responses[i].description, Some(schema))
        && forall j | 0 <= j < |responses| && j != i :: after[j] == responses[j]
  {
    i := SuccessIndex(responses);
  }

  class RouteDocumentation {
    var responses: seq<RouteResponse>
    var requestBody: Option<Schema>
    var schemaComponents: seq<Component>

    constructor (responses: seq<RouteResponse>)
      ensures this.responses == responses && requestBody == None && schemaComponents == []
    {
      this.responses, requestBody, schemaComponents := responses, None, [];
    }

    ghost function AllRefs(): set<string>
      reads this
    {
      RouteRefs(responses, requestBody)
    }

    /** Every reference names a component, and no two components share a name. */
    ghost predicate Closed()
      reads this
    {
      AllRefs() <= NamesOf(schemaComponents) && DistinctNames(schemaComponents)
    }

    method WithSuccessResponseSchema(schema: Schema)
      modifies this`responses
      ensures responses == WithSuccess(old(responses), schema)
      ensures AllRefs() <= old(AllRefs()) + Refs(schema)
    {
      WithSuccessRefs(responses, schema, requestBody);
      if |responses| == 0 {
        responses := [RouteResponse(200, "OK", Some(schema))];
      } else {
        var i := SuccessIndex(responses);
        responses := responses[i := responses[i].(schema := Some(schema))];
      }
    }

    method WithSchemaComponents(components: seq<Component>)
      modifies this`schemaComponents
      ensures schemaComponents == AddComponents(old(schemaComponents), components)
    {
      for i := 0 to |components|
        invariant AddComponents(old(schemaComponents), components) == AddComponents(schemaComponents, components[i..])
      {
        assert components[i..][0] == components[i] && components[i..][1..] == components[i + 1..];
        if components[i].name !in NamesOf(schemaComponents) {
          schemaComponents := schemaComponents + [components[i]];
        }
      }
    }
  }

  /** The references in the request body and in the responses of a route. */
  ghost function RouteRefs(responses: seq<RouteResponse>, requestBody: Option<Schema>): set<string> {
    (set r, n | r in responses && r.schema.Some? && n in Refs(r.schema.value) :: n)
    + if requestBody.Some? then Refs(requestBody.value) else {}
  }

  lemma {:induction false} WithSuccessRefs(responses: seq<RouteResponse>, schema: Schema, requestBody: Option<Schema>)
    ensures RouteRefs(WithSuccess(responses, schema), requestBody) <= RouteRefs(responses, requestBody) + Refs(schema)
  {
  }

  // ---------------------------------------------------------------- what the macros generate for a handler

  /** What is documented about a route besides its types. */
  datatype RouteInfo = RouteInfo(
    summary: Option<string>, description: Option<string>, tags: seq<string>, requiresAuth: bool,
      requiredRoles: seq<string>)

  datatype Declared = Declared(status: nat, description: string)

  /** A handler as the macros see it: its merged metadata, its declared responses, its argument and return types. */
  datatype Signature = Signature(
    verb: string, path: string, info: RouteInfo, declared: seq<Declared>, args: seq<Ty>, output: Option<Ty>)

  /** A finished route as the document generator takes it. */
  datatype Route = Route(
    verb: string, path: string, info: RouteInfo, responses: seq<RouteResponse>, requestBody: Option<Schema>,
    components: seq<Component>)

  ghost predicate IsClosed(r: Route) {
    RouteRefs(r.responses, r.requestBody) <= NamesOf(r.components) && DistinctNames(r.components)
  }

  /** The declared responses, or a plain 200 when none is declared. */
  function InitialResponses(declared: seq<Declared>): (r: seq<RouteResponse>)
    ensures forall x | x in r :: x.schema.None?
  {
    if declared == [] then [RouteResponse(200, "OK", None)] else DeclaredResponses(declared)
  }

  function DeclaredResponses(declared: seq<Declared>): (r: seq<RouteResponse>)
    ensures forall x | x in r :: x.schema.None?
  {
    if declared == [] then []
    else [RouteResponse(declared[0].status, declared[0].description, None)] + DeclaredResponses(declared[1..])
  }

  function WithRequest(r: Route, payload: Option<Payload>): Route {
    if payload.None? then r
    else r.(requestBody := Some(payload.value.schema),
      components := AddComponents(r.components, payload.value.components))
  }

  function WithResponse(r: Route, payload: Option<Payload>): Route {
    if payload.None? then r
    else
      r.(responses := WithSuccess(r.responses, payload.value.schema),
         components := AddComponents(r.components, payload.value.components))
  }

  function ReturnPayload(output: Option<Ty>, serializers: Serializers, impls: Impls): Option<Payload> {
    if output.None? then None else Some(ResponsePayload(output.value, serializers, impls))
  }

  /** The documentation of one handler. */
  function Documented(sig: Signature, serializers: Serializers, impls: Impls): Route {
    var start := Route(sig.verb, sig.path, sig.info, InitialResponses(sig.declared), None, []);
    WithResponse(WithRequest(start, RequestPayload(sig.args, impls)), ReturnPayload(sig.output, serializers, impls))
  }

  lemma {:induction false} WithRequestIsClosed(r: Route, payload: Option<Payload>)
    requires IsClosed(r) && r.requestBody.None? && (payload.Some? ==> Covered(payload.value))
    ensures IsClosed(WithRequest(r, payload))
  {
    if payload.Some? {
      AddComponentsNames(r.components, payload.value.components);
    }
  }

  lemma {:induction false} WithResponseIsClosed(r: Route, payload: Option<Payload>)
    requires IsClosed(r) && (payload.Some? ==> Covered(payload.value))
    ensures IsClosed(WithResponse(r, payload))
  {
    if payload.Some? {
      AddComponentsNames(r.components, payload.value.components);
      WithSuccessRefs(r.responses, payload.value.schema, r.requestBody);
    }
  }

  /** Whatever the handler's types nest, every reference in its documentation names one of its components. */
  lemma {:induction false} DocumentedIsClosed(sig: Signature, serializers: Serializers, impls: Impls)
    requires Sound(impls)
    ensures IsClosed(Documented(sig, serializers, impls))
  {
    var start := Route(sig.verb, sig.path, sig.info, InitialResponses(sig.declared), None, []);
    assert RouteRefs(start.responses, None) == {};
    RequestIsCovered(sig.args, impls);
    WithRequestIsClosed(start, RequestPayload(sig.args, impls));
    if sig.output.Some? {
      ResponseIsCovered(sig.output.value, serializers, impls);
    }
    WithResponseIsClosed(WithRequest(start, RequestPayload(sig.args, impls)),
      ReturnPayload(sig.output, serializers, impls));
  }

  /** The generated code: a documentation object built up call by call. */
  method DocumentRoute(sig: Signature, serializers: Serializers, impls: Impls) returns (doc: RouteDocumentation)
    ensures fresh(doc)
    ensures Route(sig.verb, sig.path, sig.info, doc.responses, doc.requestBody, doc.schemaComponents)
         == Documented(sig, serializers, impls)
    ensures Sound(impls) ==> doc.Closed()
  {
    if Sound(impls) {
      DocumentedIsClosed(sig, serializers, impls);
    }
    doc := new RouteDocumentation(InitialResponses(sig.declared));
    var request := RequestPayload(sig.args, impls);
    if request.Some? {
      doc.requestBody := Some(request.value.schema);
      doc.WithSchemaComponents(request.value.components);
    }
    if sig.output.Some? {
      var payload := ResponsePayload(sig.output.value, serializers, impls);
      doc.WithSuccessResponseSchema(payload.schema);
      doc.WithSchemaComponents(payload.components);
    }
  }

  // ---------------------------------------------------------------- components of all routes

  ghost function CollectFrom(known: seq<Component>, routes: seq<Route>): seq<Component>
    decreases |routes|
  {
    if routes == [] then known else CollectFrom(AddComponents(known, routes[0].components), routes[1..])
  }

  lemma {:induction false} CollectedNames(known: seq<Component>, routes: seq<Route>)
    requires DistinctNames(known)
    ensures DistinctNames(CollectFrom(known, routes)) && NamesOf(known) <= NamesOf(CollectFrom(known, routes))
    ensures forall r | r in routes :: NamesOf(r.components) <= NamesOf(CollectFrom(known, routes))
    decreases |routes|
  {
    if routes != [] {
      AddComponentsNames(known, routes[0].components);
      CollectedNames(AddComponents(known, routes[0].components), routes[1..]);
      assert forall r | r in routes :: r == routes[0] || r in routes[1..];
    }
  }

  /**
   Collects the components of all routes, the first of each name; every reference of every closed route names exactly
   one.
   */
  method CollectSchemaComponents(routes: seq<Route>) returns (components: seq<Component>)
    ensures components == CollectFrom([], routes) && DistinctNames(components)
    ensures forall r | r in routes && IsClosed(r) :: RouteRefs(r.responses, r.requestBody) <= NamesOf(components)
  {
    components := [];
    ghost var all := CollectFrom([], routes);
    CollectedNames([], routes);
    for i := 0 to |routes|
      invariant all == CollectFrom(components, routes[i..])
    {
      assert routes[i..][0] == routes[i] && routes[i..][1..] == routes[i + 1..];
      var more := routes[i].components;
      ghost var start := components;
      for j := 0 to |more|
        invariant AddComponents(start, more) == AddComponents(components, more[j..])
      {
        assert more[j..][0] == more[j] && more[j..][1..] == more[j + 1..];
        if more[j].name !in NamesOf(components) {
          components := components + [more[j]];
        }
      }
    }
  }
}
