/**
 What the references of a generated document lead to: the collectors keep the first component of each name,
   and a derived
 name is the bare identifier of the type.
 */
module SchemaNames {
  import opened Prelude
  import opened SchemaRefs
  import opened OpenApiDocument

  // ---------------------------------------------------------------- the first of each name is kept

  /** The body of the first component of a name. */
  function First(cs: seq<Component>, name: string): Option<Body> {
    if cs == [] then None else if cs[0].name == name then Some(cs[0].body) else First(cs[1..], name)
  }

  lemma {:induction false} FirstAppend(a: seq<Component>, b: seq<Component>, name: string)
    ensures First(a + b, name) == if First(a, name).Some? then First(a, name) else First(b, name)
    decreases |a|
  {
    if a == [] {
      assert a + b == b;
    } else {
      assert (a + b)[1..] == a[1..] + b;
      FirstAppend(a[1..], b, name);
    }
  }

  lemma {:induction false} FirstIffNamed(cs: seq<Component>, name: string)
    ensures First(cs, name).Some? <==> name in NamesOf(cs)
    decreases |cs|
  {
    if cs != [] {
      FirstIffNamed(cs[1..], name);
      assert forall c | c in cs :: c == cs[0] || c in cs[1..];
      assert cs[0] in cs;
    }
  }

  lemma {:induction false} FirstOfAdded(known: seq<Component>, more: seq<Component>, name: string)
    ensures First(AddComponents(known, more), name)
         == if First(known, name).Some? then First(known, name) else First(more, name)
    decreases |more|
  {
    if more != [] {
      var c := more[0];
      FirstOfAdded(if c.name in NamesOf(known) then known else known + [c], more[1..], name);
      FirstAppend(known, [c], name);
      FirstIffNamed(known, c.name);
      assert First([c], name) == if c.name == name then Some(c.body) else None;
    }
  }

  lemma {:induction false} SchemasAreFirst(cs: seq<Component>, name: string)
    requires DistinctNames(cs)
    ensures name in SchemasOf(cs) <==> First(cs, name).Some?
    ensures name in SchemasOf(cs) ==> Some(SchemasOf(cs)[name]) == First(cs, name)
    decreases |cs|
  {
    if cs != [] {
      var n := |cs| - 1;
      SchemasAreFirst(cs[..n], name);
      FirstAppend(cs[..n], [cs[n]], name);
      FirstIffNamed(cs[..n], name);
      assert cs[..n] + [cs[n]] == cs;
      assert First([cs[n]], name) == if cs[n].name == name then Some(cs[n].body) else None;
      assert forall c | c in cs[..n] :: c.name != cs[n].name;
    }
  }

  // ---------------------------------------------------------------- the types that handlers document

  predicate IsExtractor(ty: Ty) {
    (ty.name == "ValidatedBody" || ty.name == "Body" || ty.name == "Json") && ty.args != []
  }

  /** The i-th argument is the first that extracts a body. */
  ghost predicate ExtractsFirst(args: seq<Ty>, i: nat) {
    i < |args| && IsExtractor(args[i]) && forall j | 0 <= j < i :: !IsExtractor(args[j])
  }

  /** What the first argument that extracts a body extracts. */
  function RequestType(args: seq<Ty>): Option<Ty> {
    if args == [] then None
    else
      var inner := InnerOf(args[0], {"ValidatedBody", "Body", "Json"});
      if inner.Some? then inner else RequestType(args[1..])
  }

  lemma {:induction false} RequestTypeIsFirst(args: seq<Ty>) returns (i: nat)
    ensures RequestType(args).None? ==> forall j | 0 <= j < |args| :: !IsExtractor(args[j])
    ensures RequestType(args).Some? ==> ExtractsFirst(args, i) && RequestType(args) == Some(args[i].args[0])
    decreases |args|
  {
    if args != [] && !IsExtractor(args[0]) {
      i := RequestTypeIsFirst(args[1..]);
      i := i + 1;
      assert forall j | 0 < j < |args| :: args[j] == args[1..][j - 1];
    } else {
      i := 0;
    }
  }

  /** The type whose components are documented for a return type. */
  function ResponseType(ty: Ty, serializers: Serializers): Ty {
    if (ty.name == "ApiSerializedResult" || ty.name == "Serialized") && |ty.args| >= 2 then
      serializers(ty.args[0], ty.args[1])
    else if (ty.name == "ApiEnvelopeResult" || ty.name == "ResponseEnvelope") && ty.args != [] then
      ty.args[0]
    else if (ty.name == "ApiResult" || ty.name == "Json" || ty.name == "Result") && ty.args != [] then
      ResponseType(ty.args[0], serializers)
    else
      ty
  }

  /** The payload is wrapped in the success envelope. */
  predicate IsEnveloped(ty: Ty) {
    ty.args != []
    && if ty.name == "ApiEnvelopeResult" || ty.name == "ResponseEnvelope" then true
       else (ty.name == "ApiResult" || ty.name == "Json" || ty.name == "Result") && IsEnveloped(ty.args[0])
  }

  /** The innermost types of a handler's request body and response. */
  function LeavesOf(sig: Signature, serializers: Serializers): seq<Ty> {
    (if RequestType(sig.args).Some? then [Leaf(RequestType(sig.args).value)] else [])
    + (if sig.output.Some? then [Leaf(ResponseType(sig.output.value, serializers))] else [])
  }

  function AllLeaves(sigs: seq<Signature>, serializers: Serializers): seq<Ty> {
    if sigs == [] then [] else LeavesOf(sigs[0], serializers) + AllLeaves(sigs[1..], serializers)
  }

  /** The first derived type of a name. */
  function FirstLeaf(leaves: seq<Ty>, name: string): (r: Option<Ty>)
    ensures r.Some? ==> r.value in leaves && !IsPrimitive(r.value) && r.value.name == name
    ensures r.None? ==> forall t | t in leaves && !IsPrimitive(t) :: t.name != name
  {
    if leaves == [] then None
    else if !IsPrimitive(leaves[0]) && leaves[0].name == name then Some(leaves[0])
    else FirstLeaf(leaves[1..], name)
  }

  lemma {:induction false} FirstLeafAppend(a: seq<Ty>, b: seq<Ty>, name: string)
    ensures FirstLeaf(a + b, name) == if FirstLeaf(a, name).Some? then FirstLeaf(a, name) else FirstLeaf(b, name)
    decreases |a|
  {
    if a == [] {
      assert a + b == b;
    } else {
      assert (a + b)[1..] == a[1..] + b;
      FirstLeafAppend(a[1..], b, name);
    }
  }

  function BodyOf(leaf: Option<Ty>, structs: Structs): Option<Body> {
    if leaf.None? then None else Some(DerivedBody(structs(leaf.value)))
  }

  /** A type brings the component of the type inside its lists and options, and refers to that. */
  lemma {:induction false} TypeBringsLeaf(ty: Ty, structs: Structs, name: string)
    ensures First(SchemaComponents(ty, Provided(structs)), name) == BodyOf(FirstLeaf([Leaf(ty)], name), structs)
    ensures Refs(SchemaOrRef(ty, Provided(structs))) == Refs(DerivedSchema(ty)) == RefsOf(Leaf(ty))
  {
    if IsList(ty) || IsOption(ty) {
      TypeBringsLeaf(ty.args[0], structs, name);
    }
  }

  function RefsOf(leaf: Ty): set<string> {
    if IsPrimitive(leaf) then {} else {leaf.name}
  }

  lemma {:induction false} RequestBringsLeaf(args: seq<Ty>, structs: Structs, name: string)
    ensures RequestPayload(args, Provided(structs)).Some? <==> RequestType(args).Some?
    ensures RequestType(args).Some? ==>
      var payload, leaf := RequestPayload(args, Provided(structs)).value, Leaf(RequestType(args).value);
      First(payload.components, name) == BodyOf(FirstLeaf([leaf], name), structs)
        && Refs(payload.schema) == RefsOf(leaf)
  {
    if args != [] {
      var inner := InnerOf(args[0], {"ValidatedBody", "Body", "Json"});
      if inner.Some? {
        TypeBringsLeaf(inner.value, structs, name);
      } else {
        RequestBringsLeaf(args[1..], structs, name);
      }
    }
  }

  lemma {:induction false} ResponseIsOfType(ty: Ty, serializers: Serializers, impls: Impls)
    ensures var payload, inner := ResponsePayload(ty, serializers, impls), ResponseType(ty, serializers);
      && payload.components == SchemaComponents(inner, impls)
      && payload.schema == if IsEnveloped(ty) then Envelope(SchemaOrRef(inner, impls)) else SchemaOrRef(inner, impls)
  {
    if (ty.name == "ApiResult" || ty.name == "Json" || ty.name == "Result") && ty.args != [] {
      ResponseIsOfType(ty.args[0], serializers, impls);
    }
  }

  lemma {:induction false} ResponseBringsLeaf(ty: Ty, serializers: Serializers, structs: Structs, name: string)
    ensures var payload, leaf := ResponsePayload(ty, serializers, Provided(structs)),
      Leaf(ResponseType(ty, serializers));
      First(payload.components, name) == BodyOf(FirstLeaf([leaf], name), structs)
        && Refs(payload.schema) == RefsOf(leaf)
  {
    ResponseIsOfType(ty, serializers, Provided(structs));
    TypeBringsLeaf(ResponseType(ty, serializers), structs, name);
  }

  lemma {:induction false} RequestIsOfType(args: seq<Ty>, impls: Impls)
    ensures RequestPayload(args, impls)
         == if RequestType(args).None? then None
            else
              Some(Payload(SchemaOrRef(RequestType(args).value, impls),
                SchemaComponents(RequestType(args).value, impls)))
  {
    if args != [] && InnerOf(args[0], {"ValidatedBody", "Body", "Json"}).None? {
      RequestIsOfType(args[1..], impls);
    }
  }

  /** What is documented of types that are primitive or derived, inside their lists and options. */
  lemma {:induction false} SchemaFollowsType(ty: Ty, structs: Structs)
    ensures var schema := SchemaOrRef(ty, Provided(structs));
      && (schema.ArrayOf? <==> IsList(ty)) && (schema.Nullable? <==> IsOption(ty))
      && (IsList(ty) ==> schema.items == SchemaOrRef(ty.args[0], Provided(structs)))
      && (IsOption(ty) ==> schema.inner == SchemaOrRef(ty.args[0], Provided(structs)))
      && (!IsList(ty) && !IsOption(ty) ==> schema == if IsPrimitive(ty) then Inline(ty.name) else Ref(ty.name))
  {
  }

  /** The statuses and descriptions are those declared, or a plain 200. */
  ghost predicate KeepsDeclared(declared: seq<Declared>, responses: seq<RouteResponse>) {
    if declared == [] then |responses| == 1 && responses[0].status == 200 && responses[0].description == "OK"
    else |responses| == |declared| && forall i | 0 <= i < |declared| :: RepeatsDeclared(declared[i], responses[i])
  }

  ghost predicate RepeatsDeclared(declared: Declared, response: RouteResponse) {
    response.status == declared.status && response.description == declared.description
  }

  /** The schema stands at the place of success, and nowhere else is one. */
  ghost predicate HasSchemaAt(responses: seq<RouteResponse>, i: nat, schema: Option<Schema>) {
    && IsSuccessPlace(responses, i) && responses[i].schema == schema
    && forall j | 0 <= j < |responses| && j != i :: responses[j].schema.None?
  }

  lemma {:induction false} DeclaredAreKept(declared: seq<Declared>)
    ensures |DeclaredResponses(declared)| == |declared|
    ensures forall i | 0 <= i < |declared| ::
      DeclaredResponses(declared)[i] == RouteResponse(declared[i].status, declared[i].description, None)
  {
    if declared != [] {
      DeclaredAreKept(declared[1..]);
    }
  }

  ghost predicate SameLabels(a: seq<RouteResponse>, b: seq<RouteResponse>) {
    |a| == |b| && forall i | 0 <= i < |a| :: a[i].status == b[i].status && a[i].description == b[i].description
  }

  lemma {:induction false} AttachedOnce(start: seq<RouteResponse>, schema: Schema) returns (i: nat)
    requires start != [] && forall j | 0 <= j < |start| :: start[j].schema.None?
    ensures SameLabels(start, WithSuccess(start, schema)) && HasSchemaAt(WithSuccess(start, schema), i, Some(schema))
  {
    i := WithSuccessAttaches(start, schema);
  }

  lemma {:induction false} LabelsAreKept(declared: seq<Declared>, a: seq<RouteResponse>, b: seq<RouteResponse>)
    requires KeepsDeclared(declared, a) && SameLabels(a, b)
    ensures KeepsDeclared(declared, b)
  {
    if declared != [] {
      forall i | 0 <= i < |declared|
        ensures RepeatsDeclared(declared[i], b[i])
      {
        assert RepeatsDeclared(declared[i], a[i]);
      }
    }
  }

  lemma {:induction false} ResponsesMean(declared: seq<Declared>, schema: Option<Schema>) returns (i: nat)
    ensures var start := InitialResponses(declared);
      var responses := if schema.None? then start else WithSuccess(start, schema.value);
      KeepsDeclared(declared, responses) && HasSchemaAt(responses, i, schema)
  {
    var start := InitialResponses(declared);
    DeclaredAreKept(declared);
    assert KeepsDeclared(declared, start);
    assert forall j | 0 <= j < |start| :: start[j] in start;
    if schema.None? {
      i := SuccessIndex(start);
    } else {
      i := AttachedOnce(start, schema.value);
      LabelsAreKept(declared, start, WithSuccess(start, schema.value));
    }
  }

  /** The schema documented for a return type, in its envelope if it has one. */
  function ResponseSchema(output: Option<Ty>, serializers: Serializers, impls: Impls): Option<Schema> {
    if output.None? then None
    else
      var inner := SchemaOrRef(ResponseType(output.value, serializers), impls);
      Some(if IsEnveloped(output.value) then Envelope(inner) else inner)
  }

  /**
   All that a handler's documentation says: its metadata and declared responses as they are, the schema of what its
   first body extractor extracts, and the schema of what it answers, at the one place of success.
   */
  lemma {:induction false} DocumentedMeans(sig: Signature, serializers: Serializers, impls: Impls) returns (i: nat)
    ensures var r := Documented(sig, serializers, impls);
      && r.verb == sig.verb && r.path == sig.path && r.info == sig.info
      && KeepsDeclared(sig.declared, r.responses)
      && HasSchemaAt(r.responses, i, ResponseSchema(sig.output, serializers, impls))
      && (RequestType(sig.args).None? ==> r.requestBody == None)
      && (RequestType(sig.args).Some? ==> r.requestBody == Some(SchemaOrRef(RequestType(sig.args).value, impls)))
  {
    RequestIsOfType(sig.args, impls);
    if sig.output.Some? {
      ResponseIsOfType(sig.output.value, serializers, impls);
    }
    i := ResponsesMean(sig.declared, ResponseSchema(sig.output, serializers, impls));
  }

  /** A handler's components are its innermost types', the first of each name; its references name these. */
  lemma {:induction false} DocumentedLeaves(sig: Signature, serializers: Serializers, structs: Structs, name: string)
    ensures var r := Documented(sig, serializers, Provided(structs));
      && First(r.components, name) == BodyOf(FirstLeaf(LeavesOf(sig, serializers), name), structs)
      && (name in RouteRefs(r.responses, r.requestBody) <==> FirstLeaf(LeavesOf(sig, serializers), name).Some?)
  {
    var impls := Provided(structs);
    var request, output := RequestPayload(sig.args, impls), ReturnPayload(sig.output, serializers, impls);
    var start := Route(sig.verb, sig.path, sig.info, InitialResponses(sig.declared), None, []);
    var asked := WithRequest(start, request);
    var a := if RequestType(sig.args).Some? then [Leaf(RequestType(sig.args).value)] else [];
    var b := if sig.output.Some? then [Leaf(ResponseType(sig.output.value, serializers))] else [];
    FirstLeafAppend(a, b, name);
    assert RouteRefs(start.responses, None) == {};
    RequestBringsLeaf(sig.args, structs, name);
    if request.Some? {
      FirstOfAdded([], request.value.components, name);
    }
    assert First(asked.components, name) == BodyOf(FirstLeaf(a, name), structs);
    assert name in RouteRefs(asked.responses, asked.requestBody) <==> FirstLeaf(a, name).Some?;
    if sig.output.Some? {
      ResponseBringsLeaf(sig.output.value, serializers, structs, name);
      FirstOfAdded(asked.components, output.value.components, name);
      WithSuccessRefs(asked.responses, output.value.schema, asked.requestBody);
      SuccessIsReferred(asked.responses, output.value.schema, asked.requestBody);
    }
  }

  lemma {:induction false} SuccessIsReferred(responses: seq<RouteResponse>, schema: Schema,
      requestBody: Option<Schema>)
    requires forall x | x in responses :: x.schema.None?
    ensures RouteRefs(WithSuccess(responses, schema), requestBody)
         == Refs(schema) + if requestBody.Some? then Refs(requestBody.value) else {}
  {
    var after := WithSuccess(responses, schema);
    var i := WithSuccessAttaches(responses, schema);
    assert after[i] in after;
  }

  lemma {:induction false} CollectedLeaves(known: seq<Component>, sigs: seq<Signature>, serializers: Serializers,
      structs: Structs, name: string)
    ensures First(CollectFrom(known, DocumentedAll(sigs, serializers, Provided(structs))), name)
         == if First(known, name).Some? then First(known, name)
            else BodyOf(FirstLeaf(AllLeaves(sigs, serializers), name), structs)
    decreases |sigs|
  {
    if sigs != [] {
      var routes := DocumentedAll(sigs, serializers, Provided(structs));
      var more := routes[0].components;
      DocumentedLeaves(sigs[0], serializers, structs, name);
      FirstOfAdded(known, more, name);
      assert routes[1..] == DocumentedAll(sigs[1..], serializers, Provided(structs));
      CollectedLeaves(AddComponents(known, more), sigs[1..], serializers, structs, name);
      FirstLeafAppend(LeavesOf(sigs[0], serializers), AllLeaves(sigs[1..], serializers), name);
    }
  }

  // ---------------------------------------------------------------- what references lead to

  /** The schemas of the document generated for handlers whose types are primitive or derived. */
  ghost function Schemas(sigs: seq<Signature>, serializers: Serializers, structs: Structs): map<string, Body> {
    SchemasOf(CollectFrom([], DocumentedAll(sigs, serializers, Provided(structs))))
  }

  /**
   The document has a schema for exactly the names of the innermost types, and it is that of the first of the name.
   */
  lemma {:induction false} SchemaIsOfFirst(sigs: seq<Signature>, serializers: Serializers, structs: Structs,
      name: string)
    ensures var schemas, first := Schemas(sigs, serializers, structs), FirstLeaf(AllLeaves(sigs, serializers), name);
      (name in schemas <==> first.Some?) && (name in schemas ==> schemas[name] == DerivedBody(structs(first.value)))
  {
    var routes := DocumentedAll(sigs, serializers, Provided(structs));
    CollectedNames([], routes);
    SchemasAreFirst(CollectFrom([], routes), name);
    CollectedLeaves([], sigs, serializers, structs, name);
  }

  /** Types of one name have one body. */
  ghost predicate NamesAgree(leaves: seq<Ty>, structs: Structs) {
    forall t, u | t in leaves && u in leaves && !IsPrimitive(t) && !IsPrimitive(u) && t.name == u.name ::
      DerivedBody(structs(t)) == DerivedBody(structs(u))
  }

  /** The schema under a type's name is the type's own. */
  ghost predicate HasOwnSchema(t: Ty, schemas: map<string, Body>, structs: Structs) {
    t.name in schemas && schemas[t.name] == DerivedBody(structs(t))
  }

  /**
   Every type that the handlers document finds its own schema under its name if and only if the types that share a name
   share a body.
   */
  lemma {:induction false} OwnSchemasIff(sigs: seq<Signature>, serializers: Serializers, structs: Structs)
    ensures var leaves, schemas := AllLeaves(sigs, serializers), Schemas(sigs, serializers, structs);
      (forall t | t in leaves && !IsPrimitive(t) :: HasOwnSchema(t, schemas, structs)) <==> NamesAgree(leaves, structs)
  {
    var leaves, schemas := AllLeaves(sigs, serializers), Schemas(sigs, serializers, structs);
    forall t | t in leaves && !IsPrimitive(t)
      ensures NamesAgree(leaves, structs) ==> HasOwnSchema(t, schemas, structs)
    {
      SchemaIsOfFirst(sigs, serializers, structs, t.name);
    }
    if forall t | t in leaves && !IsPrimitive(t) :: HasOwnSchema(t, schemas, structs) {
      forall t, u | t in leaves && u in leaves && !IsPrimitive(t) && !IsPrimitive(u) && t.name == u.name
        ensures DerivedBody(structs(t)) == DerivedBody(structs(u))
      {
        assert HasOwnSchema(t, schemas, structs) && HasOwnSchema(u, schemas, structs);
      }
    }
  }

  /** Then every reference at every path and method leads to the body of the handler's own type of that name. */
  lemma {:induction false} ReferenceLeadsToOwnType(sigs: seq<Signature>, serializers: Serializers, structs: Structs,
      path: string, verb: string, name: string) returns (i: nat, t: Ty)
    requires NamesAgree(AllLeaves(sigs, serializers), structs)
    requires var paths := PathsOf(DocumentedAll(sigs, serializers, Provided(structs)));
      Documents(paths, path, verb) && name in OperationRefs(paths[path][verb])
    ensures i < |sigs| && sigs[i].path == path && Lower(sigs[i].verb) == verb
    ensures t in LeavesOf(sigs[i], serializers) && !IsPrimitive(t) && t.name == name
    ensures HasOwnSchema(t, Schemas(sigs, serializers, structs), structs)
  {
    i := AnsweringSignature(sigs, serializers, Provided(structs), path, verb, name);
    DocumentedLeaves(sigs[i], serializers, structs, name);
    t := FirstLeaf(LeavesOf(sigs[i], serializers), name).value;
    LeavesAreAmongAll(sigs, serializers, i, t);
    OwnSchemasIff(sigs, serializers, structs);
  }

  lemma {:induction false} AnsweringSignature(sigs: seq<Signature>, serializers: Serializers, impls: Impls,
      path: string, verb: string, name: string) returns (i: nat)
    requires var paths := PathsOf(DocumentedAll(sigs, serializers, impls));
      Documents(paths, path, verb) && name in OperationRefs(paths[path][verb])
    ensures i < |sigs| && sigs[i].path == path && Lower(sigs[i].verb) == verb
    ensures var r := Documented(sigs[i], serializers, impls); name in RouteRefs(r.responses, r.requestBody)
  {
    var routes := DocumentedAll(sigs, serializers, impls);
    var r := LastAnswering(routes, path, verb);
    i :| 0 <= i < |routes| && routes[i] == r;
    OperationKeepsRefs(r);
    DocumentedKeepsPlace(sigs[i], serializers, impls);
  }

  lemma {:induction false} DocumentedKeepsPlace(sig: Signature, serializers: Serializers, impls: Impls)
    ensures var r := Documented(sig, serializers, impls); r.path == sig.path && r.verb == sig.verb
  {
  }

  lemma {:induction false} LeavesAreAmongAll(sigs: seq<Signature>, serializers: Serializers, i: nat, t: Ty)
    requires i < |sigs| && t in LeavesOf(sigs[i], serializers)
    ensures t in AllLeaves(sigs, serializers)
    decreases i
  {
    if i > 0 {
      LeavesAreAmongAll(sigs[1..], serializers, i - 1, t);
    }
  }

  /** Two types of one identifier in different modules: the second one's references lead to the first one's body. */
  lemma {:induction false} FirstOfNameStands(a: Signature, b: Signature, serializers: Serializers, structs: Structs,
      t: Ty, u: Ty)
    requires LeavesOf(a, serializers) == [t] && LeavesOf(b, serializers) == [u]
    requires !IsPrimitive(t) && !IsPrimitive(u) && t.name == u.name
    requires DerivedBody(structs(t)) != DerivedBody(structs(u))
    ensures var schemas := Schemas([a, b], serializers, structs);
      HasOwnSchema(t, schemas, structs) && !HasOwnSchema(u, schemas, structs)
  {
    assert [a, b][1..] == [b] && [b][1..] == [];
    assert AllLeaves([b], serializers) == [u] + AllLeaves([], serializers) == [u];
    assert AllLeaves([a, b], serializers) == [t] + [u];
    SchemaIsOfFirst([a, b], serializers, structs, t.name);
  }

  // ---------------------------------------------------------------- references between component bodies

  ghost function BodyRefs(b: Body): set<string> {
    set p, n | p in b.properties && n in Refs(p.schema) :: n
  }

  /** Every field's innermost type is primitive or has the name of one of the given types. */
  ghost predicate FieldsAreNamed(fields: seq<Field>, leaves: seq<Ty>) {
    forall f | f in fields && !IsPrimitive(Leaf(f.ty)) :: FirstLeaf(leaves, Leaf(f.ty).name).Some?
  }

  lemma {:induction false} BodyRefsAreFields(fields: seq<Field>, structs: Structs)
    ensures BodyRefs(DerivedBody(fields)) == set f | f in fields && !IsPrimitive(Leaf(f.ty)) :: Leaf(f.ty).name
  {
    var body := DerivedBody(fields);
    forall n | n in BodyRefs(body)
      ensures exists f :: f in fields && !IsPrimitive(Leaf(f.ty)) && Leaf(f.ty).name == n
    {
      var i :| 0 <= i < |fields| && n in Refs(body.properties[i].schema);
      TypeBringsLeaf(fields[i].ty, structs, n);
      assert fields[i] in fields;
    }
    forall f | f in fields && !IsPrimitive(Leaf(f.ty))
      ensures Leaf(f.ty).name in BodyRefs(body)
    {
      var i :| 0 <= i < |fields| && fields[i] == f;
      TypeBringsLeaf(f.ty, structs, Leaf(f.ty).name);
      assert body.properties[i] in body.properties;
    }
  }

  /**
   A derived component brings no components for the types of its fields. So the references inside the document's schemas
   resolve if and only if every field of the first type of each name is primitive inside its lists and options, or has
   the name of a type that some handler documents itself.
   */
  lemma {:induction false} FieldRefsResolveIff(sigs: seq<Signature>, serializers: Serializers, structs: Structs)
    ensures var leaves, schemas := AllLeaves(sigs, serializers), Schemas(sigs, serializers, structs);
      (forall name | name in schemas :: BodyRefs(schemas[name]) <= schemas.Keys)
      <==> forall t | t in leaves && FirstLeaf(leaves, t.name) == Some(t) :: FieldsAreNamed(structs(t), leaves)
  {
    var leaves, schemas := AllLeaves(sigs, serializers), Schemas(sigs, serializers, structs);
    forall name
      ensures name in schemas <==> FirstLeaf(leaves, name).Some?
      ensures name in schemas ==> (BodyRefs(schemas[name]) <= schemas.Keys
        <==> FieldsAreNamed(structs(FirstLeaf(leaves, name).value), leaves))
    {
      SchemaIsOfFirst(sigs, serializers, structs, name);
      if name in schemas {
        FieldsResolveIff(sigs, serializers, structs, structs(FirstLeaf(leaves, name).value));
      }
    }
    forall t | t in leaves && FirstLeaf(leaves, t.name) == Some(t)
      ensures (forall name | name in schemas :: BodyRefs(schemas[name]) <= schemas.Keys)
        ==> FieldsAreNamed(structs(t), leaves)
    {
      assert t.name in schemas;
    }
  }

  lemma {:induction false} FieldsResolveIff(sigs: seq<Signature>, serializers: Serializers, structs: Structs,
      fields: seq<Field>)
    ensures BodyRefs(DerivedBody(fields)) <= Schemas(sigs, serializers, structs).Keys
      <==> FieldsAreNamed(fields, AllLeaves(sigs, serializers))
  {
    BodyRefsAreFields(fields, structs);
    forall f | f in fields && !IsPrimitive(Leaf(f.ty))
      ensures Leaf(f.ty).name in Schemas(sigs, serializers, structs)
        <==> FirstLeaf(AllLeaves(sigs, serializers), Leaf(f.ty).name).Some?
      ensures Leaf(f.ty).name in BodyRefs(DerivedBody(fields))
    {
      SchemaIsOfFirst(sigs, serializers, structs, Leaf(f.ty).name);
    }
  }

  /** A handler whose type has a field of another derived type, documented by nobody: that reference dangles. */
  lemma {:induction false} NestedFieldDangles(sig: Signature, serializers: Serializers, structs: Structs, t: Ty,
      f: Field)
    requires LeavesOf(sig, serializers) == [t] && !IsPrimitive(t) && f in structs(t)
    requires !IsPrimitive(Leaf(f.ty)) && Leaf(f.ty).name != t.name
    ensures var schemas := Schemas([sig], serializers, structs);
      t.name in schemas && Leaf(f.ty).name in BodyRefs(schemas[t.name]) && Leaf(f.ty).name !in schemas
  {
    assert [sig][1..] == [] && AllLeaves([sig], serializers) == [t] + [];
    SchemaIsOfFirst([sig], serializers, structs, t.name);
    SchemaIsOfFirst([sig], serializers, structs, Leaf(f.ty).name);
    BodyRefsAreFields(structs(t), structs);
  }
}
