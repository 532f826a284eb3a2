/** Creating, merging and replacing entities from JSON objects, and interleavings of these at lock granularity. */
module ResourceService {
  import opened Prelude
  import opened EntityStore

  /** How an entity type turns into a JSON value and back; decoding can fail. */
  datatype Codec = Codec(toValue: Entity -> Json, fromValue: Json -> Option<Entity>)

  /** The id field of the JSON object is called "id", both ways. */
  ghost predicate Lawful(codec: Codec) {
    && (forall e | codec.toValue(e).Object? ::
      "id" in codec.toValue(e).fields && codec.toValue(e).fields["id"] == Number(e.id))
    && (forall m | codec.fromValue(Object(m)).Some? ::
      "id" in m && m["id"] == Number(codec.fromValue(Object(m)).value.id))
  }

  datatype ResourceError = SerializeFailed | DtoNotObject | EntityNotObject

  type JsonMap = map<string, Json>

  /** The entity's object with every non-null field of the input, except "id", laid over it. */
  ghost function Merge(entity: JsonMap, dto: JsonMap): JsonMap {
    entity + map k | k in dto && k != "id" && dto[k] != Null :: dto[k]
  }

  /** The fields of `keys` laid over the entity. */
  ghost function Laid(entity: JsonMap, dto: JsonMap, keys: set<string>): JsonMap
    requires keys <= dto.Keys
  {
    entity + map k | k in keys && dto[k] != Null :: dto[k]
  }

  lemma {:induction false} LayOne(entity: JsonMap, dto: JsonMap, keys: set<string>, key: string)
    requires keys <= dto.Keys && key in dto
    ensures Laid(entity, dto, keys + {key}) == if dto[key] == Null then Laid(entity, dto, keys)
      else Laid(entity, dto, keys)[key := dto[key]]
  {
  }

  /** Whether the merge takes the field from the input. */
  predicate TakesField(dto: JsonMap, key: string) {
    key in dto && key != "id" && dto[key] != Null
  }

  method MergeFields(entity: JsonMap, dto: JsonMap) returns (merged: JsonMap)
    ensures merged == Merge(entity, dto)
    ensures forall key :: key in merged <==> key in entity || TakesField(dto, key)
    ensures forall key | key in merged :: merged[key] == if TakesField(dto, key) then dto[key] else entity[key]
  {
    merged := entity;
    var keys := dto.Keys - {"id"};
    ghost var all := keys;
    while keys != {}
      invariant keys <= all
      invariant merged == Laid(entity, dto, all - keys)
      decreases keys
    {
      var key :| key in keys;
      LayOne(entity, dto, all - keys, key);
      assert all - (keys - {key}) == all - keys + {key};
      if dto[key] != Null {
        merged := merged[key := dto[key]];
      }
      keys := keys - {key};
    }
    assert all - keys == all;
    assert Laid(entity, dto, all) == Merge(entity, dto);
  }

  /** The read half of `update_from`: the entity to be written, computed from what the store holds now. */
  ghost function Prepare(codec: Codec, items: seq<Entity>, id: Id, dto: Json): Result<Option<Entity>, ResourceError> {
    if !dto.Object? then Err(DtoNotObject)
    else
      var at := Position(items, id);
      if at.None? then Ok(None)
      else
        var value := codec.toValue(items[at.value]);
        if !value.Object? then Err(EntityNotObject)
        else
          var merged := codec.fromValue(Object(Merge(value.fields, dto.fields)));
          if merged.None? then Err(SerializeFailed) else Ok(merged)
  }

  /** What updating the entity from the input gives: one of two errors, or the merge of their fields. */
  ghost predicate IsMerged(codec: Codec, e: Entity, dto: Json, r: Result<Option<Entity>, ResourceError>)
    requires dto.Object?
  {
    var value := codec.toValue(e);
    if !value.Object? then r == Err(EntityNotObject)
    else
      var merged := codec.fromValue(Object(Merge(value.fields, dto.fields)));
      if merged.None? then r == Err(SerializeFailed) else r == Ok(merged)
  }

  /** The outcomes of the read half, in the order in which they are tried. */
  lemma {:induction false} PrepareMeans(codec: Codec, items: seq<Entity>, id: Id, dto: Json)
    ensures var r := Prepare(codec, items, id, dto);
      && (r == Err(DtoNotObject) <==> !dto.Object?)
      && (dto.Object? ==> (r == Ok(None) <==> !Holds(items, id)))
      && (dto.Object? && Holds(items, id) ==> exists e :: IsFirst(items, id, e) && IsMerged(codec, e, dto, r))
  {
    var at := Position(items, id);
    if at.Some? {
      assert items[at.value].id == id && IsFirst(items, id, items[at.value]);
    }
  }

  /** Merging never changes the id, whatever the input says about "id". */
  lemma {:induction false} PrepareKeepsId(codec: Codec, items: seq<Entity>, id: Id, dto: Json)
    requires Lawful(codec)
    ensures var r := Prepare(codec, items, id, dto); r.Ok? && r.value.Some? ==> r.value.value.id == id
  {
    if dto.Object? && Position(items, id).Some? {
      var value := codec.toValue(items[Position(items, id).value]);
      if value.Object? {
        var m := Merge(value.fields, dto.fields);
        assert "id" in m && m["id"] == value.fields["id"];
      }
    }
  }

  method CreateFrom(codec: Codec, store: InMemoryStore, dto: Json) returns (r: Result<Entity, ResourceError>)
    modifies store
    ensures !dto.Object? ==> r == Err(DtoNotObject) && store.items == old(store.items)
    ensures dto.Object? ==>
      var decoded := codec.fromValue(Object(dto.fields["id" := Number(0)]));
      if decoded.None? then r == Err(SerializeFailed) && store.items == old(store.items)
      else r.Ok? && (store.items, r.value) == Created(old(store.items), decoded.value)
  {
    if !dto.Object? {
      return Err(DtoNotObject);
    }
    var decoded := codec.fromValue(Object(dto.fields["id" := Number(0)]));
    if decoded.None? {
      return Err(SerializeFailed);
    }
    var e := store.Create(decoded.value);
    return Ok(e);
  }

  method UpdateFrom(codec: Codec, store: InMemoryStore, id: Id,
      dto: Json) returns (r: Result<Option<Entity>, ResourceError>)
    modifies store
    ensures r == Prepare(codec, old(store.items), id, dto)
    ensures r.Ok? && r.value.Some? ==> store.items == Put(old(store.items), id, r.value.value).0
    ensures r.Ok? && r.value.Some? && Lawful(codec) ==> r.value.value.id == id
    ensures r.Err? || r.value.None? ==> store.items == old(store.items)
  {
    if Lawful(codec) {
      PrepareKeepsId(codec, store.items, id, dto);
    }
    if !dto.Object? {
      return Err(DtoNotObject);
    }
    var at := store.FindIndex(id);
    if at.None? {
      return Ok(None);
    }
    var value := codec.toValue(store.items[at.value]);
    if !value.Object? {
      return Err(EntityNotObject);
    }
    var fields := MergeFields(value.fields, dto.fields);
    var merged := codec.fromValue(Object(fields));
    if merged.None? {
      return Err(SerializeFailed);
    }
    var updated := store.UpdateById(id, _ => merged.value);
    return Ok(updated);
  }

  method ReplaceFrom(codec: Codec, store: InMemoryStore, id: Id,
      dto: Json) returns (r: Result<Option<Entity>, ResourceError>)
    modifies store
    ensures !dto.Object? ==> r == Err(DtoNotObject) && store.items == old(store.items)
    ensures dto.Object? ==>
      var decoded := codec.fromValue(Object(dto.fields["id" := Number(id)]));
      if decoded.None? then r == Err(SerializeFailed) && store.items == old(store.items)
      else r.Ok? && (store.items, r.value) == Replaced(old(store.items), id, decoded.value)
  {
    if !dto.Object? {
      return Err(DtoNotObject);
    }
    var decoded := codec.fromValue(Object(dto.fields["id" := Number(id)]));
    if decoded.None? {
      return Err(SerializeFailed);
    }
    var e := store.ReplaceById(id, decoded.value);
    return Ok(e);
  }

  // ---------------------------------------------------------------- interleavings

  /** One critical section. An `update_from` takes two: it reads under one lock and writes under another. */
  datatype Step =
    | CreateStep(e: Entity)
    | ReplaceStep(id: Id, e: Entity)
    | DeleteStep(id: Id)
    | ReadStep(client: nat, id: Id, dto: Json)
    | WriteStep(client: nat)

  datatype Write = Write(id: Id, merged: Entity)

  datatype State = State(items: seq<Entity>, pending: map<nat, Write>, creates: nat, deletes: nat)

  ghost function Take(codec: Codec, step: Step, s: State): State {
    match step
    case CreateStep(e) => s.(items := Created(s.items, e).0, creates := s.creates + 1)
    case ReplaceStep(id, e) => s.(items := Replaced(s.items, id, e).0)
    case DeleteStep(id) =>
      var (items, removed) := Deleted(s.items, id);
      s.(items := items, deletes := s.deletes + if removed.Some? then 1 else 0)
    case ReadStep(client, id, dto) =>
      var r := Prepare(codec, s.items, id, dto);
      if r.Ok? && r.value.Some? then s.(pending := s.pending[client := Write(id, r.value.value)]) else s
    case WriteStep(client) =>
      if client !in s.pending then s
      else
        var w := s.pending[client];
        s.(items := Put(s.items, w.id, w.merged).0, pending := s.pending - {client})
  }

  ghost function TakeAll(codec: Codec, steps: seq<Step>, s: State): State
    decreases |steps|
  {
    if steps == [] then s else TakeAll(codec, steps[1..], Take(codec, steps[0], s))
  }

  ghost function CreatesIn(steps: seq<Step>): nat {
    if steps == [] then 0 else (if steps[0].CreateStep? then 1 else 0) + CreatesIn(steps[1..])
  }

  ghost predicate PendingKeepIds(s: State) {
    forall c | c in s.pending :: s.pending[c].merged.id == s.pending[c].id
  }

  /**
   Ids are distinct, waiting writes carry their own id, and the entities are the seed plus creations minus deletions.
   */
  ghost predicate Consistent(seed: seq<Entity>, s: State) {
    && DistinctIds(s.items) && (AscendingIds(seed) ==> AscendingIds(s.items)) && PendingKeepIds(s)
    && |s.items| == |seed| + s.creates - s.deletes
  }

  /** What every step but a creation keeps. */
  ghost predicate KeepsIds(s: State, s': State) {
    && DistinctIds(s'.items) && (AscendingIds(s.items) ==> AscendingIds(s'.items)) && PendingKeepIds(s')
    && MaxId(s'.items) <= MaxId(s.items)
    && |s'.items| + s'.deletes == |s.items| + s.deletes && s'.creates == s.creates
  }

  lemma {:induction false} ReplaceKeepsIds(codec: Codec, id: Id, e: Entity, s: State)
    requires DistinctIds(s.items) && PendingKeepIds(s)
    ensures KeepsIds(s, Take(codec, ReplaceStep(id, e), s))
  {
    PutKeepsIds(s.items, id, e.(id := id));
  }

  lemma {:induction false} DeleteStepKeepsIds(codec: Codec, id: Id, s: State)
    requires DistinctIds(s.items) && PendingKeepIds(s)
    ensures KeepsIds(s, Take(codec, DeleteStep(id), s))
  {
    DeleteKeepsIds(s.items, id);
  }

  lemma {:induction false} ReadKeepsIds(codec: Codec, client: nat, id: Id, dto: Json, s: State)
    requires Lawful(codec) && DistinctIds(s.items) && PendingKeepIds(s)
    ensures KeepsIds(s, Take(codec, ReadStep(client, id, dto), s))
  {
    PrepareKeepsId(codec, s.items, id, dto);
  }

  lemma {:induction false} WriteKeepsIds(codec: Codec, client: nat, s: State)
    requires DistinctIds(s.items) && PendingKeepIds(s)
    ensures KeepsIds(s, Take(codec, WriteStep(client), s))
  {
    if client in s.pending {
      PutKeepsIds(s.items, s.pending[client].id, s.pending[client].merged);
    }
  }

  lemma {:induction false} OtherStepsKeepIds(codec: Codec, step: Step, s: State)
    requires Lawful(codec) && DistinctIds(s.items) && PendingKeepIds(s) && !step.CreateStep?
    ensures KeepsIds(s, Take(codec, step, s))
  {
    match step
    case ReplaceStep(id, e) => ReplaceKeepsIds(codec, id, e, s);
    case DeleteStep(id) => DeleteStepKeepsIds(codec, id, s);
    case ReadStep(client, id, dto) => ReadKeepsIds(codec, client, id, dto, s);
    case WriteStep(client) => WriteKeepsIds(codec, client, s);
  }

  lemma {:induction false} CreateKeepsConsistent(codec: Codec, seed: seq<Entity>, e: Entity, s: State)
    requires Consistent(seed, s) && MaxId(s.items) < MAX_ID
    ensures Consistent(seed, Take(codec, CreateStep(e), s))
    ensures MaxId(Take(codec, CreateStep(e), s).items) == MaxId(s.items) + 1
  {
    CreateIsInsertIff(s.items, e);
    CreateAscends(s.items, e);
  }

  lemma {:induction false} StepKeepsConsistent(codec: Codec, seed: seq<Entity>, step: Step, s: State)
    requires Lawful(codec) && Consistent(seed, s) && (step.CreateStep? ==> MaxId(s.items) < MAX_ID)
    ensures Consistent(seed, Take(codec, step, s))
    ensures MaxId(Take(codec, step, s).items) <= MaxId(s.items) + if step.CreateStep? then 1 else 0
  {
    if step.CreateStep? {
      CreateKeepsConsistent(codec, seed, step.e, s);
    } else {
      OtherStepsKeepIds(codec, step, s);
    }
  }

  /**
   Every interleaving of creations, replacements, deletions and two-phase updates keeps the ids distinct (ascending, if
   the seed's were) and the count right, as long as the largest seed id leaves room for the creations.
   */
  lemma {:induction false} InterleavingsAreConsistent(codec: Codec, seed: seq<Entity>, steps: seq<Step>, s: State)
    requires Lawful(codec) && Consistent(seed, s) && MaxId(s.items) + CreatesIn(steps) <= MAX_ID
    ensures Consistent(seed, TakeAll(codec, steps, s))
    decreases |steps|
  {
    if steps != [] {
      StepKeepsConsistent(codec, seed, steps[0], s);
      InterleavingsAreConsistent(codec, seed, steps[1..], Take(codec, steps[0], s));
    }
  }

  lemma {:induction false} SeedIsConsistent(seed: seq<Entity>)
    requires DistinctIds(seed)
    ensures Consistent(seed, State(seed, map[], 0, 0))
  {
  }

  /** The guard on which distinct ids depend: the largest 64-bit id is not taken, or 0 is not. */
  ghost predicate HasRoom(items: seq<Entity>) {
    MaxId(items) < MAX_ID || !Holds(items, 0)
  }

  /** Every creation of the run finds room. */
  ghost predicate CreationsHaveRoom(codec: Codec, steps: seq<Step>, s: State)
    decreases |steps|
  {
    steps == []
    || ((steps[0].CreateStep? ==> HasRoom(s.items)) && CreationsHaveRoom(codec, steps[1..], Take(codec, steps[0], s)))
  }

  ghost predicate AlwaysDistinct(codec: Codec, steps: seq<Step>, s: State)
    decreases |steps|
  {
    DistinctIds(s.items) && (steps == [] || AlwaysDistinct(codec, steps[1..], Take(codec, steps[0], s)))
  }

  lemma {:induction false} StepKeepsDistinctIff(codec: Codec, step: Step, s: State)
    requires Lawful(codec) && DistinctIds(s.items) && PendingKeepIds(s)
    ensures PendingKeepIds(Take(codec, step, s))
    ensures DistinctIds(Take(codec, step, s).items) <==> (step.CreateStep? ==> HasRoom(s.items))
  {
    if step.CreateStep? {
      CreateIsInsertIff(s.items, step.e);
    } else {
      OtherStepsKeepIds(codec, step, s);
    }
  }

  /** Throughout an interleaving the ids stay distinct if and only if every creation finds room. */
  lemma {:induction false} IdsStayDistinctIff(codec: Codec, steps: seq<Step>, s: State)
    requires Lawful(codec) && DistinctIds(s.items) && PendingKeepIds(s)
    ensures AlwaysDistinct(codec, steps, s) <==> CreationsHaveRoom(codec, steps, s)
    decreases |steps|
  {
    if steps != [] {
      StepKeepsDistinctIff(codec, steps[0], s);
      if DistinctIds(Take(codec, steps[0], s).items) {
        IdsStayDistinctIff(codec, steps[1..], Take(codec, steps[0], s));
      }
    }
  }

  /** Without that room it fails: two creations after the largest 64-bit id give two entities with id 0. */
  lemma {:induction false} OverflowRepeatsIds(codec: Codec, e: Entity)
    ensures var seed := [e.(id := MAX_ID)];
      DistinctIds(seed) && !DistinctIds(TakeAll(codec, [CreateStep(e), CreateStep(e)], State(seed, map[], 0, 0)).items)
  {
    var seed := [e.(id := MAX_ID)];
    var s := State(seed, map[], 0, 0);
    assert seed[..0] == [] && MaxId(seed) == MAX_ID;
    var s1 := Take(codec, CreateStep(e), s);
    assert s1.items[..1] == seed;
    assert MaxId(s1.items) == MAX_ID;
    var s2 := Take(codec, CreateStep(e), s1);
    assert s2.items[1].id == s2.items[2].id;
    var steps := [CreateStep(e), CreateStep(e)];
    assert steps[1..] == [CreateStep(e)] && steps[1..][1..] == [];
    assert TakeAll(codec, steps[1..], s1) == TakeAll(codec, [], s2);
  }

  // ---------------------------------------------------------------- which entity a waiting write hits

  /** For each id, the number of the creation that made the entity now holding it, 0 for the seed's. */
  type Births = map<Id, nat>

  ghost function BornAfter(step: Step, s: State, born: Births): Births {
    match step
    case CreateStep(e) => born[NextId(s.items) := s.creates + 1]
    case DeleteStep(id) => born - {id}
    case _ => born
  }

  ghost function BornAfterAll(codec: Codec, steps: seq<Step>, s: State, born: Births): Births
    decreases |steps|
  {
    if steps == [] then born
    else BornAfterAll(codec, steps[1..], Take(codec, steps[0], s), BornAfter(steps[0], s, born))
  }

  ghost function IdsOf(items: seq<Entity>): set<Id> {
    set i | 0 <= i < |items| :: items[i].id
  }

  /** Exactly the ids in use have a birth, numbered among the creations so far. */
  ghost predicate TagsFit(items: seq<Entity>, born: Births, creates: nat) {
    born.Keys == IdsOf(items) && forall id | id in born :: born[id] <= creates
  }

  ghost predicate Tagged(s: State, born: Births) {
    DistinctIds(s.items) && PendingKeepIds(s) && TagsFit(s.items, born, s.creates)
  }

  lemma {:induction false} SeedIsTagged(seed: seq<Entity>)
    requires DistinctIds(seed)
    ensures Tagged(State(seed, map[], 0, 0), map id | id in IdsOf(seed) :: 0)
  {
  }

  lemma {:induction false} HoldsIffIdsOf(items: seq<Entity>, id: Id)
    ensures Holds(items, id) <==> id in IdsOf(items)
  {
  }

  lemma {:induction false} IdsOfSame(a: seq<Entity>, b: seq<Entity>)
    requires SameIds(a, b)
    ensures IdsOf(a) == IdsOf(b)
  {
    forall id
      ensures id in IdsOf(a) <==> id in IdsOf(b)
    {
      if i :| 0 <= i < |a| && a[i].id == id {
        assert b[i].id == id;
      }
      if i :| 0 <= i < |b| && b[i].id == id {
        assert a[i].id == id;
      }
    }
  }

  lemma {:induction false} IdsOfSnoc(items: seq<Entity>, e: Entity)
    ensures IdsOf(items + [e]) == IdsOf(items) + {e.id}
  {
    var items' := items + [e];
    forall id
      ensures id in IdsOf(items') <==> id in IdsOf(items) || id == e.id
    {
      if id == e.id {
        assert items'[|items|].id == id;
      }
      if i :| 0 <= i < |items| && items[i].id == id {
        assert items'[i].id == id;
      }
    }
  }

  lemma {:induction false} IdsOfDeleted(items: seq<Entity>, id: Id)
    requires DistinctIds(items)
    ensures IdsOf(Deleted(items, id).0) == IdsOf(items) - {id}
  {
    var at := Position(items, id);
    if at.Some? {
      var rest := Without(items, at.value);
      forall other
        ensures other in IdsOf(rest) <==> other in IdsOf(items) && other != id
      {
        if i :| 0 <= i < |rest| && rest[i].id == other {
          assert rest[i] == items[if i < at.value then i else i + 1];
        }
        if other in IdsOf(items) && other != id {
          OldRemains(items, at.value, other);
        }
      }
    }
  }

  lemma {:induction false} StepMovesIds(codec: Codec, step: Step, s: State)
    requires Lawful(codec) && DistinctIds(s.items) && PendingKeepIds(s)
    ensures IdsOf(Take(codec, step, s).items)
         == match step
            case CreateStep(_) => IdsOf(s.items) + {NextId(s.items)}
            case DeleteStep(id) => IdsOf(s.items) - {id}
            case _ => IdsOf(s.items)
  {
    match step
    case CreateStep(e) =>
      IdsOfSnoc(s.items, e.(id := NextId(s.items)));
    case ReplaceStep(id, e) =>
      PutKeepsIds(s.items, id, e.(id := id));
      IdsOfSame(s.items, Replaced(s.items, id, e).0);
    case DeleteStep(id) =>
      IdsOfDeleted(s.items, id);
    case ReadStep(_, _, _) =>
    case WriteStep(client) =>
      if client in s.pending {
        var w := s.pending[client];
        PutKeepsIds(s.items, w.id, w.merged);
        IdsOfSame(s.items, Put(s.items, w.id, w.merged).0);
      }
  }

  lemma {:induction false} StepKeepsTagged(codec: Codec, step: Step, s: State, born: Births)
    requires Lawful(codec) && Tagged(s, born) && (step.CreateStep? ==> HasRoom(s.items))
    ensures Tagged(Take(codec, step, s), BornAfter(step, s, born))
  {
    StepKeepsDistinctIff(codec, step, s);
    StepMovesIds(codec, step, s);
  }

  lemma {:induction false} RunKeepsTagged(codec: Codec, steps: seq<Step>, s: State, born: Births)
    requires Lawful(codec) && Tagged(s, born) && CreationsHaveRoom(codec, steps, s)
    ensures Tagged(TakeAll(codec, steps, s), BornAfterAll(codec, steps, s, born))
    decreases |steps|
  {
    if steps != [] {
      StepKeepsTagged(codec, steps[0], s, born);
      RunKeepsTagged(codec, steps[1..], Take(codec, steps[0], s), BornAfter(steps[0], s, born));
    }
  }

  ghost predicate Deletes(steps: seq<Step>, id: Id) {
    steps != [] && (steps[0] == DeleteStep(id) || Deletes(steps[1..], id))
  }

  /** A birth is an old one, or later than all creations so far. */
  lemma {:induction false} BirthsAreLater(codec: Codec, steps: seq<Step>, s: State, born: Births, id: Id)
    ensures var born' := BornAfterAll(codec, steps, s, born);
      id in born' ==> (id in born && born'[id] == born[id]) || born'[id] > s.creates
    decreases |steps|
  {
    if steps != [] {
      BirthsAreLater(codec, steps[1..], Take(codec, steps[0], s), BornAfter(steps[0], s, born), id);
    }
  }

  /** After a run an id belongs to the entity it belonged to before if and only if no step of the run deletes it. */
  lemma {:induction false} SameEntityIff(codec: Codec, steps: seq<Step>, s: State, born: Births, id: Id)
    requires Lawful(codec) && Tagged(s, born) && CreationsHaveRoom(codec, steps, s) && id in born
    ensures var born' := BornAfterAll(codec, steps, s, born);
      id in born' && born'[id] == born[id] <==> !Deletes(steps, id)
    decreases |steps|
  {
    if steps != [] {
      var s1, born1 := Take(codec, steps[0], s), BornAfter(steps[0], s, born);
      StepKeepsTagged(codec, steps[0], s, born);
      if steps[0] == DeleteStep(id) {
        BirthsAreLater(codec, steps[1..], s1, born1, id);
      } else {
        StepKeepsBirth(steps[0], s, born, id);
        SameEntityIff(codec, steps[1..], s1, born1, id);
      }
    }
  }

  lemma {:induction false} StepKeepsBirth(step: Step, s: State, born: Births, id: Id)
    requires Tagged(s, born) && (step.CreateStep? ==> HasRoom(s.items)) && id in born && step != DeleteStep(id)
    ensures var born' := BornAfter(step, s, born); id in born' && born'[id] == born[id]
  {
    if step.CreateStep? {
      NextIdIsFreeIff(s.items);
      HoldsIffIdsOf(s.items, id);
    }
  }

  ghost predicate LeavesPending(steps: seq<Step>, client: nat) {
    forall step | step in steps :: !(step.ReadStep? && step.client == client) && step != WriteStep(client)
  }

  lemma {:induction false} PendingWaits(codec: Codec, steps: seq<Step>, s: State, client: nat)
    requires client in s.pending && LeavesPending(steps, client)
    ensures client in TakeAll(codec, steps, s).pending && TakeAll(codec, steps, s).pending[client] == s.pending[client]
    decreases |steps|
  {
    if steps != [] {
      assert steps[0] in steps;
      PendingWaits(codec, steps[1..], Take(codec, steps[0], s), client);
    }
  }

  /** A waiting write puts its entity at its id if that is in use, and changes nothing else. */
  lemma {:induction false} WriteTakesEffect(codec: Codec, client: nat, s: State)
    requires DistinctIds(s.items) && PendingKeepIds(s) && client in s.pending
    ensures var w, s' := s.pending[client], Take(codec, WriteStep(client), s);
      && DistinctIds(s'.items)
      && (w.id in IdsOf(s.items) ==> AsMap(s'.items) == AsMap(s.items)[w.id := w.merged])
      && (w.id !in IdsOf(s.items) ==> s'.items == s.items)
  {
    PutInPlace(s.items, s.pending[client].id, s.pending[client].merged);
  }

  lemma {:induction false} PutInPlace(items: seq<Entity>, id: Id, e: Entity)
    requires DistinctIds(items) && e.id == id
    ensures var items' := Put(items, id, e).0;
      && DistinctIds(items')
      && (id in IdsOf(items) ==> AsMap(items') == AsMap(items)[id := e])
      && (id !in IdsOf(items) ==> items' == items)
  {
    assert id in IdsOf(items) <==> id in AsMap(items) by {
      HoldsIffIdsOf(items, id);
      PositionRefinesMap(items, id);
    }
    UpdateIsMapUpdate(items, id, _ => e);
  }

  /** The write that an `update_from` leaves waiting after its read. */
  lemma {:induction false} ReadWaits(codec: Codec, client: nat, id: Id, dto: Json, s: State, born: Births)
    requires Lawful(codec) && Tagged(s, born) && Prepare(codec, s.items, id, dto).Ok?
    requires Prepare(codec, s.items, id, dto).value.Some?
    ensures var s1 := Take(codec, ReadStep(client, id, dto), s);
      && Tagged(s1, born) && id in born
      && client in s1.pending && s1.pending[client] == Write(id, Prepare(codec, s.items, id, dto).value.value)
  {
    StepKeepsTagged(codec, ReadStep(client, id, dto), s, born);
    HoldsIffIdsOf(s.items, id);
    assert Position(s.items, id).Some?;
    assert s.items[Position(s.items, id).value].id == id;
  }

  /**
   What the second half of an `update_from` does after any steps of others: it replaces the entity it read if and only
   if none of them deleted that entity's id; if one did and the id is in use again, it replaces the later entity; if the
   id is not in use, it changes nothing.
   */
  lemma {:induction false} WriteHitsItsEntityIff(codec: Codec, client: nat, id: Id, dto: Json, between: seq<Step>,
      s: State,
      born: Births)
    requires Lawful(codec) && Tagged(s, born)
    requires Prepare(codec, s.items, id, dto).Ok? && Prepare(codec, s.items, id, dto).value.Some?
    requires LeavesPending(between, client)
    requires CreationsHaveRoom(codec, between, Take(codec, ReadStep(client, id, dto), s))
    ensures var s1 := Take(codec, ReadStep(client, id, dto), s);
      var s2, born2 := TakeAll(codec, between, s1), BornAfterAll(codec, between, s1, born);
      var s3 := Take(codec, WriteStep(client), s2);
      && id in born && DistinctIds(s2.items) && DistinctIds(s3.items) && born2.Keys == IdsOf(s2.items)
      && (id in born2 && born2[id] == born[id] <==> !Deletes(between, id))
      && (id in born2 ==> AsMap(s3.items) == AsMap(s2.items)[id := Prepare(codec, s.items, id, dto).value.value])
      && (id !in born2 ==> s3.items == s2.items)
  {
    var s1 := Take(codec, ReadStep(client, id, dto), s);
    ReadWaits(codec, client, id, dto, s, born);
    RunKeepsTagged(codec, between, s1, born);
    SameEntityIff(codec, between, s1, born, id);
    PendingWaits(codec, between, s1, client);
    WriteTakesEffect(codec, client, TakeAll(codec, between, s1));
  }

  /**
   For instance: the entity that was read is deleted and another one created, which gets the id and then the write.
   */
  lemma {:induction false} ReusedIdTakesTheWrite(codec: Codec, e: Entity, other: Entity, dto: Json)
    requires e.id == 1 && Prepare(codec, [e], 1, dto).Ok? && Prepare(codec, [e], 1, dto).value.Some?
    ensures var steps := [ReadStep(0, 1, dto), DeleteStep(1), CreateStep(other), WriteStep(0)];
      TakeAll(codec, steps, State([e], map[], 0, 0)).items == [Prepare(codec, [e], 1, dto).value.value]
  {
    var s0 := State([e], map[], 0, 0);
    var s1 := Take(codec, ReadStep(0, 1, dto), s0);
    var s2 := Take(codec, DeleteStep(1), s1);
    assert s2.items == [];
    var s3 := Take(codec, CreateStep(other), s2);
    assert s3.items == [other.(id := 1)];
    var s4 := Take(codec, WriteStep(0), s3);
    var steps := [ReadStep(0, 1, dto), DeleteStep(1), CreateStep(other), WriteStep(0)];
    assert steps[1..] == [DeleteStep(1), CreateStep(other), WriteStep(0)];
    assert steps[1..][1..] == [CreateStep(other), WriteStep(0)];
    assert steps[1..][1..][1..] == [WriteStep(0)] && steps[1..][1..][1..][1..] == [];
    assert TakeAll(codec, steps[1..][1..], s2) == TakeAll(codec, [WriteStep(0)], s3) == TakeAll(codec, [], s4);
    assert TakeAll(codec, steps, s0) == TakeAll(codec, steps[1..], s1) == TakeAll(codec, steps[1..][1..], s2);
  }

  function Found(items: seq<Entity>, id: Id): Option<Entity> {
    var at := Position(items, id);
    if at.None? then None else Some(items[at.value])
  }

  lemma {:induction false} FoundPut(items: seq<Entity>, other: Id, e: Entity, id: Id)
    requires e.id == other != id
    ensures Found(Put(items, other, e).0, id) == Found(items, id)
  {
    var items', at := Put(items, other, e).0, Position(items, id);
    if at.Some? {
      PositionIsFirst(items', id, at.value);
    }
  }

  /** A replacement is what the next lookup of its id finds, and no other id's entity changes. */
  lemma {:induction false} ReplacementIsFound(codec: Codec, id: Id, e: Entity, s: State, other: Id)
    requires DistinctIds(s.items)
    ensures var items' := Take(codec, ReplaceStep(id, e), s).items;
      && (Found(s.items, id).Some? ==> Found(items', id) == Some(Entity(id, e.fields)))
      && (Found(s.items, id).None? ==> items' == s.items)
      && (other != id ==> Found(items', other) == Found(s.items, other))
  {
    ReplaceIsMapUpdate(s.items, id, e);
    if other != id {
      FoundPut(s.items, id, e.(id := id), other);
    }
    var at := Position(s.items, id);
    if at.Some? {
      PositionIsFirst(Take(codec, ReplaceStep(id, e), s).items, id, at.value);
    }
  }

  // ---------------------------------------------------------------- lost updates

  /** The store after an `update_from` in one critical section. */
  ghost function UpdatedAtOnce(codec: Codec, items: seq<Entity>, id: Id, dto: Json): seq<Entity> {
    var r := Prepare(codec, items, id, dto);
    if r.Ok? && r.value.Some? then Put(items, id, r.value.value).0 else items
  }

  /** What such an update leaves at the id: the merge, or the entity as it is when there is nothing to be written. */
  ghost function MergedAtOnce(codec: Codec, items: seq<Entity>, id: Id, dto: Json): Option<Entity> {
    var r := Prepare(codec, items, id, dto);
    if r.Ok? then r.value else Found(items, id)
  }

  lemma {:induction false} PendingIsApart(codec: Codec, steps: seq<Step>, s: State, client: nat, w: Write)
    requires LeavesPending(steps, client)
    ensures var t := TakeAll(codec, steps, s);
      TakeAll(codec, steps, s.(pending := s.pending[client := w])) == t.(pending := t.pending[client := w])
    decreases |steps|
  {
    if steps != [] {
      assert steps[0] in steps;
      StepLeavesPendingApart(codec, steps[0], s, client, w);
      PendingIsApart(codec, steps[1..], Take(codec, steps[0], s), client, w);
    }
  }

  lemma {:induction false} StepLeavesPendingApart(codec: Codec, step: Step, s: State, client: nat, w: Write)
    requires !(step.ReadStep? && step.client == client) && step != WriteStep(client)
    ensures var t := Take(codec, step, s);
      Take(codec, step, s.(pending := s.pending[client := w])) == t.(pending := t.pending[client := w])
  {
    match step
    case ReadStep(other, id, dto) =>
      var r := Prepare(codec, s.items, id, dto);
      if r.Ok? && r.value.Some? {
        var mine := Write(id, r.value.value);
        assert s.pending[client := w][other := mine] == s.pending[other := mine][client := w];
      }
    case WriteStep(other) =>
      assert s.pending[client := w] - {other} == (s.pending - {other})[client := w];
    case _ =>
  }

  /**
   Read, the steps of others, write leave the store as the others' steps followed by the update in one piece would, if
   and only if the id is out of use by then or the entity merged at the read is what that update would leave.
   */
  lemma {:induction false} UpdateIsAtomicIff(codec: Codec, client: nat, id: Id, dto: Json, between: seq<Step>,
      s: State)
    requires Prepare(codec, s.items, id, dto).Ok? && Prepare(codec, s.items, id, dto).value.Some?
    requires LeavesPending(between, client)
    ensures var alone := TakeAll(codec, between, s).items;
      var s2 := TakeAll(codec, between, Take(codec, ReadStep(client, id, dto), s));
      Take(codec, WriteStep(client), s2).items == UpdatedAtOnce(codec, alone, id, dto)
      <==> Found(alone, id).None? || MergedAtOnce(codec, alone, id, dto) == Prepare(codec, s.items, id, dto).value
  {
    var merged := Prepare(codec, s.items, id, dto).value.value;
    var alone := TakeAll(codec, between, s);
    PendingIsApart(codec, between, s, client, Write(id, merged));
    var at := Position(alone.items, id);
    if at.Some? {
      var left := MergedAtOnce(codec, alone.items, id, dto).value;
      assert UpdatedAtOnce(codec, alone.items, id, dto) == alone.items[at.value := left];
      assert alone.items[at.value := merged][at.value] == merged && alone.items[at.value := left][at.value] == left;
    }
  }

  /** The step writes or removes what is stored under the id. */
  ghost predicate Writes(step: Step, s: State, id: Id) {
    match step
    case ReplaceStep(other, _) => other == id
    case DeleteStep(other) => other == id
    case WriteStep(client) => client in s.pending && s.pending[client].id == id
    case _ => false
  }

  ghost predicate NoneWrites(codec: Codec, steps: seq<Step>, s: State, id: Id)
    decreases |steps|
  {
    steps == [] || (!Writes(steps[0], s, id) && NoneWrites(codec, steps[1..], Take(codec, steps[0], s), id))
  }

  lemma {:induction false} FoundWithout(items: seq<Entity>, k: nat, id: Id)
    requires k < |items| && items[k].id != id
    ensures Found(Without(items, k), id) == Found(items, id)
  {
    var rest, at := Without(items, k), Position(items, id);
    assert forall i | 0 <= i < |rest| :: rest[i] == items[if i < k then i else i + 1];
    if at.Some? {
      var at' := if at.value < k then at.value else at.value - 1;
      assert rest[at'] == items[at.value];
      PositionIsFirst(rest, id, at');
    }
  }

  lemma {:induction false} FoundSnoc(items: seq<Entity>, e: Entity, id: Id)
    requires Found(items, id).Some?
    ensures Found(items + [e], id) == Found(items, id)
  {
    PositionIsFirst(items + [e], id, Position(items, id).value);
  }

  lemma {:induction false} StepLeavesFound(codec: Codec, step: Step, s: State, id: Id)
    requires PendingKeepIds(s) && Found(s.items, id).Some? && !Writes(step, s, id)
    ensures Found(Take(codec, step, s).items, id) == Found(s.items, id)
  {
    match step
    case CreateStep(e) => FoundSnoc(s.items, e.(id := NextId(s.items)), id);
    case ReplaceStep(other, e) => FoundPut(s.items, other, e.(id := other), id);
    case DeleteStep(other) =>
      if Position(s.items, other).Some? {
        FoundWithout(s.items, Position(s.items, other).value, id);
      }
    case ReadStep(_, _, _) =>
    case WriteStep(client) =>
      if client in s.pending {
        FoundPut(s.items, s.pending[client].id, s.pending[client].merged, id);
      }
  }

  lemma {:induction false} StepKeepsPendingIds(codec: Codec, step: Step, s: State)
    requires Lawful(codec) && PendingKeepIds(s)
    ensures PendingKeepIds(Take(codec, step, s))
  {
    if step.ReadStep? {
      PrepareKeepsId(codec, s.items, step.id, step.dto);
    }
  }

  lemma {:induction false} RunLeavesFound(codec: Codec, steps: seq<Step>, s: State, id: Id)
    requires Lawful(codec) && PendingKeepIds(s) && Found(s.items, id).Some? && NoneWrites(codec, steps, s, id)
    ensures Found(TakeAll(codec, steps, s).items, id) == Found(s.items, id)
    decreases |steps|
  {
    if steps != [] {
      StepLeavesFound(codec, steps[0], s, id);
      StepKeepsPendingIds(codec, steps[0], s);
      RunLeavesFound(codec, steps[1..], Take(codec, steps[0], s), id);
    }
  }

  /** In particular no update is lost while no step in between writes or removes what is stored under the id. */
  lemma {:induction false} UpdateIsAtomicUnlessWritten(codec: Codec, client: nat, id: Id, dto: Json,
      between: seq<Step>, s: State)
    requires Lawful(codec) && PendingKeepIds(s)
    requires Prepare(codec, s.items, id, dto).Ok? && Prepare(codec, s.items, id, dto).value.Some?
    requires LeavesPending(between, client) && NoneWrites(codec, between, s, id)
    ensures var s2 := TakeAll(codec, between, Take(codec, ReadStep(client, id, dto), s));
      Take(codec, WriteStep(client), s2).items
      == UpdatedAtOnce(codec, TakeAll(codec, between, s).items, id, dto)
  {
    RunLeavesFound(codec, between, s, id);
    assert Prepare(codec, TakeAll(codec, between, s).items, id, dto) == Prepare(codec, s.items, id, dto);
    UpdateIsAtomicIff(codec, client, id, dto, between, s);
  }

  /** Of two updates that both read before either writes, the first leaves no trace. */
  lemma {:induction false} SecondWriteWins(codec: Codec, e: Entity, first: Json, second: Json)
    requires Lawful(codec)
    requires Prepare(codec, [e], e.id, first).Ok? && Prepare(codec, [e], e.id, first).value.Some?
    requires Prepare(codec, [e], e.id, second).Ok? && Prepare(codec, [e], e.id, second).value.Some?
    ensures var steps := [ReadStep(0, e.id, first), ReadStep(1, e.id, second), WriteStep(0), WriteStep(1)];
      TakeAll(codec, steps, State([e], map[], 0, 0)).items == [Prepare(codec, [e], e.id, second).value.value]
  {
    PrepareKeepsId(codec, [e], e.id, first);
    var s0 := State([e], map[], 0, 0);
    var s1 := Take(codec, ReadStep(0, e.id, first), s0);
    var s2 := Take(codec, ReadStep(1, e.id, second), s1);
    var s3 := Take(codec, WriteStep(0), s2);
    assert s3.items == [Prepare(codec, [e], e.id, first).value.value] && s3.items[0].id == e.id;
    var s4 := Take(codec, WriteStep(1), s3);
    assert s4.items == [Prepare(codec, [e], e.id, second).value.value];
    var steps := [ReadStep(0, e.id, first), ReadStep(1, e.id, second), WriteStep(0), WriteStep(1)];
    assert steps[1..] == [ReadStep(1, e.id, second), WriteStep(0), WriteStep(1)];
    assert steps[1..][1..] == [WriteStep(0), WriteStep(1)];
    assert steps[1..][1..][1..] == [WriteStep(1)] && steps[1..][1..][1..][1..] == [];
    assert TakeAll(codec, steps[1..][1..], s2) == TakeAll(codec, [WriteStep(1)], s3) == TakeAll(codec, [], s4);
    assert TakeAll(codec, steps, s0) == TakeAll(codec, steps[1..], s1) == TakeAll(codec, steps[1..][1..], s2);
  }
}
