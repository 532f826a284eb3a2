/** The in-memory entity store: a list behind a lock that behaves as a map from ids to entities. */
module EntityStore {
  import opened Prelude

  const MAX_ID := 0xFFFF_FFFF_FFFF_FFFF

  type Id = n: nat | n <= MAX_ID

  datatype Json =
    | Null
    | Number(n: int)
    | Text(text: string)
    | Array(items: seq<Json>)
    | Object(fields: map<string, Json>)

  datatype Entity = Entity(id: Id, fields: map<string, Json>)

  type Updater = Entity -> Entity

  ghost predicate DistinctIds(items: seq<Entity>) {
    forall i, j | 0 <= i < j < |items| :: items[i].id != items[j].id
  }

  ghost predicate AscendingIds(items: seq<Entity>) {
    forall i, j | 0 <= i < j < |items| :: items[i].id < items[j].id
  }

  ghost predicate Holds(items: seq<Entity>, id: Id) {
    exists i :: 0 <= i < |items| && items[i].id == id
  }

  /** The entity is the first with the id. */
  ghost predicate IsFirst(items: seq<Entity>, id: Id, e: Entity) {
    exists i :: 0 <= i < |items| && items[i] == e && e.id == id && forall j | 0 <= j < i :: items[j].id != id
  }

  // ---------------------------------------------------------------- the operations on the list

  /** The position of the first entity with the id, if any. */
  function Position(items: seq<Entity>, id: Id): (r: Option<nat>)
    ensures r.Some? ==> r.value < |items| && items[r.value].id == id && forall i | 0 <= i < r.value :: items[i].id != id
    ensures r.None? <==> forall i | 0 <= i < |items| :: items[i].id != id
  {
    if items == [] then None
    else if items[0].id == id then Some(0)
    else
      var r := Position(items[1..], id);
      if r.Some? then Some(r.value + 1)
      else
        assert forall i | 0 < i < |items| :: items[i] == items[1..][i - 1];
        None
  }

  /** The largest id, 0 for an empty list. */
  function MaxId(items: seq<Entity>): (m: Id)
    ensures forall i | 0 <= i < |items| :: items[i].id <= m
    ensures items != [] ==> exists i :: 0 <= i < |items| && items[i].id == m
  {
    if items == [] then 0
    else
      var n := |items| - 1;
      var rest := MaxId(items[..n]);
      if rest <= items[n].id then items[n].id else
        assert forall i | 0 <= i < n :: items[..n][i] == items[i];
        rest
  }

  /** One more than the largest id, in 64-bit arithmetic without overflow checks. */
  function NextId(items: seq<Entity>): Id {
    (MaxId(items) + 1) % (MAX_ID + 1)
  }

  function Created(items: seq<Entity>, e: Entity): (seq<Entity>, Entity) {
    var stored := e.(id := NextId(items));
    (items + [stored], stored)
  }

  function Updated(items: seq<Entity>, id: Id, updater: Updater): (seq<Entity>, Option<Entity>) {
    var at := Position(items, id);
    if at.None? then (items, None)
    else
      var updated := updater(items[at.value]);
      (items[at.value := updated], Some(updated))
  }

  /** The found entity overwritten. */
  function Put(items: seq<Entity>, id: Id, e: Entity): (seq<Entity>, Option<Entity>) {
    var at := Position(items, id);
    if at.None? then (items, None) else (items[at.value := e], Some(e))
  }

  function Replaced(items: seq<Entity>, id: Id, replacement: Entity): (seq<Entity>, Option<Entity>) {
    Put(items, id, replacement.(id := id))
  }

  function Without(items: seq<Entity>, k: nat): (rest: seq<Entity>)
    requires k < |items|
    ensures |rest| == |items| - 1
  {
    items[..k] + items[k + 1..]
  }

  function Deleted(items: seq<Entity>, id: Id): (seq<Entity>, Option<Entity>) {
    var at := Position(items, id);
    if at.None? then (items, None)
    else (Without(items, at.value), Some(items[at.value]))
  }

  // ---------------------------------------------------------------- the store in place

  class InMemoryStore {
    var items: seq<Entity>

    constructor (seed: seq<Entity>)
      ensures items == seed
    {
      items := seed;
    }

    method FindIndex(id: Id) returns (at: Option<nat>)
      ensures at == Position(items, id)
    {
      for i := 0 to |items|
        invariant forall j | 0 <= j < i :: items[j].id != id
      {
        if items[i].id == id {
          PositionIsFirst(items, id, i);
          return Some(i);
        }
      }
      return None;
    }

    method FindById(id: Id) returns (r: Option<Entity>)
      ensures r.Some? <==> Holds(items, id)
      ensures r.Some? ==> IsFirst(items, id, r.value)
    {
      var at := FindIndex(id);
      if at.None? {
        return None;
      }
      return Some(items[at.value]);
    }

    /** The number of entities, which is the number of ids in use while these are distinct. */
    method Count() returns (n: nat)
      ensures n == |items| && (DistinctIds(items) ==> n == |AsMap(items)|)
    {
      if DistinctIds(items) {
        MapCountsItems(items);
      }
      n := |items|;
    }

    method Create(e: Entity) returns (stored: Entity)
      modifies this
      ensures (items, stored) == Created(old(items), e)
      ensures items == old(items) + [stored] && stored.fields == e.fields
      ensures stored.id == if MaxId(old(items)) < MAX_ID then MaxId(old(items)) + 1 else 0
    {
      var max: Id := 0;
      for i := 0 to |items|
        invariant max == MaxId(items[..i])
      {
        assert items[..i + 1][..i] == items[..i];
        if max <= items[i].id {
          max := items[i].id;
        }
      }
      assert items[..|items|] == items;
      stored := e.(id := (max + 1) % (MAX_ID + 1));
      items := items + [stored];
    }

    method UpdateById(id: Id, updater: Updater) returns (r: Option<Entity>)
      modifies this
      ensures (items, r) == Updated(old(items), id, updater)
    {
      var at := FindIndex(id);
      if at.None? {
        return None;
      }
      var updated := updater(items[at.value]);
      items := items[at.value := updated];
      return Some(updated);
    }

    method ReplaceById(id: Id, replacement: Entity) returns (r: Option<Entity>)
      modifies this
      ensures (items, r) == Replaced(old(items), id, replacement)
    {
      var at := FindIndex(id);
      if at.None? {
        return None;
      }
      var stored := replacement.(id := id);
      items := items[at.value := stored];
      return Some(stored);
    }

    method DeleteById(id: Id) returns (r: Option<Entity>)
      modifies this
      ensures (items, r) == Deleted(old(items), id)
    {
      var at := FindIndex(id);
      if at.None? {
        return None;
      }
      r := Some(items[at.value]);
      items := items[..at.value] + items[at.value + 1..];
    }
  }

  lemma {:induction false} PositionIsFirst(items: seq<Entity>, id: Id, k: nat)
    requires k < |items| && items[k].id == id && forall j | 0 <= j < k :: items[j].id != id
    ensures Position(items, id) == Some(k)
    decreases k
  {
    if k > 0 {
      assert forall j | 0 <= j < k - 1 :: items[1..][j] == items[j + 1];
      PositionIsFirst(items[1..], id, k - 1);
    }
  }

  // ---------------------------------------------------------------- the list is a map

  ghost function AsMap(items: seq<Entity>): (m: map<Id, Entity>)
    requires DistinctIds(items)
    ensures Represents(items, m)
  {
    map i | 0 <= i < |items| :: items[i].id := items[i]
  }

  ghost predicate Represents(items: seq<Entity>, m: map<Id, Entity>) {
    && (forall i | 0 <= i < |items| :: items[i].id in m && m[items[i].id] == items[i])
    && (forall id | id in m :: Holds(items, id))
  }

  lemma {:induction false} MapCountsItems(items: seq<Entity>)
    requires DistinctIds(items)
    ensures |AsMap(items)| == |items|
    decreases |items|
  {
    if items != [] {
      var n := |items| - 1;
      var before := items[..n];
      MapCountsItems(before);
      assert items == before + [items[n]] && !Holds(before, items[n].id);
      SnocRepresents(before, items[n]);
      RepresentedIsAsMap(items, AsMap(before)[items[n].id := items[n]]);
    }
  }

  lemma {:induction false} RepresentedIsAsMap(items: seq<Entity>, m: map<Id, Entity>)
    requires DistinctIds(items) && Represents(items, m)
    ensures AsMap(items) == m
  {
    var n := AsMap(items);
    forall id | id in m || id in n
      ensures id in m && id in n && m[id] == n[id]
    {
      var i :| 0 <= i < |items| && items[i].id == id;
    }
  }

  /** Looking up by id is looking up in the map. */
  lemma {:induction false} PositionRefinesMap(items: seq<Entity>, id: Id)
    requires DistinctIds(items)
    ensures Position(items, id).Some? <==> id in AsMap(items)
    ensures id in AsMap(items) ==> items[Position(items, id).value] == AsMap(items)[id]
  {
    if Position(items, id).Some? {
      assert items[Position(items, id).value].id == id;
    }
  }

  lemma {:induction false} SnocDistinctIff(items: seq<Entity>, e: Entity)
    requires DistinctIds(items)
    ensures DistinctIds(items + [e]) <==> !Holds(items, e.id)
  {
    var items' := items + [e];
    if k :| 0 <= k < |items| && items[k].id == e.id {
      assert items'[k].id == items'[|items|].id;
    }
  }

  lemma {:induction false} NextIdIsFreeIff(items: seq<Entity>)
    ensures Holds(items, NextId(items)) <==> MaxId(items) == MAX_ID && Holds(items, 0)
  {
  }

  /**
   Creating adds an entity under an id the map does not hold, unless the largest 64-bit id is taken and 0 is too: ids
   stay distinct exactly then.
   */
  lemma {:induction false} CreateIsInsertIff(items: seq<Entity>, e: Entity)
    requires DistinctIds(items)
    ensures var (items', stored) := Created(items, e);
      && (DistinctIds(items') <==> MaxId(items) < MAX_ID || !Holds(items, 0))
      && (DistinctIds(items') ==> stored.id !in AsMap(items) && AsMap(items') == AsMap(items)[stored.id := stored])
  {
    var (items', stored) := Created(items, e);
    SnocDistinctIff(items, stored);
    NextIdIsFreeIff(items);
    if DistinctIds(items') {
      SnocRepresents(items, stored);
      RepresentedIsAsMap(items', AsMap(items)[stored.id := stored]);
    }
  }

  lemma {:induction false} SnocRepresents(items: seq<Entity>, e: Entity)
    requires DistinctIds(items) && !Holds(items, e.id)
    ensures Represents(items + [e], AsMap(items)[e.id := e])
  {
    var items', m := items + [e], AsMap(items)[e.id := e];
    forall id | id in m
      ensures Holds(items', id)
    {
      if id == e.id {
        assert items'[|items|].id == id;
      } else {
        var i :| 0 <= i < |items| && items[i].id == id;
        assert items'[i].id == id;
      }
    }
  }

  /** While the largest id can be exceeded, new ids are above all old ones. */
  lemma {:induction false} CreateAscends(items: seq<Entity>, e: Entity)
    requires MaxId(items) < MAX_ID
    ensures AscendingIds(items) ==> AscendingIds(Created(items, e).0)
    ensures MaxId(Created(items, e).0) == MaxId(items) + 1
  {
    var items' := Created(items, e).0;
    SnocMax(items, items'[|items|]);
    if AscendingIds(items) {
      SnocAscends(items, items'[|items|]);
    }
  }

  lemma {:induction false} SnocMax(items: seq<Entity>, e: Entity)
    requires MaxId(items) <= e.id
    ensures MaxId(items + [e]) == e.id
  {
    assert (items + [e])[..|items|] == items;
  }

  lemma {:induction false} SnocAscends(items: seq<Entity>, e: Entity)
    requires AscendingIds(items) && MaxId(items) < e.id
    ensures AscendingIds(items + [e])
  {
    assert forall i | 0 <= i < |items| :: (items + [e])[i] == items[i];
  }

  /** Updating updates the map at that id, in the entity's place, as long as the updater keeps the id. */
  lemma {:induction false} UpdateIsMapUpdate(items: seq<Entity>, id: Id, updater: Updater)
    requires DistinctIds(items) && (id in AsMap(items) ==> updater(AsMap(items)[id]).id == id)
    ensures var (items', r) := Updated(items, id, updater);
      && SameIds(items, items') && DistinctIds(items')
      && (forall i | 0 <= i < |items| :: items'[i] == if items[i].id == id then updater(items[i]) else items[i])
      && (id in AsMap(items) ==> r == Some(updater(AsMap(items)[id])) && AsMap(items') == AsMap(items)[id := r.value])
      && (id !in AsMap(items) ==> r == None && items' == items)
  {
    PositionRefinesMap(items, id);
    if id in AsMap(items) {
      PutRepresents(items, Position(items, id).value, updater(AsMap(items)[id]));
      RepresentedIsAsMap(Updated(items, id, updater).0, AsMap(items)[id := updater(AsMap(items)[id])]);
    }
  }

  lemma {:induction false} PutRepresents(items: seq<Entity>, k: nat, e: Entity)
    requires DistinctIds(items) && k < |items| && items[k].id == e.id
    ensures SameIds(items, items[k := e]) && DistinctIds(items[k := e])
    ensures Represents(items[k := e], AsMap(items)[e.id := e])
  {
    var items', m := items[k := e], AsMap(items)[e.id := e];
    forall i | 0 <= i < |items'|
      ensures items'[i].id in m && m[items'[i].id] == items'[i]
    {
      assert items'[i].id == items[i].id;
    }
    forall id | id in m
      ensures Holds(items', id)
    {
      assert items[k].id == e.id && Holds(items, id);
      var i :| 0 <= i < |items| && items[i].id == id;
      assert items'[i].id == id;
    }
  }

  /**
   Replacing writes the replacement, under the id it is found by, over the entity in the map and at its place in the
   list; without such an entity nothing changes.
   */
  lemma {:induction false} ReplaceIsMapUpdate(items: seq<Entity>, id: Id, replacement: Entity)
    requires DistinctIds(items)
    ensures var (items', r) := Replaced(items, id, replacement);
      var stored := Entity(id, replacement.fields);
      && SameIds(items, items') && DistinctIds(items')
      && (forall i | 0 <= i < |items| :: items'[i] == if items[i].id == id then stored else items[i])
      && (id in AsMap(items) ==> r == Some(stored) && AsMap(items') == AsMap(items)[id := stored])
      && (id !in AsMap(items) ==> r == None && items' == items)
  {
    PositionRefinesMap(items, id);
    if id in AsMap(items) {
      var at, stored := Position(items, id).value, replacement.(id := id);
      PutRepresents(items, at, stored);
      RepresentedIsAsMap(items[at := stored], AsMap(items)[id := stored]);
    }
  }

  ghost predicate SameIds(a: seq<Entity>, b: seq<Entity>) {
    |a| == |b| && forall i | 0 <= i < |a| :: a[i].id == b[i].id
  }

  lemma {:induction false} SameIdsSameMax(a: seq<Entity>, b: seq<Entity>)
    requires SameIds(a, b)
    ensures MaxId(a) == MaxId(b)
    ensures AscendingIds(a) ==> AscendingIds(b)
    decreases |a|
  {
    if a != [] {
      SameIdsSameMax(a[..|a| - 1], b[..|b| - 1]);
    }
  }

  /** The entities left after removing one, in order. */
  lemma {:induction false} RemovedAt(items: seq<Entity>, k: nat)
    requires k < |items| && DistinctIds(items)
    ensures var rest := Without(items, k);
      && DistinctIds(rest) && (AscendingIds(items) ==> AscendingIds(rest)) && MaxId(rest) <= MaxId(items)
  {
    var rest := Without(items, k);
    assert forall i | 0 <= i < |rest| :: rest[i] == items[if i < k then i else i + 1];
  }

  /** The entities before the removed one keep their places, those after it move up by one. */
  ghost predicate ClosesUp(items: seq<Entity>, id: Id, rest: seq<Entity>) {
    exists k :: 0 <= k < |items| && items[k].id == id && |rest| == |items| - 1 && forall i | 0 <= i < |rest| ::
      rest[i] == items[if i < k then i else i + 1]
  }

  /** Deleting removes the id from the map and nothing else; the other entities stay in order. */
  lemma {:induction false} DeleteIsMapRemove(items: seq<Entity>, id: Id)
    requires DistinctIds(items)
    ensures var (items', r) := Deleted(items, id);
      && DistinctIds(items')
      && AsMap(items') == AsMap(items) - {id}
      && r == (if id in AsMap(items) then Some(AsMap(items)[id]) else None)
      && if id in AsMap(items) then ClosesUp(items, id, items') else items' == items
  {
    PositionRefinesMap(items, id);
    var m := AsMap(items) - {id};
    if id in AsMap(items) {
      RemovedRepresents(items, Position(items, id).value);
    } else {
      assert m == AsMap(items);
    }
    RepresentedIsAsMap(Deleted(items, id).0, m);
  }

  lemma {:induction false} OldRemains(items: seq<Entity>, k: nat, id: Id)
    requires DistinctIds(items) && k < |items| && Holds(items, id) && id != items[k].id
    ensures Holds(Without(items, k), id)
  {
    var i :| 0 <= i < |items| && items[i].id == id;
    assert Without(items, k)[if i < k then i else i - 1].id == id;
  }

  lemma {:induction false} RemovedRepresents(items: seq<Entity>, k: nat)
    requires DistinctIds(items) && k < |items|
    ensures DistinctIds(Without(items, k)) && Represents(Without(items, k), AsMap(items) - {items[k].id})
  {
    RemovedAt(items, k);
    var rest, m := Without(items, k), AsMap(items) - {items[k].id};
    forall i | 0 <= i < |rest|
      ensures rest[i].id in m && m[rest[i].id] == rest[i]
    {
      assert Without(items, k)[i] == items[if i < k then i else i + 1];
    }
    forall id | id in m
      ensures Holds(rest, id)
    {
      OldRemains(items, k, id);
    }
  }

  /** What overwriting keeps when the new entity has the old one's id. */
  lemma {:induction false} PutKeepsIds(items: seq<Entity>, id: Id, e: Entity)
    requires DistinctIds(items) && e.id == id
    ensures var items' := Put(items, id, e).0;
      SameIds(items, items') && DistinctIds(items') && (AscendingIds(items) ==> AscendingIds(items'))
        && MaxId(items') == MaxId(items)
  {
    SameIdsSameMax(items, Put(items, id, e).0);
  }

  lemma {:induction false} DeleteKeepsIds(items: seq<Entity>, id: Id)
    requires DistinctIds(items)
    ensures var (items', r) := Deleted(items, id);
      && DistinctIds(items') && (AscendingIds(items) ==> AscendingIds(items')) && MaxId(items') <= MaxId(items)
      && |items'| == |items| - (if r.Some? then 1 else 0)
  {
    if Position(items, id).Some? {
      RemovedAt(items, Position(items, id).value);
    }
  }
}
