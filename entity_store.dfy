/**
 * An in-memory stand-in for the database provider: three tables (entities, values, relations)
 * kept in insertion order, with ids drawn from one counter. A write of a package is all or
 * nothing; `fault` says whether the backing store fails it.
 */
module EntityStore {
  import opened Wrappers
  import opened Seqs
  import opened EntitySystem
  import opened Searches

  predicate EntityIdsOk(s: seq<Entity>, next: int)
  {
    && (forall i :: 0 <= i < |s| ==> 0 < s[i].id < next)
    && (forall i, j :: 0 <= i < j < |s| ==> s[i].id != s[j].id)
  }

  predicate ValueIdsOk(s: seq<EntityValue>, next: int)
  {
    && (forall i :: 0 <= i < |s| ==> 0 < s[i].id < next)
    && (forall i, j :: 0 <= i < j < |s| ==> s[i].id != s[j].id)
  }

  predicate RelationIdsOk(s: seq<EntityRelation>, next: int)
  {
    && (forall i :: 0 <= i < |s| ==> 0 < s[i].id < next)
    && (forall i, j :: 0 <= i < j < |s| ==> s[i].id != s[j].id)
  }

  /** Every record of the package is unsaved (id 0), as a package built from a view is. */
  predicate IsUnsaved(p: EntityPackage)
  {
    && p.entity.id == 0
    && (forall k :: 0 <= k < |p.values| ==> p.values[k].id == 0)
    && (forall k :: 0 <= k < |p.relations| ==> p.relations[k].id == 0)
  }

  /**
   * The package as the store saves it: consecutive ids from `first`, every value attached to the
   * entity, every relation pointing at it.
   */
  function Linked(p: EntityPackage, first: int): (w: EntityPackage)
    ensures w.entity == p.entity.(id := first)
    ensures |w.values| == |p.values| && |w.relations| == |p.relations|
    ensures forall k :: 0 <= k < |p.values| ==>
      w.values[k] == p.values[k].(id := first + 1 + k, entityId := first)
    ensures forall k :: 0 <= k < |p.relations| ==>
      w.relations[k] == p.relations[k].(id := first + 1 + |p.values| + k, entityId2 := first)
  {
    EntityPackage(
      p.entity.(id := first),
      seq(|p.values|, k requires 0 <= k < |p.values| => p.values[k].(id := first + 1 + k, entityId := first)),
      seq(|p.relations|, k requires 0 <= k < |p.relations| =>
        p.relations[k].(id := first + 1 + |p.values| + k, entityId2 := first)))
  }

  /** Index of the first element satisfying p, or -1. */
  function IndexWhere<T>(s: seq<T>, p: T -> bool): (i: int)
    ensures -1 <= i < |s|
    ensures 0 <= i ==> p(s[i]) && forall k :: 0 <= k < i ==> !p(s[k])
    ensures i == -1 ==> forall k :: 0 <= k < |s| ==> !p(s[k])
  {
    if s == [] then -1
    else if p(s[0]) then 0
    else var j := IndexWhere(s[1..], p); if j == -1 then -1 else j + 1
  }

  /**
   * The provider's relation search: a relation matches when each non-empty id list contains the
   * corresponding field and its type is like the type pattern.
   */
  predicate RelationMatch(f: SearchFields, x: EntityRelation)
  {
    && (f.ids == [] || x.id in f.ids)
    && (f.entityIds1 == [] || x.entityId1 in f.entityIds1)
    && (f.entityIds2 == [] || x.entityId2 in f.entityIds2)
    && (f.typeLike.None? || Like(x.kind, f.typeLike.value))
  }

  function Matching(f: SearchFields): (p: EntityRelation -> bool)
  {
    (x: EntityRelation) => RelationMatch(f, x)
  }

  /** GetEntityRelationsAsync: the matching relations, in store order, paged. */
  function FindRelations(relations: seq<EntityRelation>, f: SearchFields): (r: seq<EntityRelation>)
  {
    ApplyFinal(Filter(relations, Matching(f)), f.skip, f.limit)
  }

  class Store {
    var entities: seq<Entity>
    var values: seq<EntityValue>
    var relations: seq<EntityRelation>
    var nextId: int

    ghost predicate Valid()
      reads this
    {
      && nextId > 0
      && EntityIdsOk(entities, nextId)
      && ValueIdsOk(values, nextId)
      && RelationIdsOk(relations, nextId)
    }

    constructor ()
      ensures Valid()
      ensures entities == [] && values == [] && relations == [] && nextId == 1
    {
      entities, values, relations, nextId := [], [], [], 1;
    }

    /** Where the first entity with that id sits, or -1. */
    function EntityIndex(id: int): (i: int)
      reads this
      ensures -1 <= i < |entities|
      ensures 0 <= i ==> entities[i].id == id
      ensures i == -1 ==> forall k :: 0 <= k < |entities| ==> entities[k].id != id
    {
      IndexWhere(entities, (e: Entity) => e.id == id)
    }

    /** FindByIdBaseAsync: the entity with that id, if any. */
    function EntityById(id: int): (r: Option<Entity>)
      reads this
      ensures r.Some? ==> r.value in entities && r.value.id == id
      ensures r.None? ==> forall k :: 0 <= k < |entities| ==> entities[k].id != id
    {
      var i := EntityIndex(id);
      if i < 0 then None else Some(entities[i])
    }

    /** Where the first relation with that id sits, or -1. */
    function RelationIndex(id: int): (i: int)
      reads this
      ensures -1 <= i < |relations|
      ensures 0 <= i ==> relations[i].id == id && forall k :: 0 <= k < i ==> relations[k].id != id
      ensures i == -1 ==> forall k :: 0 <= k < |relations| ==> relations[k].id != id
    {
      IndexWhere(relations, (x: EntityRelation) => x.id == id)
    }

    /** FindRelationByIdAsync: the relation with that id, if any. */
    function RelationById(id: int): (r: Option<EntityRelation>)
      reads this
      ensures r.Some? ==> r.value in relations && r.value.id == id
      ensures r.None? ==> forall k :: 0 <= k < |relations| ==> relations[k].id != id
    {
      var i := RelationIndex(id);
      if i < 0 then None else Some(relations[i])
    }

    /** Ids are unique, so a stored relation sits where its id is found. */
    lemma RelationIndexOf(x: EntityRelation)
      requires Valid() && x in relations
      ensures 0 <= RelationIndex(x.id) && relations[RelationIndex(x.id)] == x
    {
      var k :| 0 <= k < |relations| && relations[k] == x;
      var i := RelationIndex(x.id);
      assert i >= 0;
    }

    /** Ids are unique, so a stored entity sits where its id is found. */
    lemma EntityIndexOf(e: Entity)
      requires Valid() && e in entities
      ensures 0 <= EntityIndex(e.id) && entities[EntityIndex(e.id)] == e
    {
      var k :| 0 <= k < |entities| && entities[k] == e;
      var i := EntityIndex(e.id);
      assert i >= 0;
    }

    /** FindByIdAsync on the provider: the entity with its values and the relations into it. */
    function PackageById(id: int): (r: Option<EntityPackage>)
      reads this
      ensures r.Some? ==> Some(r.value.entity) == EntityById(id)
      ensures r.Some? ==> forall v :: v in r.value.values <==> v in values && v.entityId == id
      ensures r.Some? ==> forall x :: x in r.value.relations <==> x in relations && x.entityId2 == id
      ensures r.None? <==> EntityById(id).None?
    {
      match EntityById(id)
      case None => None
      case Some(e) => Some(EntityPackage(e,
        Filter(values, (v: EntityValue) => v.entityId == id),
        Filter(relations, (x: EntityRelation) => x.entityId2 == id)))
    }

    /** Adds a new entity under the next free id. */
    method InsertEntity(e: Entity) returns (w: Entity)
      requires Valid()
      modifies this
      ensures Valid()
      ensures w == e.(id := old(nextId))
      ensures entities == old(entities) + [w] && nextId == old(nextId) + 1
      ensures values == old(values) && relations == old(relations)
    {
      w := e.(id := nextId);
      entities := entities + [w];
      nextId := nextId + 1;
    }

    /** Overwrites the entity at index i with a record of the same id. */
    method UpdateEntity(i: nat, e: Entity)
      requires Valid() && i < |entities| && e.id == entities[i].id
      modifies this
      ensures Valid()
      ensures entities == old(entities)[i := e]
      ensures values == old(values) && relations == old(relations) && nextId == old(nextId)
    {
      entities := entities[i := e];
    }

    /** Adds a new relation under the next free id. */
    method InsertRelation(r: EntityRelation) returns (w: EntityRelation)
      requires Valid()
      modifies this
      ensures Valid()
      ensures w == r.(id := old(nextId))
      ensures relations == old(relations) + [w] && nextId == old(nextId) + 1
      ensures entities == old(entities) && values == old(values)
    {
      w := r.(id := nextId);
      relations := relations + [w];
      nextId := nextId + 1;
    }

    /** Overwrites the relation at index i with a record of the same id. */
    method UpdateRelation(i: nat, r: EntityRelation)
      requires Valid() && i < |relations| && r.id == relations[i].id
      modifies this
      ensures Valid()
      ensures relations == old(relations)[i := r]
      ensures entities == old(entities) && values == old(values) && nextId == old(nextId)
    {
      relations := relations[i := r];
    }

    /** Removes the relation at index i. */
    method DeleteRelation(i: nat)
      requires Valid() && i < |relations|
      modifies this
      ensures Valid()
      ensures relations == old(relations)[..i] + old(relations)[i + 1..]
      ensures entities == old(entities) && values == old(values) && nextId == old(nextId)
    {
      relations := relations[..i] + relations[i + 1..];
    }

    /**
     * WriteAsync(package) for an unsaved package: everything is saved, linked and numbered
     * (see Linked), or, when the store faults, nothing is.
     */
    method WritePackage(p: EntityPackage, fault: bool) returns (r: Result<EntityPackage>)
      requires Valid() && IsUnsaved(p)
      modifies this
      ensures Valid()
      ensures fault ==> r == Failure(StoreFault) && unchanged(this)
      ensures !fault ==> r == Success(Linked(p, old(nextId)))
      ensures !fault ==> entities == old(entities) + [r.value.entity]
      ensures !fault ==> values == old(values) + r.value.values
      ensures !fault ==> relations == old(relations) + r.value.relations
      ensures !fault ==> nextId == old(nextId) + 1 + |p.values| + |p.relations|
    {
      if fault {
        return Failure(StoreFault);
      }
      var w := Linked(p, nextId);
      entities := entities + [w.entity];
      values := values + w.values;
      relations := relations + w.relations;
      nextId := nextId + 1 + |p.values| + |p.relations|;
      r := Success(w);
    }
  }
}
