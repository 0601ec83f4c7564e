/**
 * EntityBaseController: the history protocol. Every user-visible id names a stand-in entity;
 * each revision is a new entity tied to its stand-in by a stand-in relation (EntityId1 = the
 * stand-in, EntityId2 = the revision). Exactly the latest revision's relation carries the
 * active value; writing a new revision marks the previous relation inactive and the previous
 * content historic, and puts both back when the write of the new revision fails.
 */
module HistoryControllers {
  import opened Wrappers
  import opened Seqs
  import opened Numbers
  import opened EntitySystem
  import opened Searches
  import opened EntityStore

  /** The history keys of the static key table (not part of this model), as parameters. */
  datatype HistoryKeys = HistoryKeys(
    standInRelation: string, activeValue: string, inactiveValue: string,
    standInType: string, historyKey: string, deleteAction: string)

  /**
   * What the protocol needs of those keys: the relation type and the active value are literal
   * patterns, and neither of the active and inactive values is a prefix of the other, so a
   * relation marked inactive never reads as active.
   */
  predicate HistoryKeysOk(k: HistoryKeys)
  {
    && NoWildcards(k.standInRelation) && NoWildcards(k.activeValue)
    && !(k.activeValue <= k.inactiveValue) && !(k.inactiveValue <= k.activeValue)
  }

  /** A view of the history system: its stand-in id, its dates and the controller's own fields. */
  datatype HistoricView<B> = HistoricView(id: int, createDate: int, editDate: int, body: B)

  /** The copies MarkLatestInactive keeps for a rollback: the relation and content as they were. */
  datatype RestoreCopies = RestoreCopies(relation: EntityRelation, content: Entity)

  /** A value marked inactive (TypeSet onto the inactive value) never starts with the active value. */
  lemma InactiveNeverActive(k: HistoryKeys, sub: string)
    requires HistoryKeysOk(k)
    ensures !(k.activeValue <= TypeSet(sub, k.inactiveValue))
  {
  }

  /** package.GetRelation(kind): where the first relation of that type sits, or -1. */
  function RelationIndexOfKind(p: EntityPackage, kind: string): (i: int)
    ensures -1 <= i < |p.relations|
    ensures 0 <= i ==> p.relations[i].kind == kind && forall k :: 0 <= k < i ==> p.relations[k].kind != kind
    ensures i == -1 ==> forall k :: 0 <= k < |p.relations| ==> p.relations[k].kind != kind
  {
    IndexWhere(p.relations, (x: EntityRelation) => x.kind == kind)
  }

  /** package.GetRelation(kind): the first relation of that type, or null. */
  function GetRelation(p: EntityPackage, kind: string): (r: Option<EntityRelation>)
    ensures r.Some? ==> r.value in p.relations && r.value.kind == kind
    ensures r.None? <==> forall x :: x in p.relations ==> x.kind != kind
  {
    var i := RelationIndexOfKind(p, kind);
    if i < 0 then None else Some(p.relations[i])
  }

  /** The relations of a list that mark the active revision of `standinId`. */
  function ActiveIn(k: HistoryKeys, relations: seq<EntityRelation>, standinId: int): (r: seq<EntityRelation>)
    ensures forall x :: x in r <==> x in relations && IsActive(k, standinId, x)
  {
    Filter(relations, ActiveFor(k, standinId))
  }

  /** A stand-in relation of `standinId` whose value starts with the active value. */
  predicate IsActive(k: HistoryKeys, standinId: int, x: EntityRelation)
  {
    x.entityId1 == standinId && x.kind == k.standInRelation && k.activeValue <= x.value
  }

  function ActiveFor(k: HistoryKeys, standinId: int): (p: EntityRelation -> bool)
  {
    (x: EntityRelation) => IsActive(k, standinId, x)
  }

  /** The relation search GetActiveRelation runs: EntityIds1 = [standinId], TypeLike = the stand-in type. */
  function ActiveSearch(k: HistoryKeys, standinId: int): (f: SearchFields)
  {
    SearchFields([], -1, -1, Some(k.standInRelation), [standinId], [])
  }

  /** The `TypeIs(x.value, ActiveValue)` filter of GetActiveRelation. */
  function ValueIsActive(k: HistoryKeys): (p: EntityRelation -> bool)
  {
    (x: EntityRelation) => TypeIs(Some(x.value), k.activeValue)
  }

  /** The `Like(x.value, ActiveValue + "%")` filter of ConvertStandInIdsAsync. */
  function ValueLikeActive(k: HistoryKeys): (p: EntityRelation -> bool)
  {
    (x: EntityRelation) => Like(x.value, k.activeValue + "%")
  }

  /** The EntityId2 of each relation, in order. */
  function RevisionIds(relations: seq<EntityRelation>): (ids: seq<int>)
    ensures |ids| == |relations| && forall i :: 0 <= i < |ids| ==> ids[i] == relations[i].entityId2
  {
    Map(relations, (x: EntityRelation) => x.entityId2)
  }

  /** GetActiveRelation's search and filter select exactly the active relations of the stand-in. */
  lemma {:induction false} ActiveSearchExactly(k: HistoryKeys, relations: seq<EntityRelation>, standinId: int)
    ensures HistoryKeysOk(k) ==>
      Filter(FindRelations(relations, ActiveSearch(k, standinId)), ValueIsActive(k)) == ActiveIn(k, relations, standinId)
  {
    if !HistoryKeysOk(k) {
      return;
    }
    var f := ActiveSearch(k, standinId);
    var found := Filter(relations, Matching(f));
    assert FindRelations(relations, f) == found[0..] == found;
    forall x | x in relations ensures ActiveFor(k, standinId)(x) == (Matching(f)(x) && ValueIsActive(k)(x)) {
      LikeLiteral(x.kind, k.standInRelation);
    }
    FilterFilter(relations, Matching(f), ValueIsActive(k), ActiveFor(k, standinId));
  }

  /** ConvertStandInIdsAsync for one stand-in: the revisions its active relations point at. */
  lemma {:induction false} StandInIdsExactly(k: HistoryKeys, relations: seq<EntityRelation>, standinId: int)
    ensures HistoryKeysOk(k) ==>
      var f := SearchFields([], -1, -1, Some(k.standInRelation), [standinId], []);
      Filter(Filter(relations, Matching(f)), ValueLikeActive(k)) == ActiveIn(k, relations, standinId)
  {
    if !HistoryKeysOk(k) {
      return;
    }
    var f := SearchFields([], -1, -1, Some(k.standInRelation), [standinId], []);
    forall x | x in relations ensures ActiveFor(k, standinId)(x) == (Matching(f)(x) && ValueLikeActive(k)(x)) {
      LikeLiteral(x.kind, k.standInRelation);
      LikePrefix(x.value, k.activeValue);
    }
    FilterFilter(relations, Matching(f), ValueLikeActive(k), ActiveFor(k, standinId));
  }

  /**
   * The history part of one controller: the store it writes to, the keys, its entity type and
   * the controller's own conversions (CreateBasePackage, CreateBaseView).
   */
  class EntityBaseController<B> {
    const store: Store
    const keys: HistoryKeys
    const entityType: string
    const createBasePackage: (B, int) -> EntityPackage
    const createBaseView: EntityPackage -> B

    constructor (store: Store, keys: HistoryKeys, entityType: string,
                 createBasePackage: (B, int) -> EntityPackage, createBaseView: EntityPackage -> B)
      ensures this.store == store && this.keys == keys && this.entityType == entityType
      ensures this.createBasePackage == createBasePackage && this.createBaseView == createBaseView
    {
      this.store, this.keys, this.entityType := store, keys, entityType;
      this.createBasePackage, this.createBaseView := createBasePackage, createBaseView;
    }

    /** The base package of a view carries no stand-in relation of its own and nothing saved. */
    predicate BaseOk(view: HistoricView<B>, now: int)
    {
      var base := createBasePackage(view.body, now);
      IsUnsaved(base) && forall x :: x in base.relations ==> x.kind != keys.standInRelation
    }

    /** The relation ConvertFromView links a view with: active, from the view's stand-in id. */
    function StandInLink(view: HistoricView<B>, now: int): (x: EntityRelation)
      ensures x.id == 0 && x.entityId1 == view.id && x.kind == keys.standInRelation
      ensures x.value == keys.activeValue && x.createDate == Some(now)
    {
      NewRelation(view.id, keys.standInRelation, keys.activeValue, now)
    }

    /**
     * ConvertFromView: the base package, as a new entity (id 0) of the controller's type,
     * created when the view says, with an active stand-in relation from the view's id.
     */
    function ConvertFromView(view: HistoricView<B>, now: int): (p: EntityPackage)
      ensures var base := createBasePackage(view.body, now);
        && p.entity.id == 0 && p.entity.createDate == Some(view.createDate)
        && p.entity.kind == TypeSet(base.entity.kind, entityType)
        && p.entity.name == base.entity.name && p.entity.content == base.entity.content
        && p.values == base.values
        && p.relations == base.relations + [StandInLink(view, now)]
    {
      var base := createBasePackage(view.body, now);
      var e := base.entity.(id := 0, kind := TypeSet(base.entity.kind, entityType), createDate := Some(view.createDate));
      EntityPackage(e, base.values, base.relations + [StandInLink(view, now)])
    }

    lemma ConvertFromViewStandIn(view: HistoricView<B>, now: int)
      requires BaseOk(view, now)
      ensures var p := ConvertFromView(view, now);
        && RelationIndexOfKind(p, keys.standInRelation) == |p.relations| - 1
        && GetRelation(p, keys.standInRelation) == Some(StandInLink(view, now))
        && IsUnsaved(p)
    {
      var p := ConvertFromView(view, now);
      var base := createBasePackage(view.body, now);
      assert forall k :: 0 <= k < |base.relations| ==> p.relations[k] == base.relations[k];
      assert p.relations[|p.relations| - 1] == StandInLink(view, now);
    }

    /**
     * ConvertToView: the controller's fields, the edit date from the stand-in relation, the
     * create date from the entity and the id from the stand-in relation.
     */
    function ConvertToView(p: EntityPackage): (r: Result<HistoricView<B>>)
      ensures r.Success? <==>
        && GetRelation(p, keys.standInRelation).Some?
        && GetRelation(p, keys.standInRelation).value.createDate.Some? && p.entity.createDate.Some?
      ensures GetRelation(p, keys.standInRelation).None? ==> r == Failure(NullReference)
      ensures r.Success? ==> var x := GetRelation(p, keys.standInRelation).value;
        r.value == HistoricView(x.entityId1, p.entity.createDate.value, x.createDate.value, createBaseView(p))
    {
      var view := createBaseView(p);
      match GetRelation(p, keys.standInRelation)
      case None => Failure(NullReference)
      case Some(x) =>
        if x.createDate.None? then Failure(InvalidOperation("Nullable object must have a value."))
        else if p.entity.createDate.None? then Failure(InvalidOperation("Nullable object must have a value."))
        else Success(HistoricView(x.entityId1, p.entity.createDate.value, x.createDate.value, view))
    }

    /** A converted view reads back with its id, its create date and the conversion time as edit date. */
    lemma ViewRoundTrip(view: HistoricView<B>, now: int)
      requires BaseOk(view, now)
      ensures ConvertToView(ConvertFromView(view, now))
        == Success(HistoricView(view.id, view.createDate, now, createBaseView(ConvertFromView(view, now))))
    {
      ConvertFromViewStandIn(view, now);
    }

    /** ViewResult: every package of the query as a view; the first that cannot convert fails it. */
    function ViewResult(packages: seq<EntityPackage>): (r: Result<seq<HistoricView<B>>>)
      ensures r.Success? <==> forall i :: 0 <= i < |packages| ==> ConvertToView(packages[i]).Success?
      ensures r.Success? ==> |r.value| == |packages|
      ensures r.Success? ==> forall i :: 0 <= i < |packages| ==> ConvertToView(packages[i]) == Success(r.value[i])
      ensures r.Failure? ==> exists i :: 0 <= i < |packages| && ConvertToView(packages[i]) == Failure(r.error)
    {
      Collect(packages, (p: EntityPackage) => ConvertToView(p))
    }

    /** GetStandInAsync: the entity with that id when it is a stand-in; otherwise no entity. */
    function GetStandInAsync(id: int): (r: Result<Entity>)
      reads store
      ensures r.Success? <==> store.EntityById(id).Some? && keys.standInType <= store.EntityById(id).value.kind
      ensures r.Success? ==> r.value in store.entities && r.value.id == id
      ensures r.Failure? ==> r.error == InvalidOperation("No entity with id " + LongToString(id))
    {
      var missing := Failure(InvalidOperation("No entity with id " + LongToString(id)));
      match store.EntityById(id)
      case None => missing
      case Some(e) => if TypeIs(Some(e.kind), keys.standInType) then Success(e) else missing
    }

    /** The active relations of a stand-in in the store. */
    function ActiveRelations(standinId: int): (r: seq<EntityRelation>)
      reads store
    {
      ActiveIn(keys, store.relations, standinId)
    }

    /** GetActiveRelation: the relation search for the stand-in, its active ones, at most one. */
    function GetActiveRelation(standinId: int): (r: Result<Option<EntityRelation>>)
      reads store
      ensures HistoryKeysOk(keys) ==> r == OnlySingle(ActiveRelations(standinId))
    {
      ActiveSearchExactly(keys, store.relations, standinId);
      OnlySingle(Filter(FindRelations(store.relations, ActiveSearch(keys, standinId)), ValueIsActive(keys)))
    }

    /** ConvertStandInIdsAsync: the revisions the active stand-in relations of the ids point at. */
    function ConvertStandInIds(ids: seq<int>): (r: seq<int>)
      reads store
    {
      if ids == [] then []
      else
        var f := SearchFields([], -1, -1, Some(keys.standInRelation), ids, []);
        RevisionIds(Filter(Filter(store.relations, Matching(f)), ValueLikeActive(keys)))
    }

    /**
     * FindByIdAsync(standinId): nothing when the stand-in has no active revision, a fault when it
     * has several, and otherwise the package of its one active revision.
     */
    function FindByIdAsync(standinId: int): (r: Result<Option<EntityPackage>>)
      reads store
      ensures HistoryKeysOk(keys) ==> var active := ActiveRelations(standinId);
        && (|active| == 0 ==> r == Success(None))
        && (|active| > 1 ==> r.Failure? && r.error.InvalidOperation?)
        && (|active| == 1 ==> r == Success(store.PackageById(active[0].entityId2)))
    {
      var realIds := ConvertStandInIds([standinId]);
      StandInIdsExactly(keys, store.relations, standinId);
      if |realIds| == 0 then Success(None)
      else if |realIds| > 1 then Failure(InvalidOperation("Multiple entities for given standin, are there trailing history elements?"))
      else Success(store.PackageById(realIds[0]))
    }

    /** CreateStandInAsync: a new entity of the stand-in type, saved under the next id. */
    method CreateStandInAsync(now: int) returns (standin: Entity)
      requires store.Valid()
      modifies store
      ensures store.Valid()
      ensures standin == Entity(old(store.nextId), Some(now), "", keys.activeValue, keys.standInType)
      ensures store.entities == old(store.entities) + [standin] && store.nextId == old(store.nextId) + 1
      ensures store.values == old(store.values) && store.relations == old(store.relations)
    {
      var e := NewEntity("", keys.activeValue, now).entity;
      e := e.(kind := keys.standInType);
      standin := store.InsertEntity(e);
    }

    /** What MarkLatestInactive finds: the one active relation and the content it points at. */
    function LatestActive(standinId: int): (r: Result<RestoreCopies>)
      reads store
      ensures r.Success? ==> r.value.relation in store.relations && r.value.content in store.entities
      ensures r.Success? ==> r.value.content.id == r.value.relation.entityId2
      ensures HistoryKeysOk(keys) && r.Success? ==> ActiveRelations(standinId) == [r.value.relation]
      ensures r.Failure? ==> r.error.InvalidOperation?
    {
      match GetActiveRelation(standinId)
      case Failure(e) => Failure(e)
      case Success(None) => Failure(InvalidOperation("Could not find active relation in historic content system"))
      case Success(Some(x)) =>
        match store.EntityById(x.entityId2)
        case None => Failure(InvalidOperation("Could not find active content in historic content system"))
        case Some(c) =>
          assert x in store.relations by {
            if HistoryKeysOk(keys) {
              assert x in ActiveRelations(standinId);
            } else {
              assert x in Filter(FindRelations(store.relations, ActiveSearch(keys, standinId)), ValueIsActive(keys));
            }
          }
          Success(RestoreCopies(x, c))
    }

    /** The relation marked inactive: the override value, or the old value without its active prefix. */
    function Inactivated(x: EntityRelation, subValue: Option<string>): (y: EntityRelation)
      ensures y == x.(value := TypeSet(OrElse(subValue, TypeSub(x.value, keys.activeValue)), keys.inactiveValue))
    {
      x.(value := TypeSet(OrElse(subValue, TypeSub(x.value, keys.activeValue)), keys.inactiveValue))
    }

    /** The content marked historic: the history key put before its type. */
    function Historic(e: Entity): (h: Entity)
      ensures h == e.(kind := TypeSet(e.kind, keys.historyKey))
    {
      e.(kind := TypeSet(e.kind, keys.historyKey))
    }

    /**
     * MarkLatestInactive: the active relation and its content are found (or it fails, changing
     * nothing), copies of both are returned for a rollback, the relation is marked inactive and
     * the content historic, in place.
     */
    method MarkLatestInactive(standinId: int, subValue: Option<string>) returns (r: Result<RestoreCopies>)
      requires store.Valid()
      modifies store
      ensures store.Valid()
      ensures r == old(LatestActive(standinId))
      ensures r.Failure? ==> unchanged(store)
      ensures r.Success? ==>
        && store.relations == old(store.relations)[old(store.RelationIndex(r.value.relation.id)) := Inactivated(r.value.relation, subValue)]
        && store.entities == old(store.entities)[old(store.EntityIndex(r.value.content.id)) := Historic(r.value.content)]
        && 0 <= old(store.RelationIndex(r.value.relation.id)) && 0 <= old(store.EntityIndex(r.value.content.id))
        && old(store.relations)[old(store.RelationIndex(r.value.relation.id))] == r.value.relation
        && old(store.entities)[old(store.EntityIndex(r.value.content.id))] == r.value.content
      ensures store.values == old(store.values) && store.nextId == old(store.nextId)
    {
      r := LatestActive(standinId);
      if r.Failure? {
        return;
      }
      var lastActiveRelation, lastActiveContent := r.value.relation, r.value.content;
      store.RelationIndexOf(lastActiveRelation);
      store.EntityIndexOf(lastActiveContent);
      var ri := store.RelationIndex(lastActiveRelation.id);
      var ei := store.EntityIndex(lastActiveContent.id);
      store.UpdateEntity(ei, Historic(lastActiveContent));
      store.UpdateRelation(ri, Inactivated(lastActiveRelation, subValue));
    }

    /** After MarkLatestInactive the stand-in has no active relation left. */
    lemma NoneActiveAfterMark(relations: seq<EntityRelation>, i: nat, standinId: int, subValue: Option<string>)
      requires HistoryKeysOk(keys) && i < |relations| && ActiveIn(keys, relations, standinId) == [relations[i]]
      ensures ActiveIn(keys, relations[i := Inactivated(relations[i], subValue)], standinId) == []
    {
      assert relations[i] in ActiveIn(keys, relations, standinId);
      InactiveNeverActive(keys, OrElse(subValue, TypeSub(relations[i].value, keys.activeValue)));
      FilterUpdateOnly(relations, i, Inactivated(relations[i], subValue), ActiveFor(keys, standinId));
    }

    /** DeleteEntity: MarkLatestInactive with the delete action as the inactive value's suffix. */
    method DeleteEntity(standinId: int) returns (r: Result<RestoreCopies>)
      requires store.Valid()
      modifies store
      ensures store.Valid()
      ensures r == old(LatestActive(standinId))
      ensures r.Failure? ==> unchanged(store)
      ensures r.Success? ==>
        store.relations == old(store.relations)[old(store.RelationIndex(r.value.relation.id)) := Inactivated(r.value.relation, Some(keys.deleteAction))]
    {
      r := MarkLatestInactive(standinId, Some(keys.deleteAction));
    }

    /** DeleteEntityCheck: the stand-in's package, which must exist and have the controller's type. */
    function DeleteEntityCheck(standinId: int): (r: Result<EntityPackage>)
      reads store
      ensures r.Success? ==> FindByIdAsync(standinId) == Success(Some(r.value)) && entityType <= r.value.entity.kind
      ensures FindByIdAsync(standinId).Failure? ==> r == Failure(FindByIdAsync(standinId).error)
      ensures FindByIdAsync(standinId).Success? ==> var last := FindByIdAsync(standinId).value;
        && (last.Some? && entityType <= last.value.entity.kind ==> r == Success(last.value))
        && (last.None? || !(entityType <= last.value.entity.kind) ==>
              r == Failure(InvalidOperation("No entity with that ID and type!")))
      ensures r.Failure? ==> r.error.InvalidOperation?
    {
      match FindByIdAsync(standinId)
      case Failure(e) => Failure(e)
      case Success(last) =>
        if last.None? || !TypeIs(Some(last.value.entity.kind), entityType) then
          Failure(InvalidOperation("No entity with that ID and type!"))
        else Success(last.value)
    }

    /** The saved package of a converted view has one active relation: its stand-in link. */
    lemma LinkedActive(view: HistoricView<B>, now: int, first: int, w: EntityPackage)
      requires BaseOk(view, now) && HistoryKeysOk(keys)
      requires w == Linked(ConvertFromView(view, now), first)
      ensures |w.relations| > 0 && ActiveIn(keys, w.relations, view.id) == [w.relations[|w.relations| - 1]]
    {
      var base := createBasePackage(view.body, now);
      var n := |w.relations|;
      var front, last := w.relations[..n - 1], w.relations[n - 1];
      assert w.relations == front + [last];
      forall x | x in front ensures !ActiveFor(keys, view.id)(x) {
        var k :| 0 <= k < |front| && front[k] == x;
        assert ConvertFromView(view, now).relations[k] == base.relations[k];
        assert base.relations[k] in base.relations;
      }
      FilterNone(front, ActiveFor(keys, view.id));
      FilterAll([last], ActiveFor(keys, view.id));
      FilterAppend(front, [last], ActiveFor(keys, view.id));
    }

    /** Appending the saved package of a converted view adds its stand-in link to the active relations. */
    lemma ActiveAfterWrite(before: seq<EntityRelation>, view: HistoricView<B>, now: int, first: int, w: EntityPackage)
      requires BaseOk(view, now)
      requires w == Linked(ConvertFromView(view, now), first)
      ensures |w.relations| > 0
      ensures HistoryKeysOk(keys) ==>
        ActiveIn(keys, before + w.relations, view.id) == ActiveIn(keys, before, view.id) + [w.relations[|w.relations| - 1]]
    {
      if HistoryKeysOk(keys) {
        LinkedActive(view, now, first, w);
        FilterAppend(before, w.relations, ActiveFor(keys, view.id));
      }
    }

    /**
     * ModifySearchAsync: the search is limited, a blank type pattern becomes "%", the controller's
     * type is put before the pattern, and requested stand-in ids become the ids of their active
     * revisions, or the `long.MaxValue` sentinel when there are none. The same object is returned.
     */
    method ModifySearchAsync(search: EntitySearch) returns (r: EntitySearch)
      modifies search
      ensures r == search
      ensures search.limit == ClampLimit(old(search.limit))
      ensures search.typeLike == Some(TypeSet(if IsNullOrWhiteSpace(old(search.typeLike)) then "%" else old(search.typeLike).value, entityType))
      ensures old(search.ids) == [] ==> search.ids == []
      ensures old(search.ids) != [] && ConvertStandInIds(old(search.ids)) == [] ==> search.ids == [MaxLong]
      ensures old(search.ids) != [] && ConvertStandInIds(old(search.ids)) != [] ==> search.ids == ConvertStandInIds(old(search.ids))
      ensures search.skip == old(search.skip) && search.entityIds1 == old(search.entityIds1) && search.entityIds2 == old(search.entityIds2)
    {
      r := LimitSearch(search);
      if IsNullOrWhiteSpace(r.typeLike) {
        r.typeLike := Some("%");
      }
      r.typeLike := Some(TypeSet(r.typeLike.value, entityType));
      if |r.ids| > 0 {
        r.ids := ConvertStandInIds(r.ids);
        if |r.ids| == 0 {
          r.ids := r.ids + [MaxLong];
        }
      }
    }

    /**
     * PostCleanAsync: a view with a positive id takes the create date of its stand-in, which must
     * exist, and must name an existing revision of the controller's type; any other view is
     * created now. Nothing else in the view changes.
     */
    function PostCleanAsync(view: HistoricView<B>, now: int): (r: Result<HistoricView<B>>)
      reads store
      ensures view.id <= 0 ==> r == Success(view.(createDate := now))
      ensures r.Success? ==> r.value == view.(createDate := r.value.createDate)
      ensures view.id > 0 && r.Success? ==>
        && GetStandInAsync(view.id).Success? && GetStandInAsync(view.id).value.createDate == Some(r.value.createDate)
        && FindByIdAsync(view.id).Success? && FindByIdAsync(view.id).value.Some?
        && entityType <= FindByIdAsync(view.id).value.value.entity.kind
      ensures view.id > 0 && GetStandInAsync(view.id).Failure? ==> r == Failure(GetStandInAsync(view.id).error)
    {
      if view.id > 0 then
        match GetStandInAsync(view.id)
        case Failure(e) => Failure(e)
        case Success(standin) =>
          match FindByIdAsync(view.id)
          case Failure(e) => Failure(e)
          case Success(existing) => PostCleanUpdate(view, standin, existing)
      else Success(view.(createDate := now))
    }

    /** PostCleanUpdateAsync: the stand-in's create date, over an existing entity of the controller's type only. */
    function PostCleanUpdate(view: HistoricView<B>, standin: Entity, existing: Option<EntityPackage>): (r: Result<HistoricView<B>>)
      ensures r.Success? <==> standin.createDate.Some? && existing.Some? && entityType <= existing.value.entity.kind
      ensures r.Success? ==> r.value == view.(createDate := standin.createDate.value)
      ensures standin.createDate.Some? && existing.None? ==> r == Failure(NullReference)
      ensures standin.createDate.None? || (existing.Some? && !(entityType <= existing.value.entity.kind)) ==> r.Failure? && r.error.InvalidOperation?
    {
      if standin.createDate.None? then Failure(InvalidOperation("Nullable object must have a value."))
      else if existing.None? then Failure(NullReference)
      else if !TypeIs(Some(existing.value.entity.kind), entityType) then Failure(InvalidOperation("No entity of proper type with id"))
      else Success(view.(createDate := standin.createDate.value))
    }

    /** The sentinel id of ModifySearchAsync names no entity while ids stay in the `long` range. */
    lemma SentinelFindsNothing()
      requires store.Valid() && store.nextId <= MaxLong
      ensures store.EntityById(MaxLong).None?
    {
    }

    /** provider.WriteAsync(restoreCopies): the saved relation and content are written back over their ids. */
    method WriteRestoreCopies(copies: Option<RestoreCopies>)
      requires store.Valid()
      requires copies.Some? ==> 0 <= store.RelationIndex(copies.value.relation.id) && 0 <= store.EntityIndex(copies.value.content.id)
      modifies store
      ensures store.Valid()
      ensures copies.None? ==> unchanged(store)
      ensures copies.Some? ==>
        && store.relations == old(store.relations)[old(store.RelationIndex(copies.value.relation.id)) := copies.value.relation]
        && store.entities == old(store.entities)[old(store.EntityIndex(copies.value.content.id)) := copies.value.content]
      ensures store.values == old(store.values) && store.nextId == old(store.nextId)
    {
      if copies.Some? {
        var ri := store.RelationIndex(copies.value.relation.id);
        var ei := store.EntityIndex(copies.value.content.id);
        store.UpdateRelation(ri, copies.value.relation);
        store.UpdateEntity(ei, copies.value.content);
      }
    }

    /** Pointing the stand-in relation of a converted view at a stand-in converts the view with that id. */
    lemma Relinked(view: HistoricView<B>, now: int, standinId: int)
      requires BaseOk(view, now)
      ensures var p := ConvertFromView(view, now);
        var k := RelationIndexOfKind(p, keys.standInRelation);
        0 <= k && p.(relations := p.relations[k := p.relations[k].(entityId1 := standinId)]) == ConvertFromView(view.(id := standinId), now)
    {
      ConvertFromViewStandIn(view, now);
      var p := ConvertFromView(view, now);
      var k := RelationIndexOfKind(p, keys.standInRelation);
      assert p.relations[k := p.relations[k].(entityId1 := standinId)] == ConvertFromView(view.(id := standinId), now).relations;
    }

    /**
     * WriteViewAsync for a view without an id: a new stand-in entity is created first and the
     * package's stand-in relation is pointed at it; nothing is marked inactive, so a failed package
     * write has nothing to restore (the new stand-in stays).
     */
    method WriteNewStandIn(view: HistoricView<B>, now: int, fault: bool) returns (r: Result<EntityPackage>)
      requires store.Valid() && BaseOk(view, now) && view.id == 0
      modifies store
      ensures store.Valid()
      ensures var standin := Entity(old(store.nextId), Some(now), "", keys.activeValue, keys.standInType);
        && (fault ==>
              && r == Failure(StoreFault) && store.entities == old(store.entities) + [standin]
              && store.relations == old(store.relations) && store.values == old(store.values))
        && (!fault ==>
              && r == Success(Linked(ConvertFromView(view.(id := old(store.nextId)), now), old(store.nextId) + 1))
              && store.entities == old(store.entities) + [standin, r.value.entity]
              && store.relations == old(store.relations) + r.value.relations
              && store.values == old(store.values) + r.value.values)
      ensures !fault && HistoryKeysOk(keys) ==> var n := old(store.nextId);
        ActiveIn(keys, store.relations, n) == ActiveIn(keys, old(store.relations), n) + [r.value.relations[|r.value.relations| - 1]]
      ensures view.id == 0 && !fault && HistoryKeysOk(keys) && ActiveIn(keys, old(store.relations), old(store.nextId)) == [] ==>
        ActiveRelations(old(store.nextId)) == [r.value.relations[|r.value.relations| - 1]]
    {
      var package := ConvertFromView(view, now);
      ConvertFromViewStandIn(view, now);
      var k := RelationIndexOfKind(package, keys.standInRelation);
      var standinRelation := package.relations[k];
      var standin := CreateStandInAsync(now);
      standinRelation := standinRelation.(entityId1 := standin.id);
      package := package.(relations := package.relations[k := standinRelation]);
      Relinked(view, now, standin.id);
      ghost var before := store.relations;
      var written := store.WritePackage(package, fault);
      if written.Failure? {
        return Failure(written.error);
      }
      r := Success(written.value);
      ActiveAfterWrite(before, view.(id := standin.id), now, old(store.nextId) + 1, written.value);
    }

    /**
     * The first half of WriteViewAsync for a view with a stand-in id: the stand-in must exist,
     * then its active relation and content are marked inactive and historic. `ri` and `ei` are
     * where the marked relation and content sit.
     */
    method MarkRevision(standinId: int) returns (r: Result<RestoreCopies>, ghost ri: int, ghost ei: int)
      requires store.Valid()
      modifies store
      ensures store.Valid()
      ensures r == if old(GetStandInAsync(standinId)).Failure? then Failure(old(GetStandInAsync(standinId)).error)
                   else old(LatestActive(standinId))
      ensures r.Failure? ==> store.relations == old(store.relations) && store.entities == old(store.entities)
      ensures r.Success? ==>
        && 0 <= ri < |old(store.relations)| && old(store.relations)[ri] == r.value.relation
        && 0 <= ei < |old(store.entities)| && old(store.entities)[ei] == r.value.content
        && store.relations == old(store.relations)[ri := Inactivated(r.value.relation, None)]
        && store.entities == old(store.entities)[ei := Historic(r.value.content)]
        && store.RelationIndex(r.value.relation.id) == ri && store.EntityIndex(r.value.content.id) == ei
        && (HistoryKeysOk(keys) ==> ActiveIn(keys, store.relations, standinId) == [])
      ensures store.values == old(store.values) && store.nextId == old(store.nextId)
    {
      var standin := GetStandInAsync(standinId);
      if standin.Failure? {
        return Failure(standin.error), -1, -1;
      }
      ghost var before, latest := store.relations, LatestActive(standinId);
      r := MarkLatestInactive(standinId, None);
      ri, ei := -1, -1;
      if r.Success? {
        ri, ei := old(store.RelationIndex(r.value.relation.id)), old(store.EntityIndex(r.value.content.id));
        MarkedFound(ri, Inactivated(r.value.relation, None), ei, Historic(r.value.content));
        if HistoryKeysOk(keys) {
          assert ActiveIn(keys, before, standinId) == [before[ri]] by {
            assert latest == r;
          }
          NoneActiveAfterMark(before, ri, standinId, None);
        }
      }
    }

    /**
     * WriteViewAsync for a view with a stand-in id: MarkRevision, then the package is written;
     * when that write fails, the copies are written back, which leaves the store as it was.
     * `marked` is what MarkRevision found, at `ri` and `ei`.
     */
    method WriteRevision(view: HistoricView<B>, now: int, fault: bool)
      returns (r: Result<EntityPackage>, ghost marked: Result<RestoreCopies>, ghost ri: int, ghost ei: int)
      requires store.Valid() && BaseOk(view, now) && view.id != 0
      modifies store
      ensures store.Valid()
      ensures marked == if old(GetStandInAsync(view.id)).Failure? then Failure(old(GetStandInAsync(view.id)).error)
                        else old(LatestActive(view.id))
      ensures marked.Failure? ==> r == Failure(marked.error)
      ensures marked.Success? ==>
        && 0 <= ri < |old(store.relations)| && old(store.relations)[ri] == marked.value.relation
        && 0 <= ei < |old(store.entities)| && old(store.entities)[ei] == marked.value.content
      ensures marked.Success? && fault ==> r == Failure(StoreFault)
      ensures r.Failure? ==>
        && store.relations == old(store.relations) && store.entities == old(store.entities)
        && store.values == old(store.values) && store.nextId == old(store.nextId)
      ensures marked.Success? && !fault ==>
        && r == Success(Linked(ConvertFromView(view, now), old(store.nextId)))
        && store.relations == old(store.relations)[ri := Inactivated(marked.value.relation, None)] + r.value.relations
        && store.entities == old(store.entities)[ei := Historic(marked.value.content)] + [r.value.entity]
        && store.values == old(store.values) + r.value.values
      ensures r.Success? && HistoryKeysOk(keys) ==> ActiveRelations(view.id) == [r.value.relations[|r.value.relations| - 1]]
    {
      ghost var relations0, entities0 := store.relations, store.entities;
      var package := ConvertFromView(view, now);
      ConvertFromViewStandIn(view, now);
      var k := RelationIndexOfKind(package, keys.standInRelation);
      var standinRelation := package.relations[k];
      var copies;
      copies, ri, ei := MarkRevision(standinRelation.entityId1);
      marked := copies;
      if copies.Failure? {
        return Failure(copies.error), marked, ri, ei;
      }
      ghost var relations1, entities1 := store.relations, store.entities;
      r := WritePackageOrRestore(package, copies.value, fault);
      if r.Success? {
        ActiveAfterWrite(relations1, view, now, old(store.nextId), r.value);
      } else {
        UpdateBack(relations0, ri, Inactivated(copies.value.relation, None));
        UpdateBack(entities0, ei, Historic(copies.value.content));
      }
    }

    /**
     * The package write of WriteViewAsync: on a fault the copies kept by MarkLatestInactive are
     * written back over their ids, and the fault is raised again.
     */
    method WritePackageOrRestore(package: EntityPackage, copies: RestoreCopies, fault: bool) returns (r: Result<EntityPackage>)
      requires store.Valid() && IsUnsaved(package)
      requires 0 <= store.RelationIndex(copies.relation.id) && 0 <= store.EntityIndex(copies.content.id)
      modifies store
      ensures store.Valid()
      ensures fault ==>
        && r == Failure(StoreFault)
        && store.relations == old(store.relations)[old(store.RelationIndex(copies.relation.id)) := copies.relation]
        && store.entities == old(store.entities)[old(store.EntityIndex(copies.content.id)) := copies.content]
        && store.values == old(store.values) && store.nextId == old(store.nextId)
      ensures !fault ==>
        && r == Success(Linked(package, old(store.nextId)))
        && store.relations == old(store.relations) + r.value.relations
        && store.entities == old(store.entities) + [r.value.entity]
        && store.values == old(store.values) + r.value.values
    {
      r := store.WritePackage(package, fault);
      if r.Failure? {
        WriteRestoreCopies(Some(copies));
      }
    }

    /**
     * Marked records keep their ids, so with ids unique the copies kept for a rollback are found
     * again at the places they were marked.
     */
    lemma MarkedFound(ri: nat, x: EntityRelation, ei: nat, e: Entity)
      requires store.Valid() && ri < |store.relations| && store.relations[ri] == x
      requires ei < |store.entities| && store.entities[ei] == e
      ensures store.RelationIndex(x.id) == ri && store.EntityIndex(e.id) == ei
    {
      store.RelationIndexOf(x);
      store.EntityIndexOf(e);
    }

    /**
     * WriteViewAsync: the view becomes a new revision, through a new stand-in when it has no id
     * and over its existing stand-in otherwise. For a view with an id, `marked` is what was found
     * to mark inactive, at `ri` and `ei`.
     */
    method WriteViewAsync(view: HistoricView<B>, now: int, fault: bool)
      returns (r: Result<EntityPackage>, ghost marked: Result<RestoreCopies>, ghost ri: int, ghost ei: int)
      requires store.Valid() && BaseOk(view, now)
      modifies store
      ensures store.Valid()
      ensures r.Failure? ==> store.relations == old(store.relations) && store.values == old(store.values)
      ensures view.id == 0 ==> var standin := Entity(old(store.nextId), Some(now), "", keys.activeValue, keys.standInType);
        && (fault ==> r == Failure(StoreFault) && store.entities == old(store.entities) + [standin])
        && (!fault ==>
              && r == Success(Linked(ConvertFromView(view.(id := old(store.nextId)), now), old(store.nextId) + 1))
              && store.entities == old(store.entities) + [standin, r.value.entity]
              && store.relations == old(store.relations) + r.value.relations
              && store.values == old(store.values) + r.value.values)
      ensures view.id == 0 && !fault && HistoryKeysOk(keys) ==> var n := old(store.nextId);
        ActiveIn(keys, store.relations, n) == ActiveIn(keys, old(store.relations), n) + [r.value.relations[|r.value.relations| - 1]]
      ensures view.id == 0 && !fault && HistoryKeysOk(keys) && ActiveIn(keys, old(store.relations), old(store.nextId)) == [] ==>
        ActiveRelations(old(store.nextId)) == [r.value.relations[|r.value.relations| - 1]]
      ensures view.id != 0 ==>
        marked == if old(GetStandInAsync(view.id)).Failure? then Failure(old(GetStandInAsync(view.id)).error)
                  else old(LatestActive(view.id))
      ensures view.id != 0 && marked.Failure? ==> r == Failure(marked.error)
      ensures view.id != 0 && marked.Success? ==>
        && 0 <= ri < |old(store.relations)| && old(store.relations)[ri] == marked.value.relation
        && 0 <= ei < |old(store.entities)| && old(store.entities)[ei] == marked.value.content
      ensures view.id != 0 && marked.Success? && fault ==> r == Failure(StoreFault)
      ensures view.id != 0 && r.Failure? ==> store.entities == old(store.entities) && store.nextId == old(store.nextId)
      ensures view.id != 0 && marked.Success? && !fault ==>
        && r == Success(Linked(ConvertFromView(view, now), old(store.nextId)))
        && store.relations == old(store.relations)[ri := Inactivated(marked.value.relation, None)] + r.value.relations
        && store.entities == old(store.entities)[ei := Historic(marked.value.content)] + [r.value.entity]
        && store.values == old(store.values) + r.value.values
      ensures view.id != 0 && r.Success? && HistoryKeysOk(keys) ==> ActiveRelations(view.id) == [r.value.relations[|r.value.relations| - 1]]
    {
      if view.id == 0 {
        r := WriteNewStandIn(view, now, fault);
        marked, ri, ei := Failure(NotFound), -1, -1;
      } else {
        r, marked, ri, ei := WriteRevision(view, now, fault);
      }
    }
  }
}
