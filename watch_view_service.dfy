/**
 * WatchViewService: a watch is a relation from a user (EntityId1) to what the user watches.
 * Only its owner or the system may read or delete one; watches are never written through the
 * service; a search lists only the requester's own watches.
 */
module WatchViewService {
  import opened Wrappers
  import opened Seqs
  import opened EntitySystem
  import opened Searches
  import opened EntityStore

  /** The part of BaseSearch a watch search uses: ids and paging. */
  datatype BaseSearch = BaseSearch(ids: seq<int>, limit: int, skip: int)

  /**
   * GetWatchRaw: the relation with that id, when the requester is the system or the owner of
   * the watch. An unknown id is null: the system gets it back as it is (the owner test is
   * short-circuited), anyone else dereferences it.
   */
  function GetWatchRaw(store: Store, id: int, requester: Requester): (r: Result<Option<EntityRelation>>)
    reads store
    ensures r.Success? <==>
      requester.system || (store.RelationById(id).Some? && store.RelationById(id).value.entityId1 == requester.userId)
    ensures r.Success? ==> r.value == store.RelationById(id)
    ensures r.Success? && r.value.Some? ==> r.value.value in store.relations && r.value.value.id == id
    ensures store.RelationById(id).None? && !requester.system ==> r == Failure(NullReference)
    ensures store.RelationById(id).Some? && !r.Success? ==> r.error == AuthorizationFailure("Can't modify this watch!")
  {
    match store.RelationById(id)
    case None => if requester.system then Success(None) else Failure(NullReference)
    case Some(item) =>
      if !requester.system && item.entityId1 != requester.userId then
        Failure(AuthorizationFailure("Can't modify this watch!"))
      else Success(Some(item))
  }

  /** With no system flag, a watch can be fetched only by the user it belongs to, and never as null. */
  lemma OnlyOwnerReads(store: Store, id: int, requester: Requester)
    requires !requester.system
    ensures GetWatchRaw(store, id, requester).Success? ==>
      && GetWatchRaw(store, id, requester).value.Some?
      && exists x :: x in store.relations && x.id == id && x.entityId1 == requester.userId
  {
    var r := GetWatchRaw(store, id, requester);
    if r.Success? {
      assert r.value.value in store.relations && r.value.value.id == id && r.value.value.entityId1 == requester.userId;
    }
  }

  /** The system asking for an id that names no relation gets null back, not a fault. */
  lemma SystemGetsNullForUnknownId(store: Store, id: int, requester: Requester)
    requires requester.system && forall k :: 0 <= k < |store.relations| ==> store.relations[k].id != id
    ensures GetWatchRaw(store, id, requester) == Success(None)
  {
  }

  /**
   * FindByIdAsync: the same rule as GetWatchRaw, then the converter's view of what it returned,
   * null included.
   */
  function FindByIdAsync<W>(store: Store, id: int, requester: Requester, toView: Option<EntityRelation> -> W): (r: Result<W>)
    reads store
    ensures r.Success? <==> GetWatchRaw(store, id, requester).Success?
    ensures r.Success? ==> r.value == toView(store.RelationById(id))
    ensures r.Failure? ==> r.error == GetWatchRaw(store, id, requester).error
  {
    match GetWatchRaw(store, id, requester)
    case Failure(e) => Failure(e)
    case Success(item) => Success(toView(item))
  }

  /**
   * DeleteAsync: after GetWatchRaw allows it, the watch is removed and its view returned; when
   * GetWatchRaw faults, the store is left as it was; a null item (the system naming an unknown
   * id) makes the provider's delete fault, and the store is left as it was.
   */
  method DeleteAsync<W>(store: Store, id: int, requester: Requester, toView: Option<EntityRelation> -> W) returns (r: Result<W>)
    requires store.Valid()
    modifies store
    ensures store.Valid()
    ensures old(GetWatchRaw(store, id, requester)).Failure? ==>
      r == Failure(old(GetWatchRaw(store, id, requester)).error) && unchanged(store)
    ensures old(GetWatchRaw(store, id, requester)) == Success(None) ==> r == Failure(NullReference) && unchanged(store)
    ensures old(GetWatchRaw(store, id, requester)).Success? && old(GetWatchRaw(store, id, requester)).value.Some? ==>
      && r == Success(toView(old(GetWatchRaw(store, id, requester)).value))
      && store.RelationById(id).None?
      && var i := old(store.RelationIndex(id));
        0 <= i && store.relations == old(store.relations)[..i] + old(store.relations)[i + 1..]
    ensures store.entities == old(store.entities) && store.values == old(store.values)
  {
    var item := GetWatchRaw(store, id, requester);
    if item.Failure? {
      return Failure(item.error);
    }
    if item.value.None? {
      return Failure(NullReference);
    }
    var i := store.RelationIndex(id);
    ghost var before := store.relations;
    store.DeleteRelation(i);
    RemovedIdGone(before, i, store.relations);
    r := Success(toView(item.value));
  }

  /** With ids unique, removing the relation at `i` leaves no relation with its id. */
  lemma RemovedIdGone(relations: seq<EntityRelation>, i: nat, rest: seq<EntityRelation>)
    requires i < |relations| && rest == relations[..i] + relations[i + 1..]
    requires forall a, b :: 0 <= a < b < |relations| ==> relations[a].id != relations[b].id
    ensures forall k :: 0 <= k < |rest| ==> rest[k].id != relations[i].id
  {
    forall k | 0 <= k < |rest| ensures rest[k].id != relations[i].id {
      if k < i {
        assert rest[k] == relations[k];
      } else {
        assert rest[k] == relations[k + 1];
      }
    }
  }

  /** WriteAsync never succeeds: a view with an id is a bad request, one without is not implemented. */
  function WriteAsync<W>(viewId: int): (r: Result<W>)
    ensures r.Failure?
    ensures viewId != 0 <==> r.error.BadRequest?
    ensures viewId == 0 <==> r.error == NotImplemented
  {
    if viewId != 0 then Failure(BadRequest("Can't edit watches! Only delete or insert!"))
    else Failure(NotImplemented)
  }

  /** GetRevisions: watches have no history. */
  function GetRevisions<W>(id: int): (r: Result<seq<W>>)
    ensures r == Failure(NotImplemented)
  {
    Failure(NotImplemented)
  }

  /** The relation search SearchAsync builds: the ids, clamped paging, the watch type and the requester. */
  function WatchSearch(s: BaseSearch, uid: int, watchRelation: string): (f: SearchFields)
    ensures f.ids == s.ids && f.skip == s.skip && 0 <= f.limit <= MaxLimit && f.limit == ClampLimit(s.limit)
    ensures f.typeLike == Some(watchRelation + "%") && f.entityIds1 == [uid] && f.entityIds2 == []
  {
    SearchFields(s.ids, ClampLimit(s.limit), s.skip, Some(watchRelation + "%"), [uid], [])
  }

  /**
   * SearchAsync: the search is mapped to a relation search, limited, restricted to the watch type
   * and to the requester's own relations, and the relations found are converted.
   */
  method SearchAsync<W>(store: Store, search: BaseSearch, requester: Requester, watchRelation: string,
                        toView: EntityRelation -> W)
    returns (r: seq<W>, relationSearch: SearchFields)
    ensures relationSearch == WatchSearch(search, requester.userId, watchRelation)
    ensures r == Map(FindRelations(store.relations, relationSearch), toView)
  {
    var rs := new EntitySearch();
    rs.ids, rs.limit, rs.skip := search.ids, search.limit, search.skip;
    rs := LimitSearch(rs);
    rs.typeLike := Some(watchRelation + "%");
    rs.entityIds1 := rs.entityIds1 + [requester.userId];
    relationSearch := rs.Fields();
    var relations := FindRelations(store.relations, relationSearch);
    r := Map(relations, toView);
  }

  /**
   * A watch search finds at most MaxLimit relations, each of them stored, owned by the requester
   * and typed as a watch.
   */
  lemma SearchOnlyOwnWatches(relations: seq<EntityRelation>, s: BaseSearch, uid: int, watchRelation: string)
    requires NoWildcards(watchRelation)
    ensures var found := FindRelations(relations, WatchSearch(s, uid, watchRelation));
      && |found| <= MaxLimit
      && forall x :: x in found ==> x in relations && x.entityId1 == uid && watchRelation <= x.kind
  {
    var f := WatchSearch(s, uid, watchRelation);
    var kept := Filter(relations, Matching(f));
    var found := FindRelations(relations, f);
    forall x | x in found ensures x in relations && x.entityId1 == uid && watchRelation <= x.kind {
      var lo := if f.skip < 0 then 0 else if f.skip > |kept| then |kept| else f.skip;
      var i :| 0 <= i < |found| && found[i] == x;
      assert found[i] == kept[lo..][i];
      assert x in kept;
      LikePrefix(x.kind, watchRelation);
    }
  }
}
