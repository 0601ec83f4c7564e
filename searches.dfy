/**
 * The storage layer's search object (ids, paging, a type pattern, relation endpoints) and the
 * normalisation every view source applies to it. The view sources update one search object
 * in place and hand it along, so it is a class.
 */
module Searches {
  import opened Wrappers

  /** The largest page a search may ask for. */
  const MaxLimit := 1000

  /** The limit LimitSearch leaves on a search. */
  function ClampLimit(limit: int): (r: int)
    ensures 0 <= r <= MaxLimit
    ensures 0 <= limit <= MaxLimit ==> r == limit
    ensures limit < 0 || limit > MaxLimit ==> r == MaxLimit
  {
    if limit < 0 || limit > MaxLimit then MaxLimit else limit
  }

  /** Clamping twice is clamping once. */
  lemma ClampLimitIdempotent(limit: int)
    ensures ClampLimit(ClampLimit(limit)) == ClampLimit(limit)
  {
  }

  /** The fields of a search, as one value (used to say what an update leaves alone). */
  datatype SearchFields = SearchFields(
    ids: seq<int>, limit: int, skip: int, typeLike: Option<string>,
    entityIds1: seq<int>, entityIds2: seq<int>)

  /**
   * EntitySearchBase merged with its entity and relation refinements: Ids, Limit, Skip and
   * TypeLike, plus the EntityIds1 / EntityIds2 endpoint filters of a relation search.
   * A negative limit or skip means "none".
   */
  class EntitySearch {
    var ids: seq<int>
    var limit: int
    var skip: int
    var typeLike: Option<string>
    var entityIds1: seq<int>
    var entityIds2: seq<int>

    /** A fresh search: no filters, no paging, a null type pattern. */
    constructor ()
      ensures Fields() == SearchFields([], -1, -1, None, [], [])
    {
      ids, limit, skip, typeLike, entityIds1, entityIds2 := [], -1, -1, None, [], [];
    }

    function Fields(): SearchFields
      reads this
    {
      SearchFields(ids, limit, skip, typeLike, entityIds1, entityIds2)
    }
  }

  /**
   * LimitSearch: an absent or oversized limit becomes MaxLimit; the same search object is
   * returned and nothing but its limit changes.
   */
  method LimitSearch(search: EntitySearch) returns (r: EntitySearch)
    modifies search
    ensures r == search
    ensures search.limit == ClampLimit(old(search.limit))
    ensures 0 <= search.limit <= MaxLimit
    ensures search.Fields() == old(search.Fields()).(limit := search.limit)
  {
    if search.limit < 0 || search.limit > MaxLimit {
      search.limit := MaxLimit;
    }
    r := search;
  }

  /**
   * The provider's ApplyFinal, reduced to its paging: drop `skip` items (when non-negative), then
   * keep at most `limit` (when non-negative). Its fallback ordering is not part of this model.
   */
  function ApplyFinal<T>(ids: seq<T>, skip: int, limit: int): (r: seq<T>)
    ensures var lo := if skip < 0 then 0 else if skip > |ids| then |ids| else skip;
      r <= ids[lo..] && (limit < 0 ==> r == ids[lo..])
      && (limit >= 0 ==> |r| == if limit < |ids| - lo then limit else |ids| - lo)
  {
    var rest := if skip < 0 then ids else if skip > |ids| then [] else ids[skip..];
    if limit < 0 || limit >= |rest| then rest else rest[..limit]
  }
}
