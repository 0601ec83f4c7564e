/**
 * The query building blocks shared by the view sources: joins against the relation and value
 * tables, orphan selection, creator/editor filters, id lookup, the distinct-id finalisation,
 * per-key aggregates and the search pipeline. Queries are sequences; the tables of the store
 * are passed in as sequences.
 */
module ViewSources {
  import opened Wrappers
  import opened Seqs
  import opened Numbers
  import opened EntitySystem
  import Keys
  import Searches

  /** A row of a base query: an entity, optionally joined with one relation and one value. */
  datatype EntityGroup = EntityGroup(entity: Entity, relation: Option<EntityRelation>, value: Option<EntityValue>)

  function Repeat<T>(x: T, n: nat): (r: seq<T>)
    ensures |r| == n
    ensures forall k :: 0 <= k < n ==> r[k] == x
  {
    seq(n, _ => x)
  }

  /**
   * `from l in left join r in right on ... where link(l, r) select l`: every left row, once per
   * right row it links to, in the order of the left rows.
   */
  function JoinLeft<L, R(!new)>(left: seq<L>, right: seq<R>, link: (L, R) -> bool): (out: seq<L>)
    ensures forall i :: 0 <= i < |out| ==> out[i] in left && exists k :: 0 <= k < |right| && link(out[i], right[k])
    ensures forall i, k :: 0 <= i < |left| && 0 <= k < |right| && link(left[i], right[k]) ==> left[i] in out
  {
    if left == [] then []
    else
      var matches := Filter(right, (x: R) => link(left[0], x));
      var rest := JoinLeft(left[1..], right, link);
      var out := Repeat(left[0], |matches|) + rest;
      assert |matches| > 0 ==> matches[0] in right && link(left[0], matches[0]);
      assert forall i, k :: 0 <= i < |left| && 0 <= k < |right| && link(left[i], right[k]) ==> left[i] in out by {
        forall i, k | 0 <= i < |left| && 0 <= k < |right| && link(left[i], right[k]) ensures left[i] in out {
          if i == 0 {
            assert right[k] in matches;
            assert out[0] == left[0];
          } else {
            assert left[1..][i - 1] == left[i];
          }
        }
      }
      out
  }

  // ---------------------------------------------------------------- parents and orphans

  /** r makes `child` a child of one of `parents`. */
  predicate ParentLink(r: EntityRelation, child: int, parents: seq<int>)
  {
    r.kind == Keys.ParentRelation && r.entityId2 == child && r.entityId1 in parents
  }

  /** Some relation makes `child` a child of one of `parents`. */
  predicate IsChildOf(relations: seq<EntityRelation>, child: int, parents: seq<int>)
  {
    exists k :: 0 <= k < |relations| && ParentLink(relations[k], child, parents)
  }

  /** Some parent relation points at `child`. */
  predicate HasParent(relations: seq<EntityRelation>, child: int)
  {
    exists k :: 0 <= k < |relations| && relations[k].kind == Keys.ParentRelation && relations[k].entityId2 == child
  }

  /** LimitByParents: the rows that are the target of a parent relation from a listed parent. */
  function LimitByParents(query: seq<EntityGroup>, relations: seq<EntityRelation>, parentIds: seq<int>): (r: seq<EntityGroup>)
    ensures forall i :: 0 <= i < |r| ==> r[i] in query && IsChildOf(relations, r[i].entity.id, parentIds)
    ensures forall i :: 0 <= i < |query| && IsChildOf(relations, query[i].entity.id, parentIds) ==> query[i] in r
  {
    JoinLeft(query, relations, (q: EntityGroup, x: EntityRelation) =>
      q.entity.id == x.entityId2 && x.kind == Keys.ParentRelation && x.entityId1 in parentIds)
  }

  /** GetOrphans: the rows whose entity is not among the targets of any parent relation. */
  function GetOrphans(query: seq<EntityGroup>, relations: seq<EntityRelation>): (r: seq<EntityGroup>)
    ensures forall x :: x in r ==> x in query && !HasParent(relations, x.entity.id)
    ensures forall x :: x in query && !HasParent(relations, x.entity.id) ==> x in r
  {
    var children := Map(Filter(relations, (x: EntityRelation) => x.kind == Keys.ParentRelation),
                        (x: EntityRelation) => x.entityId2);
    var r := Filter(query, (q: EntityGroup) => q.entity.id !in children);
    assert forall id :: id in children <==> HasParent(relations, id) by {
      forall id ensures id in children <==> HasParent(relations, id) {
        var parentRels := Filter(relations, (x: EntityRelation) => x.kind == Keys.ParentRelation);
        if id in children {
          var j :| 0 <= j < |children| && children[j] == id;
          assert parentRels[j] in relations;
        }
        if HasParent(relations, id) {
          var k :| 0 <= k < |relations| && relations[k].kind == Keys.ParentRelation && relations[k].entityId2 == id;
          assert relations[k] in parentRels;
          var j :| 0 <= j < |parentRels| && parentRels[j] == relations[k];
          assert children[j] == id;
        }
      }
    }
    r
  }

  /** No row is both an orphan and the child of a listed parent. */
  lemma OrphansAreNoChildren(query: seq<EntityGroup>, other: seq<EntityGroup>, relations: seq<EntityRelation>, parentIds: seq<int>)
    ensures forall x :: x in GetOrphans(query, relations) ==> x !in LimitByParents(other, relations, parentIds)
  {
  }

  // ---------------------------------------------------------------- values, creators, ids

  /** v is a value of `entityId` whose key and value match the patterns. */
  predicate ValueMatch(v: EntityValue, entityId: int, keyLike: string, valueLike: string)
  {
    v.entityId == entityId && Like(v.key, keyLike) && Like(v.value, valueLike)
  }

  /** LimitByValue: the rows having a value whose key and value match the LIKE patterns. */
  function LimitByValue(query: seq<EntityGroup>, values: seq<EntityValue>, keyLike: string, valueLike: string): (r: seq<EntityGroup>)
    ensures forall i :: 0 <= i < |r| ==>
      r[i] in query && exists k :: 0 <= k < |values| && ValueMatch(values[k], r[i].entity.id, keyLike, valueLike)
    ensures forall i, k ::
      (0 <= i < |query| && 0 <= k < |values| && ValueMatch(values[k], query[i].entity.id, keyLike, valueLike))
      ==> query[i] in r
  {
    JoinLeft(query, values, (q: EntityGroup, v: EntityValue) => ValueMatch(v, q.entity.id, keyLike, valueLike))
  }

  /**
   * r is a creator relation of `entityId` that passes both lists: its entityId1 is a listed
   * creator and its value is the decimal text of a listed editor, each test skipped when its
   * list is empty.
   */
  predicate CreatorMatch(r: EntityRelation, entityId: int, creators: seq<int>, editors: seq<int>)
  {
    && r.entityId2 == entityId && r.kind == Keys.CreatorRelation
    && (|creators| == 0 || r.entityId1 in creators)
    && (|editors| == 0 || exists e :: 0 <= e < |editors| && LongToString(editors[e]) == r.value)
  }

  /** LimitByCreateEdit: nothing to do for two empty lists, otherwise a join on CreatorMatch. */
  function LimitByCreateEdit(query: seq<EntityGroup>, relations: seq<EntityRelation>, creators: seq<int>, editors: seq<int>): (r: seq<EntityGroup>)
    ensures |creators| == 0 && |editors| == 0 ==> r == query
    ensures |creators| > 0 || |editors| > 0 ==>
      (forall i :: 0 <= i < |r| ==>
         r[i] in query && exists k :: 0 <= k < |relations| && CreatorMatch(relations[k], r[i].entity.id, creators, editors))
      && (forall i, k ::
         (0 <= i < |query| && 0 <= k < |relations| && CreatorMatch(relations[k], query[i].entity.id, creators, editors))
         ==> query[i] in r)
  {
    if |creators| == 0 && |editors| == 0 then query
    else
      var editorStrings := Map(editors, LongToString);
      assert forall s :: s in editorStrings <==> exists e :: 0 <= e < |editors| && LongToString(editors[e]) == s;
      JoinLeft(query, relations, (q: EntityGroup, x: EntityRelation) =>
        q.entity.id == x.entityId2 && x.kind == Keys.CreatorRelation
        && (|creators| == 0 || x.entityId1 in creators)
        && (|editors| == 0 || x.value in editorStrings))
  }

  /** GetByIds: the records of a table whose id is listed (once per listing). */
  function GetByIds<X>(table: seq<X>, idOf: X -> int, ids: seq<int>): (r: seq<X>)
    ensures forall i :: 0 <= i < |r| ==> r[i] in table && idOf(r[i]) in ids
    ensures forall i :: 0 <= i < |table| && idOf(table[i]) in ids ==> table[i] in r
  {
    JoinLeft(table, ids, (e: X, i: int) => idOf(e) == i)
  }

  // ---------------------------------------------------------------- finalisation

  /** FinalizeQuery: `GroupBy(MainIdSelector).Select(key)`, every main id once. */
  function FinalizeQuery(query: seq<EntityGroup>, mainId: EntityGroup -> int): (ids: seq<int>)
    ensures NoDuplicates(ids)
    ensures forall i :: 0 <= i < |ids| ==> exists k :: 0 <= k < |query| && mainId(query[k]) == ids[i]
    ensures forall k :: 0 <= k < |query| ==> mainId(query[k]) in ids
  {
    var all := Map(query, mainId);
    var ids := Distinct(all);
    assert forall i :: 0 <= i < |ids| ==> exists k :: 0 <= k < |query| && mainId(query[k]) == ids[i] by {
      forall i | 0 <= i < |ids| ensures exists k :: 0 <= k < |query| && mainId(query[k]) == ids[i] {
        var k :| 0 <= k < |all| && all[k] == ids[i];
      }
    }
    ids
  }

  /** Paging a duplicate-free list keeps it duplicate-free and draws only from it. */
  lemma {:induction false} ApplyFinalSublist(ids: seq<int>, skip: int, limit: int)
    requires NoDuplicates(ids)
    ensures NoDuplicates(Searches.ApplyFinal(ids, skip, limit))
    ensures forall x :: x in Searches.ApplyFinal(ids, skip, limit) ==> x in ids
  {
    var r := Searches.ApplyFinal(ids, skip, limit);
    var lo := if skip < 0 then 0 else if skip > |ids| then |ids| else skip;
    assert forall i :: 0 <= i < |r| ==> r[i] == ids[lo + i];
  }

  /**
   * The newer view source's FinalizeQuery: the distinct main ids, paged by the search. The
   * result holds no id twice and at most `limit` ids.
   */
  function FinalizePaged(query: seq<EntityGroup>, mainId: EntityGroup -> int, skip: int, limit: int): (ids: seq<int>)
    ensures NoDuplicates(ids)
    ensures forall i :: 0 <= i < |ids| ==> exists k :: 0 <= k < |query| && mainId(query[k]) == ids[i]
    ensures limit >= 0 ==> |ids| <= limit
  {
    var all := FinalizeQuery(query, mainId);
    ApplyFinalSublist(all, skip, limit);
    Searches.ApplyFinal(all, skip, limit)
  }

  /**
   * SearchIds: the base query, then the source's ModifySearch, then the caller's optional
   * modifier, then the source's FinalizeQuery (`finalize`, which a source may override), then
   * paging. The ids are drawn from the finalised ones, at most `limit` of them, and stay
   * distinct when the finalised ones are.
   */
  function SearchIds(baseQuery: seq<EntityGroup>, modifySearch: seq<EntityGroup> -> seq<EntityGroup>,
                     extra: Option<seq<EntityGroup> -> seq<EntityGroup>>, finalize: seq<EntityGroup> -> seq<int>,
                     skip: int, limit: int): (ids: seq<int>)
    ensures var q := modifySearch(baseQuery);
      var q' := if extra.Some? then extra.value(q) else q;
      && (forall x :: x in ids ==> x in finalize(q'))
      && (NoDuplicates(finalize(q')) ==> NoDuplicates(ids))
      && (skip <= 0 && limit < 0 ==> ids == finalize(q'))
    ensures limit >= 0 ==> |ids| <= limit
  {
    var query := modifySearch(baseQuery);
    var query := match extra case Some(m) => m(query) case None => query;
    var all := finalize(query);
    var ids := Searches.ApplyFinal(all, skip, limit);
    var lo := if skip < 0 then 0 else if skip > |all| then |all| else skip;
    assert forall i :: 0 <= i < |ids| ==> ids[i] == all[lo + i];
    if NoDuplicates(all) then
      ApplyFinalSublist(all, skip, limit);
      ids
    else ids
  }

  /** With the base FinalizeQuery, SearchIds pages the distinct main ids of the modified query. */
  lemma SearchIdsWithBaseFinalize(baseQuery: seq<EntityGroup>, modifySearch: seq<EntityGroup> -> seq<EntityGroup>,
                                  extra: Option<seq<EntityGroup> -> seq<EntityGroup>>, mainId: EntityGroup -> int,
                                  skip: int, limit: int)
    ensures var q := modifySearch(baseQuery);
      var q' := if extra.Some? then extra.value(q) else q;
      var ids := SearchIds(baseQuery, modifySearch, extra, (g: seq<EntityGroup>) => FinalizeQuery(g, mainId), skip, limit);
      && ids == FinalizePaged(q', mainId, skip, limit)
      && NoDuplicates(ids)
      && forall i :: 0 <= i < |ids| ==> exists k :: 0 <= k < |q'| && mainId(q'[k]) == ids[i]
  {
  }

  // ---------------------------------------------------------------- aggregates

  /** SimpleAggregateData: how many records a key has, their newest id and their date range. */
  datatype SimpleAggregateData = SimpleAggregateData(count: nat, lastDate: Option<int>, firstDate: Option<int>, lastId: int)

  function MaxOf(s: seq<int>): (m: int)
    requires |s| > 0
    ensures m in s && forall i :: 0 <= i < |s| ==> s[i] <= m
  {
    if |s| == 1 then s[0]
    else var m := MaxOf(s[1..]); if s[0] >= m then s[0] else m
  }

  /** SQL MAX over a nullable column: nulls are ignored; null when every entry is null. */
  function MaxDate(s: seq<Option<int>>): (m: Option<int>)
    ensures m.None? <==> forall i :: 0 <= i < |s| ==> s[i].None?
    ensures m.Some? ==> m in s && forall i :: 0 <= i < |s| && s[i].Some? ==> s[i].value <= m.value
  {
    if s == [] then None
    else
      var m := MaxDate(s[1..]);
      assert forall i :: 1 <= i < |s| ==> s[i] == s[1..][i - 1];
      if s[0].None? then m
      else if m.None? || s[0].value >= m.value then s[0]
      else m
  }

  /** SQL MIN over a nullable column. */
  function MinDate(s: seq<Option<int>>): (m: Option<int>)
    ensures m.None? <==> forall i :: 0 <= i < |s| ==> s[i].None?
    ensures m.Some? ==> m in s && forall i :: 0 <= i < |s| && s[i].Some? ==> m.value <= s[i].value
  {
    if s == [] then None
    else
      var m := MinDate(s[1..]);
      assert forall i :: 1 <= i < |s| ==> s[i] == s[1..][i - 1];
      if s[0].None? then m
      else if m.None? || s[0].value <= m.value then s[0]
      else m
  }

  /** The aggregate of one non-empty group of records. */
  function Aggregate<R>(group: seq<R>, idOf: R -> int, dateOf: R -> Option<int>): (a: SimpleAggregateData)
    requires |group| > 0
    ensures a.count == |group|
    ensures (exists i :: 0 <= i < |group| && idOf(group[i]) == a.lastId)
      && forall i :: 0 <= i < |group| ==> idOf(group[i]) <= a.lastId
    ensures a.lastDate.None? <==> a.firstDate.None?
    ensures a.lastDate.Some? ==> a.firstDate.value <= a.lastDate.value
    ensures forall i :: 0 <= i < |group| && dateOf(group[i]).Some? ==>
      a.firstDate.Some? && a.lastDate.Some? && a.firstDate.value <= dateOf(group[i]).value <= a.lastDate.value
  {
    var ids := Map(group, idOf);
    var dates := Map(group, dateOf);
    var a := SimpleAggregateData(|group|, MaxDate(dates), MinDate(dates), MaxOf(ids));
    assert a.lastId in ids;
    assert a.lastDate.Some? ==> exists j :: 0 <= j < |dates| && dates[j] == a.lastDate;
    a
  }

  /** The records of `table` whose id is listed, once per listing: `ids.Join(table, x => x, r => r.id)`. */
  function JoinIds<R(!new)>(ids: seq<int>, table: seq<R>, idOf: R -> int): (rows: seq<R>)
    ensures forall x :: x in rows ==> x in table && idOf(x) in ids
    ensures forall x :: x in table && idOf(x) in ids ==> x in rows
    ensures UniqueIds(table, idOf) ==> |rows| <= |ids|
  {
    if ids == [] then []
    else
      var p := (x: R) => idOf(x) == ids[0];
      var here := Filter(table, p);
      var rest := JoinIds(ids[1..], table, idOf);
      assert ids == [ids[0]] + ids[1..];
      if UniqueIds(table, idOf) then
        FilterAtMostOne(table, idOf, ids[0], p);
        here + rest
      else here + rest
  }

  /** No two rows of the table share an id. */
  predicate UniqueIds<R>(table: seq<R>, idOf: R -> int)
  {
    forall a, b :: 0 <= a < b < |table| ==> idOf(table[a]) != idOf(table[b])
  }

  /** In a table with unique ids, a filter that only accepts one id keeps at most one row. */
  lemma {:induction false} FilterAtMostOne<R(!new)>(table: seq<R>, idOf: R -> int, c: int, p: R -> bool)
    requires UniqueIds(table, idOf)
    requires forall x :: p(x) ==> idOf(x) == c
    ensures |Filter(table, p)| <= 1
  {
    if table != [] {
      var tail := table[1..];
      assert UniqueIds(tail, idOf) by {
        forall a, b | 0 <= a < b < |tail| ensures idOf(tail[a]) != idOf(tail[b]) {
          assert tail[a] == table[a + 1] && tail[b] == table[b + 1];
        }
      }
      FilterAtMostOne(tail, idOf, c, p);
      if p(table[0]) && |Filter(tail, p)| > 0 {
        FirstIn(Filter(tail, p));
        assert false;
      }
    }
  }

  /** Filtering keeps the ids of a table unique. */
  lemma {:induction false} FilterKeepsUniqueIds<R(!new)>(table: seq<R>, idOf: R -> int, p: R -> bool)
    requires UniqueIds(table, idOf)
    ensures UniqueIds(Filter(table, p), idOf)
  {
    if table != [] {
      var tail := table[1..];
      assert UniqueIds(tail, idOf) by {
        forall a, b | 0 <= a < b < |tail| ensures idOf(tail[a]) != idOf(tail[b]) {
          assert tail[a] == table[a + 1] && tail[b] == table[b + 1];
        }
      }
      FilterKeepsUniqueIds(tail, idOf, p);
      var rest := Filter(tail, p);
      if p(table[0]) {
        var r := [table[0]] + rest;
        assert Filter(table, p) == r;
        forall a, b | 0 <= a < b < |r| ensures idOf(r[a]) != idOf(r[b]) {
          if a == 0 {
            assert r[b] == rest[b - 1] && r[b] in tail;
            var k :| 0 <= k < |tail| && tail[k] == r[b];
            assert table[k + 1] == r[b];
          } else {
            assert r[a] == rest[a - 1] && r[b] == rest[b - 1];
          }
        }
      } else {
        assert Filter(table, p) == rest;
      }
    }
  }

  /**
   * GroupAsync: the records named by `ids`, grouped by key, with one aggregate per key. Its
   * keys are exactly the keys of those records, and each aggregate summarises its group.
   */
  function GroupAsync<R(!new), X(==,!new)>(ids: seq<int>, table: seq<R>, idOf: R -> int, dateOf: R -> Option<int>, keyOf: R -> X): (m: map<X, SimpleAggregateData>)
    ensures forall k :: k in m <==> exists x :: x in JoinIds(ids, table, idOf) && keyOf(x) == k
    ensures forall k :: k in m ==>
      var group := Filter(JoinIds(ids, table, idOf), (x: R) => keyOf(x) == k);
      |group| > 0 && m[k] == Aggregate(group, idOf, dateOf) && m[k].count == |group|
  {
    var rows := JoinIds(ids, table, idOf);
    var keys := set i | 0 <= i < |rows| :: keyOf(rows[i]);
    assert forall k :: k in keys ==> |Filter(rows, (x: R) => keyOf(x) == k)| > 0 by {
      forall k | k in keys ensures |Filter(rows, (x: R) => keyOf(x) == k)| > 0 {
        var i :| 0 <= i < |rows| && keyOf(rows[i]) == k;
        assert rows[i] in Filter(rows, (x: R) => keyOf(x) == k);
      }
    }
    assert forall x :: x in rows ==> keyOf(x) in keys;
    map k | k in keys :: Aggregate(Filter(rows, (x: R) => keyOf(x) == k), idOf, dateOf)
  }
}
