/**
 * The activity view service: activity records are relations from a user to a content whose id
 * is stored negated; searches over them always carry the activity type prefix, never show file
 * activity, and recent comments are summarised once per content.
 */
module ActivityViewService {
  import opened Wrappers
  import opened Seqs
  import opened Numbers
  import opened EntitySystem
  import Keys
  import Searches
  import ViewSources

  /** ActivitySearch: the base search fields plus users, contents, a type and a comment window. */
  datatype ActivitySearch = ActivitySearch(
    ids: seq<int>, limit: int, skip: int,
    userIds: seq<int>, contentIds: seq<int>, kind: Option<string>,
    includeAnonymous: bool, recentCommentTime: int)

  /** A fresh ActivitySearch, as `new ActivitySearch()` leaves it. */
  const NewActivitySearch := ActivitySearch([], -1, -1, [], [], None, false, 0)

  /** ActivityView: one activity record as the client sees it. */
  datatype ActivityView = ActivityView(id: int, date: Option<int>, userId: int, contentId: int, contentType: string)

  /** The mapping profile: the date, the user from entityId1 and the content from `-entityId2`. */
  function ConvertToView(x: EntityRelation, contentType: string): (v: ActivityView)
    ensures v.id == x.id && v.date == x.createDate && v.userId == x.entityId1
    ensures v.contentId == NegateLong(x.entityId2) && v.contentType == contentType
  {
    ActivityView(x.id, x.createDate, x.entityId1, NegateLong(x.entityId2), contentType)
  }

  /** `ContentIds.Select(x => -x)`: every id negated as a `long`. */
  function NegateIds(ids: seq<int>): (r: seq<int>)
    ensures |r| == |ids| && forall i :: 0 <= i < |ids| ==> r[i] == NegateLong(ids[i])
  {
    Map(ids, NegateLong)
  }

  /**
   * Content ids survive the trip into the relation search and back out of the view: a relation
   * whose entityId2 is a negated content id shows that content id again.
   */
  lemma ContentIdRoundTrip(contentIds: seq<int>, x: EntityRelation, contentType: string)
    requires forall i :: 0 <= i < |contentIds| ==> InLong(contentIds[i])
    ensures forall i :: 0 <= i < |contentIds| && x.entityId2 == NegateIds(contentIds)[i] ==>
      ConvertToView(x, contentType).contentId == contentIds[i]
  {
    forall i | 0 <= i < |contentIds| && x.entityId2 == NegateIds(contentIds)[i]
      ensures ConvertToView(x, contentType).contentId == contentIds[i]
    {
      NegateLongTwice(contentIds[i]);
    }
  }

  /** The activity type: the client's type, or "%" when it is blank. */
  function ActivityType(kind: Option<string>): (t: string)
    ensures IsNullOrWhiteSpace(kind) ==> t == "%"
    ensures !IsNullOrWhiteSpace(kind) ==> t == kind.value
  {
    if IsNullOrWhiteSpace(kind) then "%" else kind.value
  }

  /** A type of Unicode spaces only, such as one ideographic space, is blank too. */
  lemma UnicodeSpaceTypeIsBlank()
    ensures ActivityType(Some("\U{3000}")) == "%" && ActivityType(Some("\U{2009}\U{A0}")) == "%"
    ensures ActivityType(Some(" x")) == " x"
  {
    assert " x"[1] == 'x' && !IsWhiteSpace(" x"[1]);
  }

  /** The type of file activity, which the activity search never shows. */
  const FileActivity := Keys.ActivityKey + Keys.FileType

  /**
   * ModifySearch: LimitSearch, then the type pattern is set to the activity key alone. The same
   * search object is returned.
   */
  method ModifySearch(search: Searches.EntitySearch) returns (r: Searches.EntitySearch)
    modifies search
    ensures r == search
    ensures search.Fields() == old(search.Fields()).(limit := Searches.ClampLimit(old(search.limit)),
                                                     typeLike := Some(Keys.ActivityKey))
  {
    r := Searches.LimitSearch(search);
    r.typeLike := Some(Keys.ActivityKey);
  }

  /**
   * The relation search SearchAsync hands to the read query: ids and paging copied, users as
   * EntityIds1, contents negated as EntityIds2, the limit clamped and the type pattern the
   * activity key followed by the activity type.
   */
  function ActivityRelationSearch(s: ActivitySearch): (f: Searches.SearchFields)
    ensures f.ids == s.ids && f.skip == s.skip && f.entityIds1 == s.userIds
    ensures 0 <= f.limit <= Searches.MaxLimit && f.limit == Searches.ClampLimit(s.limit)
    ensures f.typeLike.Some? && Keys.ActivityKey <= f.typeLike.value
    ensures IsNullOrWhiteSpace(s.kind) ==> forall t :: Like(Keys.ActivityKey + t, f.typeLike.value)
    ensures !IsNullOrWhiteSpace(s.kind) ==> f.typeLike == Some(Keys.ActivityKey + s.kind.value)
    ensures |f.entityIds2| == |s.contentIds|
    ensures forall i :: 0 <= i < |s.contentIds| && InLong(s.contentIds[i]) ==>
      NegateLong(f.entityIds2[i]) == s.contentIds[i]
  {
    var f := Searches.SearchFields(s.ids, Searches.ClampLimit(s.limit), s.skip,
      Some(Keys.ActivityKey + ActivityType(s.kind)), s.userIds, NegateIds(s.contentIds));
    assert IsNullOrWhiteSpace(s.kind) ==> forall t :: Like(Keys.ActivityKey + t, f.typeLike.value) by {
      assert NoWildcards(Keys.ActivityKey) by {
        assert Keys.ActivityKey == ['.'];
      }
      forall t ensures Like(Keys.ActivityKey + t, Keys.ActivityKey + "%") {
        LikePrefix(Keys.ActivityKey + t, Keys.ActivityKey);
      }
    }
    assert forall i :: 0 <= i < |s.contentIds| && InLong(s.contentIds[i]) ==>
      NegateLong(f.entityIds2[i]) == s.contentIds[i] by {
      forall i | 0 <= i < |s.contentIds| && InLong(s.contentIds[i])
        ensures NegateLong(f.entityIds2[i]) == s.contentIds[i]
      {
        NegateLongTwice(s.contentIds[i]);
      }
    }
    f
  }

  /**
   * The ids of the finalised relation query: the distinct ids of the non-file relations,
   * paged. They hold no id twice, at most `limit` of them, each the id of a shown relation, and
   * with no paging every shown relation's id.
   */
  function PagedActivityIds(query: seq<EntityRelation>, skip: int, limit: int): (ids: seq<int>)
    ensures NoDuplicates(ids)
    ensures limit >= 0 ==> |ids| <= limit
    ensures forall i :: 0 <= i < |ids| ==> exists x :: x in query && x.kind != FileActivity && x.id == ids[i]
    ensures skip <= 0 && limit < 0 ==> forall x :: x in query && x.kind != FileActivity ==> x.id in ids
  {
    var all := Distinct(ShownIds(query));
    ViewSources.ApplyFinalSublist(all, skip, limit);
    var ids := Searches.ApplyFinal(all, skip, limit);
    assert forall i :: 0 <= i < |ids| ==> ids[i] in ShownIds(query);
    ids
  }

  /** The ids of the relations that are not file activity, in query order. */
  function ShownIds(query: seq<EntityRelation>): (ids: seq<int>)
    ensures forall id :: id in ids <==> exists x :: x in query && x.kind != FileActivity && x.id == id
  {
    var shown := Filter(query, (x: EntityRelation) => x.kind != FileActivity);
    var ids := Map(shown, (x: EntityRelation) => x.id);
    assert forall id :: id in ids ==> exists x :: x in query && x.kind != FileActivity && x.id == id by {
      forall id | id in ids ensures exists x :: x in query && x.kind != FileActivity && x.id == id {
        var k :| 0 <= k < |shown| && ids[k] == id;
        assert shown[k] in shown;
      }
    }
    assert forall x :: x in query && x.kind != FileActivity ==> x.id in ids by {
      forall x | x in query && x.kind != FileActivity ensures x.id in ids {
        assert x in shown;
        var k :| 0 <= k < |shown| && shown[k] == x;
        assert ids[k] == x.id;
      }
    }
    ids
  }

  /**
   * The rows of the finalised relation query: every non-file relation whose id is on the page,
   * and no other; with relation ids unique in the query, no more than `limit` rows.
   */
  function ActivityRows(query: seq<EntityRelation>, skip: int, limit: int): (rows: seq<EntityRelation>)
    ensures forall x :: x in rows <==> x in query && x.kind != FileActivity && x.id in PagedActivityIds(query, skip, limit)
    ensures ViewSources.UniqueIds(query, (x: EntityRelation) => x.id) && limit >= 0 ==> |rows| <= limit
  {
    var shown := Filter(query, (x: EntityRelation) => x.kind != FileActivity);
    var ids := PagedActivityIds(query, skip, limit);
    if ViewSources.UniqueIds(query, (x: EntityRelation) => x.id) then
      ViewSources.FilterKeepsUniqueIds(query, (x: EntityRelation) => x.id, (x: EntityRelation) => x.kind != FileActivity);
      ViewSources.JoinIds(ids, shown, (x: EntityRelation) => x.id)
    else
      ViewSources.JoinIds(ids, shown, (x: EntityRelation) => x.id)
  }

  /**
   * The projection: every row's view with its content type past the content-type prefix. It
   * throws (ArgumentOutOfRange) when some content type is shorter than the prefix.
   */
  function StripContentTypes(rows: seq<EntityRelation>, contentTypeOf: EntityRelation -> string): (r: Result<seq<ActivityView>>)
    ensures r.Success? <==> forall x :: x in rows ==> |Keys.ContentType| <= |contentTypeOf(x)|
    ensures r.Failure? ==> r.error == ArgumentOutOfRange
    ensures r.Success? ==> |r.value| == |rows| && forall i :: 0 <= i < |rows| ==>
      r.value[i] == ConvertToView(rows[i], r.value[i].contentType)
      && contentTypeOf(rows[i]) == contentTypeOf(rows[i])[..|Keys.ContentType|] + r.value[i].contentType
  {
    if rows == [] then Success([])
    else
      match Substring(contentTypeOf(rows[0]), |Keys.ContentType|)
      case Failure(e) => Failure(e)
      case Success(t) =>
        match StripContentTypes(rows[1..], contentTypeOf)
        case Failure(e) =>
          assert forall x :: x in rows[1..] ==> x in rows;
          Failure(e)
        case Success(vs) =>
          assert forall x :: x in rows ==> x == rows[0] || x in rows[1..];
          Success([ConvertToView(rows[0], t)] + vs)
  }

  /** SearchAsync's result for the rows the read query returned. */
  function ActivityResults(query: seq<EntityRelation>, skip: int, limit: int, contentTypeOf: EntityRelation -> string): (r: Result<seq<ActivityView>>)
  {
    StripContentTypes(ActivityRows(query, skip, limit), contentTypeOf)
  }

  /** No activity SearchAsync returns is file activity, and each comes from a row of the query. */
  lemma FileActivityExcluded(query: seq<EntityRelation>, skip: int, limit: int, contentTypeOf: EntityRelation -> string)
    ensures var r := ActivityResults(query, skip, limit, contentTypeOf);
      r.Success? ==> forall i :: 0 <= i < |r.value| ==>
        exists x :: x in query && x.kind != FileActivity && r.value[i] == ConvertToView(x, r.value[i].contentType)
  {
    var rows := ActivityRows(query, skip, limit);
    var r := ActivityResults(query, skip, limit, contentTypeOf);
    if r.Success? {
      forall i | 0 <= i < |r.value|
        ensures exists x :: x in query && x.kind != FileActivity && r.value[i] == ConvertToView(x, r.value[i].contentType)
      {
        assert rows[i] in rows;
      }
    }
  }

  /**
   * The first half of SearchAsync: the mapped relation search and ModifySearch; then a blank type
   * on the caller's search becomes "%" and that type is appended to the type pattern.
   */
  method PrepareSearch(search: ActivitySearch) returns (relationSearch: Searches.SearchFields, updated: ActivitySearch)
    ensures relationSearch == ActivityRelationSearch(search)
    ensures IsNullOrWhiteSpace(search.kind) ==> updated == search.(kind := Some("%"))
    ensures !IsNullOrWhiteSpace(search.kind) ==> updated == search
    ensures updated.kind.Some? && relationSearch.typeLike == Some(Keys.ActivityKey + updated.kind.value)
  {
    var rs := new Searches.EntitySearch();
    rs.ids, rs.limit, rs.skip := search.ids, search.limit, search.skip;
    rs.entityIds1, rs.entityIds2 := search.userIds, NegateIds(search.contentIds);
    rs := ModifySearch(rs);
    updated := search;
    if IsNullOrWhiteSpace(search.kind) {
      updated := search.(kind := Some("%"));
    }
    rs.typeLike := Some(Concat(rs.typeLike, updated.kind.value));
    relationSearch := rs.Fields();
  }

  /**
   * SearchAsync: PrepareSearch, then the read query (`read`, standing for the permission-checked
   * query of the relation search) and the projection.
   */
  method SearchAsync(search: ActivitySearch, read: Searches.SearchFields -> seq<EntityRelation>,
                     contentTypeOf: EntityRelation -> string)
    returns (r: Result<seq<ActivityView>>, relationSearch: Searches.SearchFields, updated: ActivitySearch)
    ensures relationSearch == ActivityRelationSearch(search)
    ensures r == ActivityResults(read(relationSearch), relationSearch.skip, relationSearch.limit, contentTypeOf)
    ensures IsNullOrWhiteSpace(search.kind) ==> updated == search.(kind := Some("%"))
    ensures !IsNullOrWhiteSpace(search.kind) ==> updated == search
    ensures updated.kind.Some? && relationSearch.typeLike == Some(Keys.ActivityKey + updated.kind.value)
  {
    relationSearch, updated := PrepareSearch(search);
    var query := read(relationSearch);
    r := ActivityResults(query, relationSearch.skip, relationSearch.limit, contentTypeOf);
  }

  /** FindByIdAsync: a search for that one id; none, the single activity, or a fault for several. */
  method FindByIdAsync(id: int, read: Searches.SearchFields -> seq<EntityRelation>, contentTypeOf: EntityRelation -> string)
    returns (r: Result<Option<ActivityView>>)
    ensures var all := ActivityResults(read(ActivityRelationSearch(NewActivitySearch.(ids := [id]))),
                                      -1, Searches.MaxLimit, contentTypeOf);
      r == (if all.Failure? then Failure(all.error) else OnlySingle(all.value))
  {
    var found, _, _ := SearchAsync(NewActivitySearch.(ids := [id]), read, contentTypeOf);
    if found.Failure? {
      return Failure(found.error);
    }
    r := OnlySingle(found.value);
  }

  // ---------------------------------------------------------------- recent comments

  /** The projection of one comment: its content (entityId1), its user (`-entityId2`) and date. */
  datatype CommentRow = CommentRow(contentId: int, userId: int, date: Option<int>)

  function CommentRowOf(x: EntityRelation): CommentRow
  {
    CommentRow(x.entityId1, NegateLong(x.entityId2), x.createDate)
  }

  /** CommentActivityView: how many recent comments a content has, by whom, and the latest date. */
  datatype CommentActivityView = CommentActivityView(count: nat, parentId: int, userIds: seq<int>, lastDate: int)

  /** The comments on one content, in order. */
  function GroupOf(rows: seq<CommentRow>, key: int): (g: seq<CommentRow>)
    ensures forall c :: c in g <==> c in rows && c.contentId == key
  {
    Filter(rows, (c: CommentRow) => c.contentId == key)
  }

  /**
   * `Max(x => (DateTime)x.date)` over a non-empty group: the cast of a null date throws
   * InvalidOperationException; otherwise the latest date.
   */
  function LatestDate(dates: seq<Option<int>>): (r: Result<int>)
    ensures r.Success? <==> |dates| > 0 && forall i :: 0 <= i < |dates| ==> dates[i].Some?
    ensures r.Success? ==>
      && (exists i :: 0 <= i < |dates| && dates[i] == Some(r.value))
      && (forall i :: 0 <= i < |dates| ==> dates[i].value <= r.value)
    ensures r.Failure? ==> r.error.InvalidOperation?
  {
    if dates == [] then Failure(InvalidOperation("Sequence contains no elements"))
    else if dates[0].None? then Failure(InvalidOperation("Nullable object must have a value."))
    else if |dates| == 1 then Success(dates[0].value)
    else
      var rest := LatestDate(dates[1..]);
      assert forall i :: 1 <= i < |dates| ==> dates[i] == dates[1..][i - 1];
      if rest.Failure? then rest
      else if dates[0].value >= rest.value then Success(dates[0].value)
      else rest
  }

  /**
   * The summary of one content's comments: their count, the content id, every commenting user
   * once, and the latest date; the cast of a missing date throws.
   */
  function SummaryOf(rows: seq<CommentRow>, key: int): (r: Result<CommentActivityView>)
    ensures r.Failure? ==> r.error.InvalidOperation?
  {
    var g := GroupOf(rows, key);
    match LatestDate(Map(g, (c: CommentRow) => c.date))
    case Failure(e) => Failure(e)
    case Success(d) => Success(CommentActivityView(|g|, key, Distinct(Map(g, (c: CommentRow) => c.userId)), d))
  }

  /**
   * A summary fails exactly when some comment of the content has no date; otherwise it counts
   * the content's comments, names each commenting user once and carries the latest date.
   */
  lemma SummaryExactly(rows: seq<CommentRow>, key: int)
    requires |GroupOf(rows, key)| > 0
    ensures var g := GroupOf(rows, key);
      SummaryOf(rows, key).Success? <==> forall c :: c in g ==> c.date.Some?
    ensures var g := GroupOf(rows, key); var r := SummaryOf(rows, key);
      r.Success? ==>
        && r.value.count == |g| > 0 && r.value.parentId == key
        && NoDuplicates(r.value.userIds)
        && (forall u :: u in r.value.userIds <==> exists c :: c in g && c.userId == u)
        && (exists c :: c in g && c.date == Some(r.value.lastDate))
        && (forall c :: c in g ==> c.date.value <= r.value.lastDate)
  {
    var g := GroupOf(rows, key);
    var dates := Map(g, (c: CommentRow) => c.date);
    var users := Map(g, (c: CommentRow) => c.userId);
    assert forall c :: c in g ==> exists i :: 0 <= i < |g| && g[i] == c;
    var r := SummaryOf(rows, key);
    if r.Success? {
      var j :| 0 <= j < |dates| && dates[j] == Some(r.value.lastDate);
      assert g[j] in g;
      assert forall u :: u in r.value.userIds <==> u in users;
    }
  }

  /** The summaries of the listed contents, in order; the first failing one makes it fail. */
  function Summaries(rows: seq<CommentRow>, keys: seq<int>): (r: Result<seq<CommentActivityView>>)
    ensures r.Success? <==> forall i :: 0 <= i < |keys| ==> SummaryOf(rows, keys[i]).Success?
    ensures r.Success? ==> |r.value| == |keys| && forall i :: 0 <= i < |keys| ==> SummaryOf(rows, keys[i]) == Success(r.value[i])
  {
    Collect(keys, SummaryFn(rows))
  }

  /** The contents commented on, each once, in order of their first comment (`ToLookup`'s order). */
  function CommentKeys(rows: seq<CommentRow>): (keys: seq<int>)
    ensures NoDuplicates(keys)
    ensures forall k :: k in keys <==> exists c :: c in rows && c.contentId == k
    ensures forall i :: 0 <= i < |keys| ==> |GroupOf(rows, keys[i])| > 0
  {
    var all := Map(rows, (c: CommentRow) => c.contentId);
    var keys := Distinct(all);
    assert forall k :: k in keys <==> k in all;
    assert forall k :: k in all <==> exists c :: c in rows && c.contentId == k by {
      forall k ensures k in all <==> exists c :: c in rows && c.contentId == k {
        if k in all {
          var i :| 0 <= i < |all| && all[i] == k;
          assert rows[i] in rows;
        }
      }
    }
    assert forall i :: 0 <= i < |keys| ==> |GroupOf(rows, keys[i])| > 0 by {
      forall i | 0 <= i < |keys| ensures |GroupOf(rows, keys[i])| > 0 {
        var c :| c in rows && c.contentId == keys[i];
        assert c in GroupOf(rows, keys[i]);
      }
    }
    keys
  }

  /**
   * What SearchCommentsAsync returns for the comments the read query found: nothing when the
   * window is not positive; otherwise one summary per commented content.
   */
  function CommentsOf(recentCommentTime: int, comments: seq<EntityRelation>): (r: Result<seq<CommentActivityView>>)
  {
    if recentCommentTime <= 0 then Success([])
    else
      var rows := Map(comments, CommentRowOf);
      Summaries(rows, CommentKeys(rows))
  }

  /** A window that is not positive gives no summaries, whatever the comments. */
  lemma NoCommentsWithoutWindow(recentCommentTime: int, comments: seq<EntityRelation>)
    requires recentCommentTime <= 0
    ensures CommentsOf(recentCommentTime, comments) == Success([])
  {
  }

  /** Every projected row comes from a comment, and every comment has its projected row. */
  lemma RowsOfComments(comments: seq<EntityRelation>)
    ensures forall x :: x in comments ==> CommentRowOf(x) in Map(comments, CommentRowOf)
    ensures forall c :: c in Map(comments, CommentRowOf) ==> exists x :: x in comments && c == CommentRowOf(x)
  {
    var rows := Map(comments, CommentRowOf);
    forall x | x in comments ensures CommentRowOf(x) in rows {
      var i :| 0 <= i < |comments| && comments[i] == x;
      assert rows[i] == CommentRowOf(x);
    }
    forall c | c in rows ensures exists x :: x in comments && c == CommentRowOf(x) {
      var i :| 0 <= i < |rows| && rows[i] == c;
      assert comments[i] in comments;
    }
  }

  /** The summaries of all commented contents succeed exactly when every comment has a date. */
  lemma SummariesSucceedExactly(rows: seq<CommentRow>)
    ensures Summaries(rows, CommentKeys(rows)).Success? <==> forall c :: c in rows ==> c.date.Some?
  {
    var keys := CommentKeys(rows);
    if forall c :: c in rows ==> c.date.Some? {
      forall i | 0 <= i < |keys| ensures SummaryOf(rows, keys[i]).Success? {
        SummaryExactly(rows, keys[i]);
      }
    } else {
      var c :| c in rows && c.date.None?;
      assert c in GroupOf(rows, c.contentId);
      var i :| 0 <= i < |keys| && keys[i] == c.contentId;
      SummaryExactly(rows, keys[i]);
    }
  }

  /** With a positive window, the summaries fail exactly when some comment has no date. */
  lemma CommentsFailExactly(recentCommentTime: int, comments: seq<EntityRelation>)
    requires recentCommentTime > 0
    ensures CommentsOf(recentCommentTime, comments).Success? <==> forall x :: x in comments ==> x.createDate.Some?
  {
    var rows := Map(comments, CommentRowOf);
    RowsOfComments(comments);
    SummariesSucceedExactly(rows);
  }

  /** The content ids of a list of summaries, in order. */
  function ParentIds(summaries: seq<CommentActivityView>): (ids: seq<int>)
    ensures |ids| == |summaries| && forall i :: 0 <= i < |ids| ==> ids[i] == summaries[i].parentId
  {
    Map(summaries, (s: CommentActivityView) => s.parentId)
  }

  /** The comments whose parent content (EntityId1) is `key`, in order. */
  function CommentsOn(comments: seq<EntityRelation>, key: int): (r: seq<EntityRelation>)
    ensures forall x :: x in r <==> x in comments && x.entityId1 == key
  {
    Filter(comments, (x: EntityRelation) => x.entityId1 == key)
  }

  /** Successful summaries follow the commented contents one to one and count their groups. */
  lemma SummariesPerKey(rows: seq<CommentRow>)
    ensures var r := Summaries(rows, CommentKeys(rows));
      r.Success? ==>
        && ParentIds(r.value) == CommentKeys(rows)
        && forall i :: 0 <= i < |r.value| ==> r.value[i].count == |GroupOf(rows, r.value[i].parentId)|
  {
    var keys := CommentKeys(rows);
    var r := Summaries(rows, keys);
    if r.Success? {
      forall i | 0 <= i < |keys| ensures r.value[i].parentId == keys[i] && r.value[i].count == |GroupOf(rows, keys[i])| {
        SummaryExactly(rows, keys[i]);
      }
    }
  }

  /**
   * With a positive window, a successful result has one summary per commented content, no
   * content twice, and each summary counts exactly that content's comments.
   */
  lemma CommentsOnePerContent(recentCommentTime: int, comments: seq<EntityRelation>)
    requires recentCommentTime > 0
    ensures var r := CommentsOf(recentCommentTime, comments);
      r.Success? ==>
        && NoDuplicates(ParentIds(r.value))
        && (forall x :: x in comments ==> x.entityId1 in ParentIds(r.value))
        && (forall i :: 0 <= i < |r.value| ==> r.value[i].count == |CommentsOn(comments, r.value[i].parentId)|)
  {
    var rows := Map(comments, CommentRowOf);
    var r := CommentsOf(recentCommentTime, comments);
    SummariesPerKey(rows);
    if r.Success? {
      forall x | x in comments ensures x.entityId1 in ParentIds(r.value) {
        RowsOfComments(comments);
        assert CommentRowOf(x) in rows;
      }
      forall i | 0 <= i < |r.value| ensures r.value[i].count == |CommentsOn(comments, r.value[i].parentId)| {
        GroupOfMap(comments, r.value[i].parentId);
      }
    }
  }

  /** The group of a content among the projected rows is as long as its comments. */
  lemma {:induction false} GroupOfMap(comments: seq<EntityRelation>, key: int)
    ensures |GroupOf(Map(comments, CommentRowOf), key)| == |CommentsOn(comments, key)|
  {
    if comments != [] {
      GroupOfMap(comments[1..], key);
      assert Map(comments, CommentRowOf)[1..] == Map(comments[1..], CommentRowOf);
    }
  }

  /** The summary of one content, as a function of the key; Summaries applies it to every key. */
  function SummaryFn(rows: seq<CommentRow>): (f: int -> Result<CommentActivityView>)
  {
    (k: int) => SummaryOf(rows, k)
  }

  /**
   * The relation search for recent comments: every type that starts with the comment marker,
   * created at or after `now` minus the window, newest first.
   */
  datatype CommentSearch = CommentSearch(typeLike: string, createStart: int, reverse: bool)

  function RecentCommentSearch(window: int, now: int): (c: CommentSearch)
    ensures c.reverse && c.createStart == now - window
    ensures window > 0 ==> c.createStart < now
    ensures forall t :: Like(t, c.typeLike) <==> Keys.CommentHack <= t
  {
    var c := CommentSearch(Keys.CommentHack + "%", now - window, true);
    assert NoWildcards(Keys.CommentHack) by {
      assert Keys.CommentHack == ['Z', 'c', 'c'];
    }
    forall t ensures Like(t, c.typeLike) <==> Keys.CommentHack <= t {
      LikePrefix(t, Keys.CommentHack);
    }
    c
  }

  /**
   * SearchCommentsAsync: for a positive window, the recent-comment search is read (`readComments`,
   * standing for its permission-checked, finalised query) and the loop over the comments grouped
   * by content adds one summary per group; otherwise no search is made.
   */
  method SearchCommentsAsync(search: ActivitySearch, now: int, readComments: CommentSearch -> seq<EntityRelation>)
    returns (r: Result<seq<CommentActivityView>>, commentSearch: Option<CommentSearch>)
    ensures search.recentCommentTime <= 0 <==> commentSearch.None?
    ensures commentSearch.Some? ==> commentSearch.value == RecentCommentSearch(search.recentCommentTime, now)
    ensures commentSearch.None? ==> r == Success([])
    ensures commentSearch.Some? ==> r == CommentsOf(search.recentCommentTime, readComments(commentSearch.value))
  {
    var result: seq<CommentActivityView> := [];
    commentSearch := None;
    if search.recentCommentTime > 0 {
      var cs := RecentCommentSearch(search.recentCommentTime, now);
      commentSearch := Some(cs);
      var comments := readComments(cs);
      var rows := Map(comments, CommentRowOf);
      var keys := CommentKeys(rows);
      ghost var f := SummaryFn(rows);
      assert keys[0..] == keys;
      CollectPrepend(keys, f);
      for i := 0 to |keys|
        invariant Collect(keys, f) == Prepend(result, Collect(keys[i..], f))
      {
        var summary := SummaryOf(rows, keys[i]);
        assert f(keys[i]) == summary;
        CollectStep(keys, i, f);
        if summary.Failure? {
          r := Failure(summary.error);
          return;
        }
        PrependTwice(result, [summary.value], Collect(keys[i + 1..], f));
        result := result + [summary.value];
      }
      assert keys[|keys|..] == [];
      assert result + [] == result;
      assert CommentsOf(search.recentCommentTime, comments) == Collect(keys, f);
    }
    r := Success(result);
  }
}
