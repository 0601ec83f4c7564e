/**
 * The content view source: content views to packages and back (keywords as values under the
 * keyword key, the type behind the content-type prefix), its search construction, its keyword
 * filter and the choice of vote/watch weights for sorting.
 */
module ContentViewSource {
  import opened Wrappers
  import opened Seqs
  import opened EntitySystem
  import opened ViewSources
  import opened Views
  import Keys
  import Searches
  import StandardViewSource

  /** The value FromView stores for one keyword: attached to the view's id, with no date. */
  function KeywordValue(viewId: int, keyword: string): EntityValue
  {
    EntityValue(0, viewId, Keys.KeywordKey, keyword, None)
  }

  /**
   * The package FromView builds. ApplyFromStandard is not part of this model; it is taken to
   * copy the view's id and creation date onto the entity and to set the type to the content
   * type, which FromView then extends with the view's own type.
   */
  function PackageOf(view: ContentView): (p: EntityPackage)
    ensures p.entity == Entity(view.id, view.createDate, view.name, view.content, Keys.ContentType + view.kind)
    ensures |p.values| == |view.keywords|
    ensures forall k :: 0 <= k < |view.keywords| ==> p.values[k] == KeywordValue(view.id, view.keywords[k])
    ensures p.relations == []
  {
    EntityPackage(Entity(view.id, view.createDate, view.name, view.content, Keys.ContentType + view.kind),
                  Map(view.keywords, (k: string) => KeywordValue(view.id, k)), [])
  }

  /** FromView: one keyword value per keyword, in order, and the view's type behind the prefix. */
  method FromView(view: ContentView, now: int) returns (p: EntityPackage)
    ensures p == PackageOf(view)
  {
    p := NewEntity(view.name, view.content, now);
    p := p.(entity := p.entity.(id := view.id, createDate := view.createDate, kind := Keys.ContentType));
    for i := 0 to |view.keywords|
      invariant p.entity == Entity(view.id, view.createDate, view.name, view.content, Keys.ContentType)
      invariant |p.values| == i && p.relations == []
      invariant forall k :: 0 <= k < i ==> p.values[k] == KeywordValue(view.id, view.keywords[k])
    {
      p := p.(values := p.values + [EntityValue(0, view.id, Keys.KeywordKey, view.keywords[i], None)]);
    }
    p := p.(entity := p.entity.(kind := p.entity.kind + view.kind));
  }

  /** The keywords of a package: the values under the keyword key, in order. */
  function KeywordsOf(values: seq<EntityValue>): (ks: seq<string>)
  {
    Map(Filter(values, (v: EntityValue) => v.key == Keys.KeywordKey), (v: EntityValue) => v.value)
  }

  /**
   * The view ToView builds. ApplyToStandard is taken to copy the id and creation date; the type
   * is the entity type past the content-type prefix, and fails like Substring when it is shorter.
   */
  function ViewOf(p: EntityPackage): (r: Result<ContentView>)
    ensures r.Success? <==> |Keys.ContentType| <= |p.entity.kind|
    ensures r.Success? ==> p.entity.kind == p.entity.kind[..|Keys.ContentType|] + r.value.kind
    ensures r.Success? ==> r.value.id == p.entity.id && r.value.name == p.entity.name && r.value.content == p.entity.content
    ensures r.Success? ==> r.value.keywords == KeywordsOf(p.values)
    ensures r.Failure? ==> r.error == ArgumentOutOfRange
  {
    match Substring(p.entity.kind, |Keys.ContentType|)
    case Failure(e) => Failure(e)
    case Success(kind) =>
      Success(EmptyContentView.(id := p.entity.id, createDate := p.entity.createDate,
        name := p.entity.name, content := p.entity.content, kind := kind, keywords := KeywordsOf(p.values)))
  }

  /** The keyword loop: the values under the keyword key, in order. */
  method CollectKeywords(values: seq<EntityValue>) returns (ks: seq<string>)
    ensures ks == KeywordsOf(values)
  {
    var isKeyword := (v: EntityValue) => v.key == Keys.KeywordKey;
    ks := [];
    for i := 0 to |values|
      invariant ks == KeywordsOf(values[..i])
    {
      assert values[..i + 1] == values[..i] + [values[i]];
      FilterAppend(values[..i], [values[i]], isKeyword);
      MapAppend(Filter(values[..i], isKeyword), Filter([values[i]], isKeyword), (v: EntityValue) => v.value);
      if values[i].key == Keys.KeywordKey {
        ks := ks + [values[i].value];
      }
    }
    assert values[..|values|] == values;
  }

  /** ToView: name, content and type copied back, the keywords collected in order. */
  method ToView(p: EntityPackage) returns (r: Result<ContentView>)
    ensures r == ViewOf(p)
  {
    var view := EmptyContentView.(id := p.entity.id, createDate := p.entity.createDate);
    view := view.(name := p.entity.name, content := p.entity.content);
    var kind := Substring(p.entity.kind, |Keys.ContentType|);
    if kind.Failure? {
      return Failure(kind.error);
    }
    view := view.(kind := kind.value);
    var keywords := CollectKeywords(p.values);
    r := Success(view.(keywords := keywords));
  }

  /** A view survives FromView then ToView in its id, creation date, name, content, type and keywords. */
  lemma {:induction false} ViewOfPackageOf(view: ContentView)
    ensures ViewOf(PackageOf(view)).Success?
    ensures var v := ViewOf(PackageOf(view)).value;
      v.id == view.id && v.createDate == view.createDate && v.name == view.name && v.content == view.content
      && v.kind == view.kind && v.keywords == view.keywords
  {
    var p := PackageOf(view);
    FilterAll(p.values, (v: EntityValue) => v.key == Keys.KeywordKey);
    assert Map(p.values, (v: EntityValue) => v.value) == view.keywords;
    assert (Keys.ContentType + view.kind)[|Keys.ContentType|..] == view.kind;
  }

  /**
   * CreateSearch: on the search the base source built, the type pattern is extended with the
   * requested type, or with "%" when none is given (a null pattern reads as empty).
   */
  method CreateSearch(es: Searches.EntitySearch, search: ContentSearch) returns (r: Searches.EntitySearch)
    modifies es
    ensures r == es
    ensures es.Fields() == old(es.Fields()).(typeLike := Some(Concat(old(es.typeLike), OrElse(search.kind, "%"))))
  {
    es.typeLike := Some(Concat(es.typeLike, OrElse(search.kind, "%")));
    r := es;
  }

  /** The keyword filter, when there is a non-blank keyword, accepts the entry. */
  predicate KeywordOk(x: EntityGroup, search: ContentSearch, values: seq<EntityValue>)
  {
    !IsNullOrWhiteSpace(search.keyword) ==>
      exists k :: 0 <= k < |values| && ValueMatch(values[k], x.entity.id, Keys.KeywordKey, search.keyword.value)
  }

  /**
   * ModifySearch: the standard filters, then, for a non-blank keyword, only entries with a
   * keyword value matching it.
   */
  function ModifySearch(query: seq<EntityGroup>, search: ContentSearch, baseModify: seq<EntityGroup> -> seq<EntityGroup>,
                        relations: seq<EntityRelation>, values: seq<EntityValue>,
                        keyPattern: Option<string> -> string): (r: seq<EntityGroup>)
    ensures IsNullOrWhiteSpace(search.keyword) ==>
      r == StandardViewSource.ModifySearch(query, search, baseModify, relations, values, keyPattern)
    ensures forall x :: x in r <==>
      x in StandardViewSource.ModifySearch(query, search, baseModify, relations, values, keyPattern)
      && KeywordOk(x, search, values)
  {
    var q := StandardViewSource.ModifySearch(query, search, baseModify, relations, values, keyPattern);
    if IsNullOrWhiteSpace(search.keyword) then q
    else LimitByValue(q, values, Keys.KeywordKey, search.keyword.value)
  }

  // ---------------------------------------------------------------- sort weights

  /** The vote and watch multipliers a sort mode selects. */
  function SortMultipliers(sort: Option<string>): (m: (real, real))
    ensures sort == Some("votes") ==> m == (1.0, 0.0)
    ensures sort == Some("watches") ==> m == (0.0, 1.0)
    ensures sort == Some("score") ==> m == (1.0, 1.0)
    ensures sort !in {Some("votes"), Some("watches"), Some("score")} ==> m == (0.0, 0.0)
  {
    if sort == Some("votes") then (1.0, 0.0)
    else if sort == Some("watches") then (0.0, 1.0)
    else if sort == Some("score") then (1.0, 1.0)
    else (0.0, 0.0)
  }

  /** A weight table of real numbers, in insertion order. */
  type Weights = seq<(string, real)>

  /** The keys the weight table receives: one per vote weight, then the watch relation. */
  function WeightKeys(voteWeights: Weights, voteRelation: string, watchRelation: string): (ks: seq<string>)
    ensures |ks| == |voteWeights| + 1
    ensures forall i :: 0 <= i < |voteWeights| ==> ks[i] == voteRelation + voteWeights[i].0
    ensures ks[|voteWeights|] == watchRelation
  {
    Map(voteWeights, (e: (string, real)) => voteRelation + e.0) + [watchRelation]
  }

  /** The weight table, when its keys are distinct: vote weights scaled, then the watch weight. */
  function WeightsOf(voteWeights: Weights, voteRelation: string, watchRelation: string, vote: real, watch: real): (w: Weights)
    ensures |w| == |voteWeights| + 1
    ensures forall i :: 0 <= i < |voteWeights| ==> w[i] == (voteRelation + voteWeights[i].0, vote * voteWeights[i].1)
    ensures w[|voteWeights|] == (watchRelation, watch)
  {
    Map(voteWeights, (e: (string, real)) => (voteRelation + e.0, vote * e.1)) + [(watchRelation, watch)]
  }

  /** No key occurs twice among the entries. */
  predicate KeysDistinct<K(==), V>(entries: seq<(K, V)>)
  {
    forall i, j :: 0 <= i < j < |entries| ==> entries[i].0 != entries[j].0
  }

  /**
   * `Add` of each entry in turn into an empty table: it fails on the first key already present,
   * so it succeeds exactly when the keys are distinct, and then holds every entry in order.
   */
  method AddEach<K(==), V>(entries: seq<(K, V)>) returns (r: Result<seq<(K, V)>>)
    ensures r.Success? <==> KeysDistinct(entries)
    ensures r.Success? ==> r.value == entries
    ensures r.Failure? ==> r.error == DuplicateKey
  {
    var table: seq<(K, V)> := [];
    for i := 0 to |entries|
      invariant table == entries[..i]
      invariant KeysDistinct(table)
    {
      if exists j :: 0 <= j < |table| && table[j].0 == entries[i].0 {
        var j :| 0 <= j < |table| && table[j].0 == entries[i].0;
        assert entries[j].0 == entries[i].0;
        return Failure(DuplicateKey);
      }
      assert entries[..i + 1] == entries[..i] + [entries[i]];
      table := table + [entries[i]];
    }
    assert entries[..|entries|] == entries;
    r := Success(table);
  }

  /** The weight table's keys are distinct exactly when WeightKeys has no duplicates. */
  lemma WeightsKeysDistinct(voteWeights: Weights, voteRelation: string, watchRelation: string, vote: real, watch: real)
    ensures KeysDistinct(WeightsOf(voteWeights, voteRelation, watchRelation, vote, watch))
      <==> NoDuplicates(WeightKeys(voteWeights, voteRelation, watchRelation))
  {
    var w := WeightsOf(voteWeights, voteRelation, watchRelation, vote, watch);
    var ks := WeightKeys(voteWeights, voteRelation, watchRelation);
    assert forall i :: 0 <= i < |w| ==> w[i].0 == ks[i];
  }

  /**
   * The weights loop: every vote weight under its prefixed key, then the watch weight, each
   * `Add`ed to the table, which fails on a key already present.
   */
  method BuildWeights(voteWeights: Weights, voteRelation: string, watchRelation: string, vote: real, watch: real)
    returns (r: Result<Weights>)
    ensures r.Success? <==> NoDuplicates(WeightKeys(voteWeights, voteRelation, watchRelation))
    ensures r.Success? ==> r.value == WeightsOf(voteWeights, voteRelation, watchRelation, vote, watch)
    ensures r.Failure? ==> r.error == DuplicateKey
  {
    var entries: Weights := [];
    for i := 0 to |voteWeights|
      invariant entries == WeightsOf(voteWeights, voteRelation, watchRelation, vote, watch)[..i]
    {
      entries := entries + [(voteRelation + voteWeights[i].0, vote * voteWeights[i].1)];
    }
    entries := entries + [(watchRelation, watch)];
    WeightsKeysDistinct(voteWeights, voteRelation, watchRelation, vote, watch);
    r := AddEach(entries);
  }

  predicate AllZero(w: Weights)
  {
    forall i :: 0 <= i < |w| ==> w[i].1 == 0.0
  }

  /** With non-zero vote weights, the table is all zero exactly when the sort mode is none of the three. */
  lemma AllZeroExactlyUnsorted(voteWeights: Weights, voteRelation: string, watchRelation: string, sort: Option<string>)
    requires |voteWeights| > 0 && forall i :: 0 <= i < |voteWeights| ==> voteWeights[i].1 != 0.0
    ensures var m := SortMultipliers(sort);
      AllZero(WeightsOf(voteWeights, voteRelation, watchRelation, m.0, m.1))
      <==> sort !in {Some("votes"), Some("watches"), Some("score")}
  {
    var m := SortMultipliers(sort);
    var w := WeightsOf(voteWeights, voteRelation, watchRelation, m.0, m.1);
    assert w[0].1 == m.0 * voteWeights[0].1;
    assert w[|voteWeights|].1 == m.1;
  }

  /** What FinalizeQuery hands on: ids ranked by weighted votes and watches, or the plain ids. */
  datatype Finalized =
    | Ranked(ids: seq<int>, weights: Weights, descending: bool)
    | Unranked(ids: seq<int>)

  /**
   * FinalizeQuery: with a non-zero weight, every distinct main id once, to be ordered by its
   * weighted vote/watch sum (descending when the search is reversed; the sum itself is not
   * modelled); otherwise the base finalisation.
   */
  method FinalizeQuery(query: seq<EntityGroup>, search: ContentSearch, mainId: EntityGroup -> int,
                       voteWeights: Weights, voteRelation: string, watchRelation: string)
    returns (r: Result<Finalized>)
    ensures !NoDuplicates(WeightKeys(voteWeights, voteRelation, watchRelation)) ==> r == Failure(DuplicateKey)
    ensures NoDuplicates(WeightKeys(voteWeights, voteRelation, watchRelation)) ==>
      var m := SortMultipliers(search.sort);
      var w := WeightsOf(voteWeights, voteRelation, watchRelation, m.0, m.1);
      r == Success(if AllZero(w) then Unranked(ViewSources.FinalizeQuery(query, mainId))
                   else Ranked(ViewSources.FinalizeQuery(query, mainId), w, search.reverse))
  {
    var condense := ViewSources.FinalizeQuery(query, mainId);
    var m := SortMultipliers(search.sort);
    var weights := BuildWeights(voteWeights, voteRelation, watchRelation, m.0, m.1);
    if weights.Failure? {
      return Failure(weights.error);
    }
    if exists i :: 0 <= i < |weights.value| && weights.value[i].1 != 0.0 {
      return Success(Ranked(condense, weights.value, search.reverse));
    }
    r := Success(Unranked(condense));
  }
}
