/**
 * The content view service's conversions: a content view becomes a package whose keywords are
 * values under the keyword key and whose associated values are values under the
 * associated-value prefix; the view is rebuilt from such a package by reading them back.
 */
module ContentViewService {
  import opened Wrappers
  import opened Seqs
  import opened EntitySystem
  import opened Views
  import Keys
  import ContentViewSource

  /** The value CreateBasePackage stores for one keyword. */
  function KeywordEntry(keyword: string, now: int): EntityValue
  {
    NewValue(Keys.KeywordKey, keyword, now)
  }

  /** The value CreateBasePackage stores for one associated pair. */
  function AssociatedEntry(e: (string, string), now: int): EntityValue
  {
    NewValue(Keys.AssociatedValueKey + e.0, e.1, now)
  }

  /** The keyword values, in keyword order. */
  function KeywordEntries(keywords: seq<string>, now: int): (vs: seq<EntityValue>)
    ensures |vs| == |keywords|
    ensures forall k :: 0 <= k < |keywords| ==> vs[k] == KeywordEntry(keywords[k], now)
  {
    Map(keywords, (k: string) => KeywordEntry(k, now))
  }

  /** The associated values, in dictionary order. */
  function AssociatedEntries(d: Dict, now: int): (vs: seq<EntityValue>)
    ensures |vs| == |d|
    ensures forall k :: 0 <= k < |d| ==> vs[k] == AssociatedEntry(d[k], now)
  {
    Map(d, (e: (string, string)) => AssociatedEntry(e, now))
  }

  /**
   * The package CreateBasePackage builds: a new entity with the view's name, content and bare
   * type, one keyword value per keyword in order, then one prefixed value per associated pair.
   */
  function BasePackageOf(view: ContentView, now: int): (p: EntityPackage)
    ensures p.entity == Entity(0, Some(now), view.name, view.content, view.kind)
    ensures |p.values| == |view.keywords| + |view.values| && p.relations == []
    ensures forall k :: 0 <= k < |view.keywords| ==>
      p.values[k].key == Keys.KeywordKey && p.values[k].value == view.keywords[k]
    ensures forall k :: 0 <= k < |view.values| ==>
      p.values[|view.keywords| + k].key == Keys.AssociatedValueKey + view.values[k].0
      && p.values[|view.keywords| + k].value == view.values[k].1
  {
    EntityPackage(Entity(0, Some(now), view.name, view.content, view.kind),
      KeywordEntries(view.keywords, now) + AssociatedEntries(view.values, now), [])
  }

  /** CreateBasePackage: the loops over keywords and associated values. */
  method CreateBasePackage(view: ContentView, now: int) returns (p: EntityPackage)
    ensures p == BasePackageOf(view, now)
  {
    ghost var kws := KeywordEntries(view.keywords, now);
    ghost var avs := AssociatedEntries(view.values, now);
    p := NewEntity(view.name, view.content, now);
    for i := 0 to |view.keywords|
      invariant p.entity == Entity(0, Some(now), view.name, view.content, "") && p.relations == []
      invariant p.values == kws[..i]
    {
      assert kws[..i + 1] == kws[..i] + [kws[i]];
      p := p.(values := p.values + [NewValue(Keys.KeywordKey, view.keywords[i], now)]);
    }
    assert kws[..|view.keywords|] == kws;
    for i := 0 to |view.values|
      invariant p.entity == Entity(0, Some(now), view.name, view.content, "") && p.relations == []
      invariant p.values == kws + avs[..i]
    {
      assert avs[..i + 1] == avs[..i] + [avs[i]];
      p := p.(values := p.values + [NewValue(Keys.AssociatedValueKey + view.values[i].0, view.values[i].1, now)]);
    }
    assert avs[..|view.values|] == avs;
    p := p.(entity := p.entity.(kind := view.kind));
  }

  /** The value's key starts with the associated-value prefix. */
  predicate IsAssociated(v: EntityValue)
  {
    Keys.AssociatedValueKey <= v.key
  }

  /** The key past the associated-value prefix (`Substring(prefix length)`). */
  function AssociatedKeyOf(v: EntityValue): string
  {
    if |Keys.AssociatedValueKey| <= |v.key| then v.key[|Keys.AssociatedValueKey|..] else ""
  }

  /** The dictionary entry for one associated value. */
  function AssociatedPair(v: EntityValue): (string, string)
  {
    (AssociatedKeyOf(v), v.value)
  }

  /** The dictionary the associated values make: `Add`ed one by one into an empty one. */
  function AssociatedDict(vs: seq<EntityValue>): (r: Result<Dict>)
  {
    DictAddAll([], Map(vs, AssociatedPair))
  }

  /**
   * AssociatedDict succeeds exactly when no two values strip to the same key (the stripped
   * pairs form a dictionary), and then holds
   * one entry per value, in order, keyed by the stripped key.
   */
  lemma AssociatedDictExactly(vs: seq<EntityValue>)
    ensures AssociatedDict(vs).Success? <==> IsDict(Map(vs, AssociatedPair))
    ensures AssociatedDict(vs).Success? ==> AssociatedDict(vs).value == Map(vs, AssociatedPair)
  {
    DictFromPairs(Map(vs, AssociatedPair));
  }

  /**
   * The view CreateBaseView builds: name and content copied, the type past the content-type
   * prefix, the keyword values in order, the associated values with their prefix stripped. It
   * fails when the type is shorter than the prefix, or when two associated values share a key.
   */
  function BaseViewOf(p: EntityPackage): (r: Result<ContentView>)
    ensures r.Success? <==>
      |Keys.ContentType| <= |p.entity.kind| && IsDict(Map(Filter(p.values, IsAssociated), AssociatedPair))
    ensures r.Success? ==>
      && r.value.name == p.entity.name && r.value.content == p.entity.content
      && p.entity.kind == p.entity.kind[..|Keys.ContentType|] + r.value.kind
      && r.value.keywords == ContentViewSource.KeywordsOf(p.values)
  {
    match Substring(p.entity.kind, |Keys.ContentType|)
    case Failure(e) => Failure(e)
    case Success(kind) =>
      AssociatedDictExactly(Filter(p.values, IsAssociated));
      match AssociatedDict(Filter(p.values, IsAssociated))
      case Failure(e) => Failure(e)
      case Success(d) =>
        Success(EmptyContentView.(name := p.entity.name, content := p.entity.content, kind := kind,
          keywords := ContentViewSource.KeywordsOf(p.values), values := d))
  }

  /**
   * The associated-value loop: `view.values.Add(stripped key, value)` for each prefixed value,
   * which fails on the first key already present.
   */
  method CollectAssociated(values: seq<EntityValue>) returns (r: Result<Dict>)
    ensures r == AssociatedDict(Filter(values, IsAssociated))
  {
    var d: Dict := [];
    for i := 0 to |values|
      invariant DictAddAll(d, Map(Filter(values[i..], IsAssociated), AssociatedPair))
        == AssociatedDict(Filter(values, IsAssociated))
    {
      assert values[i..] == [values[i]] + values[i + 1..];
      FilterAppend([values[i]], values[i + 1..], IsAssociated);
      assert [values[i]][1..] == [];
      ghost var rest := Filter(values[i + 1..], IsAssociated);
      if Keys.AssociatedValueKey <= values[i].key {
        assert Filter(values[i..], IsAssociated) == [values[i]] + rest;
        MapAppend([values[i]], rest, AssociatedPair);
        assert Map([values[i]], AssociatedPair) == [AssociatedPair(values[i])];
        ghost var ps := [AssociatedPair(values[i])] + Map(rest, AssociatedPair);
        assert ps[1..] == Map(rest, AssociatedPair);
        var added := DictAdd(d, AssociatedKeyOf(values[i]), values[i].value);
        if added.Failure? {
          return Failure(added.error);
        }
        d := added.value;
      } else {
        assert Filter(values[i..], IsAssociated) == rest;
      }
    }
    r := Success(d);
  }

  /** CreateBaseView: the type, then the keyword loop, then the associated-value loop. */
  method CreateBaseView(p: EntityPackage) returns (r: Result<ContentView>)
    ensures r == BaseViewOf(p)
  {
    var view := EmptyContentView.(name := p.entity.name, content := p.entity.content);
    var kind := Substring(p.entity.kind, |Keys.ContentType|);
    if kind.Failure? {
      return Failure(kind.error);
    }
    view := view.(kind := kind.value);
    var keywords := ContentViewSource.CollectKeywords(p.values);
    view := view.(keywords := keywords);
    var values := CollectAssociated(p.values);
    if values.Failure? {
      return Failure(values.error);
    }
    r := Success(view.(values := values.value));
  }

  /** The keyword values of a base package are exactly the view's keywords, in order. */
  lemma {:induction false} KeywordsOfBasePackage(view: ContentView, now: int)
    ensures ContentViewSource.KeywordsOf(BasePackageOf(view, now).values) == view.keywords
  {
    var kws := KeywordEntries(view.keywords, now);
    var avs := AssociatedEntries(view.values, now);
    var isKeyword := (v: EntityValue) => v.key == Keys.KeywordKey;
    FilterAppend(kws, avs, isKeyword);
    FilterAll(kws, isKeyword);
    assert forall v :: v in avs ==> v.key[0] == '@';
    FilterNone(avs, isKeyword);
    assert Map(kws, (v: EntityValue) => v.value) == view.keywords;
  }

  /** The associated values of a dictionary rebuild it. */
  lemma AssociatedEntriesRebuild(d: Dict, now: int)
    requires IsDict(d)
    ensures AssociatedDict(AssociatedEntries(d, now)) == Success(d)
  {
    var avs := AssociatedEntries(d, now);
    forall i | 0 <= i < |avs| ensures AssociatedPair(avs[i]) == d[i] {
      assert avs[i].key == Keys.AssociatedValueKey + d[i].0;
    }
    assert Map(avs, AssociatedPair) == d;
    DictFromPairs(d);
  }

  /** The associated values of a base package rebuild the view's dictionary. */
  lemma AssociatedOfBasePackage(view: ContentView, now: int)
    requires IsDict(view.values)
    ensures AssociatedDict(Filter(BasePackageOf(view, now).values, IsAssociated)) == Success(view.values)
  {
    var kws := KeywordEntries(view.keywords, now);
    var avs := AssociatedEntries(view.values, now);
    FilterAppend(kws, avs, IsAssociated);
    Keys.KeywordNeverAssociated("");
    assert forall v :: v in kws ==> v.key == Keys.KeywordKey;
    FilterNone(kws, IsAssociated);
    FilterAll(avs, IsAssociated);
    assert [] + avs == avs;
    AssociatedEntriesRebuild(view.values, now);
  }

  /**
   * The round trip: a view whose associated values form a dictionary, packaged by
   * CreateBasePackage and given its content-type prefix (as the controller does), comes back
   * from CreateBaseView with the same name, content, type, keywords (in order) and values.
   */
  lemma {:induction false} BaseViewOfBasePackage(view: ContentView, now: int)
    requires IsDict(view.values)
    ensures var p := BasePackageOf(view, now);
      BaseViewOf(p.(entity := p.entity.(kind := TypeSet(p.entity.kind, Keys.ContentType))))
      == Success(EmptyContentView.(name := view.name, content := view.content, kind := view.kind,
                                   keywords := view.keywords, values := view.values))
  {
    var p := BasePackageOf(view, now);
    KeywordsOfBasePackage(view, now);
    AssociatedOfBasePackage(view, now);
    assert (Keys.ContentType + view.kind)[|Keys.ContentType|..] == view.kind;
  }
}
