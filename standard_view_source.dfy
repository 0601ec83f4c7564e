/**
 * The filters every standard view source adds to its base query: children of the requested
 * parents, and entries carrying an associated value that matches the requested key and value.
 */
module StandardViewSource {
  import opened Wrappers
  import opened Seqs
  import opened EntitySystem
  import opened ViewSources
  import opened Views
  import Keys

  /**
   * The key pattern exactly as _BaseStandardViewSource builds it, `Keys.AssociatedValueKey + key ?? "%"`:
   * `+` binds tighter than `??`, and a string sum is never null, so the fallback never fires and
   * a null key contributes nothing.
   */
  function KeyPatternAsWritten(key: Option<string>): (pattern: string)
    ensures pattern == Keys.AssociatedValueKey + OrElse(key, "")
  {
    OrElse(Some(Keys.AssociatedValueKey + Concat(key, "")), "%")
  }

  /** With no key given, the as-written pattern is the bare prefix "@", which has no wildcard. */
  lemma KeyPatternAsWrittenNullKey()
    ensures KeyPatternAsWritten(None) == "@" && NoWildcards(KeyPatternAsWritten(None))
  {
  }

  /**
   * The discrepancy: a search for associated value "red" with no key misses the value
   * ("@color", "red") under the as-written pattern, and finds it under the intended one.
   */
  lemma KeyPatternAsWrittenMissesValues()
    ensures !Like("@color", KeyPatternAsWritten(None))
    ensures Like("@color", KeyPattern(None))
  {
    LikeLiteral("@color", KeyPatternAsWritten(None));
    AnyAssociatedKeyMatches("color");
  }

  /** The intended key pattern: the prefix followed by the key, or by "%" when there is none. */
  function KeyPattern(key: Option<string>): (pattern: string)
    ensures key.Some? ==> pattern == Keys.AssociatedValueKey + key.value
    ensures key.None? ==> pattern == Keys.AssociatedValueKey + "%"
  {
    Keys.AssociatedValueKey + OrElse(key, "%")
  }

  /** Without a key, the intended pattern accepts every associated-value key and nothing else. */
  lemma {:induction false} AnyAssociatedKeyMatches(k: string)
    ensures Like(Keys.AssociatedValueKey + k, KeyPattern(None))
    ensures forall s :: Like(s, KeyPattern(None)) <==> Keys.AssociatedValueKey <= s
  {
    forall s ensures Like(s, KeyPattern(None)) <==> Keys.AssociatedValueKey <= s {
      LikePrefix(s, Keys.AssociatedValueKey);
    }
    assert Keys.AssociatedValueKey <= Keys.AssociatedValueKey + k;
  }

  /** The value pattern: the requested value, or "%" when there is none. */
  function ValuePattern(value: Option<string>): (pattern: string)
    ensures value.Some? ==> pattern == value.value
    ensures value.None? ==> pattern == "%"
  {
    OrElse(value, "%")
  }

  /** The associated-value filter is asked for when the key or the value is non-empty. */
  predicate WantsValueFilter(search: ContentSearch)
  {
    !IsNullOrEmpty(search.associatedKey) || !IsNullOrEmpty(search.associatedValue)
  }

  /** The parent filter, when switched on, accepts the entry. */
  predicate ParentOk(x: EntityGroup, search: ContentSearch, relations: seq<EntityRelation>)
  {
    |search.parentIds| > 0 ==> IsChildOf(relations, x.entity.id, search.parentIds)
  }

  /**
   * The associated-value filter, when switched on, accepts the entry. `keyPattern` builds the
   * key pattern from the requested key: KeyPatternAsWritten is the code as written, KeyPattern
   * the intended one.
   */
  predicate ValueOk(x: EntityGroup, search: ContentSearch, values: seq<EntityValue>, keyPattern: Option<string> -> string)
  {
    WantsValueFilter(search) ==>
      exists k :: 0 <= k < |values| &&
        ValueMatch(values[k], x.entity.id, keyPattern(search.associatedKey), ValuePattern(search.associatedValue))
  }

  function ParentStage(q: seq<EntityGroup>, search: ContentSearch, relations: seq<EntityRelation>): (r: seq<EntityGroup>)
    ensures |search.parentIds| == 0 ==> r == q
    ensures forall x :: x in r <==> x in q && ParentOk(x, search, relations)
  {
    if |search.parentIds| > 0 then LimitByParents(q, relations, search.parentIds) else q
  }

  function ValueStage(q: seq<EntityGroup>, search: ContentSearch, values: seq<EntityValue>,
                      keyPattern: Option<string> -> string): (r: seq<EntityGroup>)
    ensures !WantsValueFilter(search) ==> r == q
    ensures forall x :: x in r <==> x in q && ValueOk(x, search, values, keyPattern)
  {
    if WantsValueFilter(search)
    then LimitByValue(q, values, keyPattern(search.associatedKey), ValuePattern(search.associatedValue))
    else q
  }

  /**
   * ModifySearch: the base source's modification first, then the parent filter when parent ids
   * are given, then the associated-value filter when a key or value is given. The result keeps
   * exactly the entries of the base result that pass the switched-on filters. With
   * KeyPatternAsWritten as `keyPattern` it is the code as written, with KeyPattern as intended.
   */
  function ModifySearch(query: seq<EntityGroup>, search: ContentSearch, baseModify: seq<EntityGroup> -> seq<EntityGroup>,
                        relations: seq<EntityRelation>, values: seq<EntityValue>,
                        keyPattern: Option<string> -> string): (r: seq<EntityGroup>)
    ensures |search.parentIds| == 0 && !WantsValueFilter(search) ==> r == baseModify(query)
    ensures forall x :: x in r <==>
      x in baseModify(query) && ParentOk(x, search, relations) && ValueOk(x, search, values, keyPattern)
  {
    ValueStage(ParentStage(baseModify(query), search, relations), search, values, keyPattern)
  }

  /** A value of the entry whose key satisfies `keyOk` and whose value matches the requested one. */
  predicate HasValueWhere(x: EntityGroup, search: ContentSearch, values: seq<EntityValue>, keyOk: string -> bool)
  {
    exists k :: 0 <= k < |values| && values[k].entityId == x.entity.id && keyOk(values[k].key)
      && Like(values[k].value, ValuePattern(search.associatedValue))
  }

  /**
   * As written, a value search without a key keeps exactly the entries having a matching value
   * stored under the bare key "@", which no associated value has.
   */
  lemma {:induction false} ModifySearchAsWrittenNullKey(query: seq<EntityGroup>, search: ContentSearch,
                                                        baseModify: seq<EntityGroup> -> seq<EntityGroup>,
                                                        relations: seq<EntityRelation>, values: seq<EntityValue>)
    requires search.associatedKey.None? && WantsValueFilter(search)
    ensures forall x :: x in ModifySearch(query, search, baseModify, relations, values, KeyPatternAsWritten) <==>
      x in baseModify(query) && ParentOk(x, search, relations)
      && HasValueWhere(x, search, values, (key: string) => key == Keys.AssociatedValueKey)
  {
    forall k | 0 <= k < |values| ensures Like(values[k].key, KeyPatternAsWritten(None)) <==> values[k].key == "@" {
      LikeLiteral(values[k].key, KeyPatternAsWritten(None));
    }
  }

  /**
   * As intended, a value search without a key keeps exactly the entries having a matching value
   * under any associated-value key.
   */
  lemma {:induction false} ModifySearchCorrectedNullKey(query: seq<EntityGroup>, search: ContentSearch,
                                                        baseModify: seq<EntityGroup> -> seq<EntityGroup>,
                                                        relations: seq<EntityRelation>, values: seq<EntityValue>)
    requires search.associatedKey.None? && WantsValueFilter(search)
    ensures forall x :: x in ModifySearch(query, search, baseModify, relations, values, KeyPattern) <==>
      x in baseModify(query) && ParentOk(x, search, relations)
      && HasValueWhere(x, search, values, (key: string) => Keys.AssociatedValueKey <= key)
  {
    AnyAssociatedKeyMatches("");
  }

  /**
   * The discrepancy on the whole operation: searching for the associated value "red" without a
   * key drops an entry that stores ("@color", "red") as written, and keeps it as intended.
   */
  lemma ModifySearchAsWrittenMissesValue(x: EntityGroup)
    ensures var search := ContentSearch([], -1, -1, [], None, Some("red"), None, None, None, false);
      var values := [EntityValue(0, x.entity.id, "@color", "red", None)];
      var identity := (q: seq<EntityGroup>) => q;
      && ModifySearch([x], search, identity, [], values, KeyPatternAsWritten) == []
      && x in ModifySearch([x], search, identity, [], values, KeyPattern)
  {
    var search := ContentSearch([], -1, -1, [], None, Some("red"), None, None, None, false);
    var values := [EntityValue(0, x.entity.id, "@color", "red", None)];
    var identity := (q: seq<EntityGroup>) => q;
    assert WantsValueFilter(search);
    ModifySearchAsWrittenNullKey([x], search, identity, [], values);
    ModifySearchCorrectedNullKey([x], search, identity, [], values);
    assert values[0].key != Keys.AssociatedValueKey && Keys.AssociatedValueKey <= values[0].key;
    LikeLiteral("red", "red");
    assert HasValueWhere(x, search, values, (key: string) => Keys.AssociatedValueKey <= key);
    var asWritten := ModifySearch([x], search, identity, [], values, KeyPatternAsWritten);
    if |asWritten| > 0 {
      FirstIn(asWritten);
      assert false;
    }
  }
}
