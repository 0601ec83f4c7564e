/**
 * The entity / value / relation records of the storage layer the repository builds on, the SQL
 * LIKE match its searches use, and its small helpers: prefixing types, building new records.
 * Timestamps are integers (ticks) and `now` is always passed in.
 */
module EntitySystem {
  import opened Wrappers

  datatype Entity = Entity(id: int, createDate: Option<int>, name: string, content: string, kind: string)

  datatype EntityValue = EntityValue(id: int, entityId: int, key: string, value: string, createDate: Option<int>)

  /**
   * A directed link entityId1 -> entityId2 of some kind, carrying a value. The storage layer's
   * `type` field is called `kind` here, as `type` is a Dafny keyword; the same holds for Entity.
   */
  datatype EntityRelation = EntityRelation(id: int, entityId1: int, entityId2: int, kind: string, value: string, createDate: Option<int>)

  /** Who asks: a user id, or the system itself. */
  datatype Requester = Requester(userId: int, system: bool)

  /** An entity with the values and relations that hang off it. */
  datatype EntityPackage = EntityPackage(entity: Entity, values: seq<EntityValue>, relations: seq<EntityRelation>)

  // ---------------------------------------------------------------- SQL LIKE

  predicate NoWildcards(p: string)
  {
    forall i :: 0 <= i < |p| ==> p[i] != '%' && p[i] != '_'
  }

  /** `EF.Functions.Like(s, p)`: '%' matches any run of characters and '_' any one character. */
  predicate Like(s: string, p: string)
    decreases |s| + |p|
  {
    if p == [] then s == []
    else if p[0] == '%' then Like(s, p[1..]) || (s != [] && Like(s[1..], p))
    else s != [] && (p[0] == '_' || p[0] == s[0]) && Like(s[1..], p[1..])
  }

  /** The pattern "%" matches every string. */
  lemma {:induction false} LikeAll(s: string)
    ensures Like(s, "%")
  {
    if s != [] {
      LikeAll(s[1..]);
    }
  }

  /** A pattern without wildcards matches exactly itself. */
  lemma {:induction false} LikeLiteral(s: string, p: string)
    requires NoWildcards(p)
    ensures Like(s, p) <==> s == p
  {
    if p != [] && s != [] {
      LikeLiteral(s[1..], p[1..]);
      if s[0] == p[0] && s[1..] == p[1..] {
        assert s == [s[0]] + s[1..] && p == [p[0]] + p[1..];
      }
    }
  }

  /** A wildcard-free prefix followed by "%" matches exactly the strings with that prefix. */
  lemma {:induction false} LikePrefix(s: string, q: string)
    requires NoWildcards(q)
    ensures Like(s, q + "%") <==> q <= s
  {
    if q == [] {
      assert q + "%" == "%";
      LikeAll(s);
    } else {
      assert (q + "%")[1..] == q[1..] + "%";
      if s != [] {
        LikePrefix(s[1..], q[1..]);
      }
    }
  }

  // ---------------------------------------------------------------- typing helpers

  /** TypeSet(value, prefix): the type prefix is prepended to the value. */
  function TypeSet(value: string, prefix: string): (r: string)
    ensures prefix <= r && r[|prefix|..] == value
  {
    prefix + value
  }

  /** TypeIs(value, prefix): the (nullable) value starts with the type prefix. */
  predicate TypeIs(value: Option<string>, prefix: string)
  {
    value.Some? && prefix <= value.value
  }

  /** TypeSub(value, prefix): the value with its type prefix removed. */
  function TypeSub(value: string, prefix: string): (r: string)
    ensures prefix <= value ==> prefix + r == value
  {
    if prefix <= value then value[|prefix|..] else value
  }

  lemma TypeSubOfTypeSet(value: string, prefix: string)
    ensures TypeSub(TypeSet(value, prefix), prefix) == value
    ensures TypeIs(Some(TypeSet(value, prefix)), prefix)
  {
  }

  /** `s.Substring(n)`: throws ArgumentOutOfRangeException when s is shorter than n. */
  function Substring(s: string, n: nat): (r: Result<string>)
    ensures r.Success? <==> n <= |s|
    ensures r.Success? ==> s == s[..n] + r.value
  {
    if n <= |s| then Success(s[n..]) else Failure(ArgumentOutOfRange)
  }

  /** `string.IsNullOrWhiteSpace`. */
  predicate IsNullOrWhiteSpace(s: Option<string>)
  {
    s.None? || forall i :: 0 <= i < |s.value| ==> IsWhiteSpace(s.value[i])
  }

  /** `string.IsNullOrEmpty`. */
  predicate IsNullOrEmpty(s: Option<string>)
  {
    s.None? || s.value == ""
  }

  /**
   * `char.IsWhiteSpace`: the Unicode space, line and paragraph separators (U+0020, U+00A0,
   * U+1680, U+2000-U+200A, U+2028, U+2029, U+202F, U+205F, U+3000) and the controls U+0009-U+000D
   * and U+0085.
   */
  predicate IsWhiteSpace(c: char)
  {
    c == ' ' || '\U{9}' <= c <= '\U{D}' || c == '\U{85}' || c == '\U{A0}' || c == '\U{1680}'
    || '\U{2000}' <= c <= '\U{200A}' || c == '\U{2028}' || c == '\U{2029}' || c == '\U{202F}'
    || c == '\U{205F}' || c == '\U{3000}'
  }

  /** C# string `+`: a null operand reads as the empty string. */
  function Concat(a: Option<string>, b: string): string
  {
    OrElse(a, "") + b
  }

  // ---------------------------------------------------------------- record builders

  /** NewEntity(name, content): an unsaved entity (id 0) stamped with the creation time. */
  function NewEntity(name: string, content: string, now: int): (p: EntityPackage)
    ensures p.entity == Entity(0, Some(now), name, content, "")
    ensures p.values == [] && p.relations == []
  {
    EntityPackage(Entity(0, Some(now), name, content, ""), [], [])
  }

  /** NewValue(key, value): an unsaved value, linked to its entity when the package is written. */
  function NewValue(key: string, value: string, now: int): (v: EntityValue)
    ensures v.id == 0 && v.key == key && v.value == value
  {
    EntityValue(0, 0, key, value, Some(now))
  }

  /** NewRelation(from, kind, value): an unsaved relation from `from` to the package's entity. */
  function NewRelation(from: int, kind: string, value: string, now: int): (r: EntityRelation)
    ensures r.id == 0 && r.entityId1 == from && r.kind == kind && r.value == value
  {
    EntityRelation(0, from, 0, kind, value, Some(now))
  }

  /** OnlySingle: nothing for an empty list, the element of a singleton, a fault otherwise. */
  function OnlySingle<T>(s: seq<T>): (r: Result<Option<T>>)
    ensures r.Success? <==> |s| <= 1
    ensures r.Success? && |s| == 1 ==> r.value == Some(s[0])
    ensures r.Success? && |s| == 0 ==> r.value == None
  {
    if |s| == 0 then Success(None)
    else if |s| == 1 then Success(Some(s[0]))
    else Failure(InvalidOperation("Sequence contains more than one element"))
  }
}
