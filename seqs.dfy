/** Sequence comprehensions the LINQ queries of the repository are built from. */
module Seqs {

  /** `Where`: keeps the elements satisfying p, in order. */
  function Filter<T(!new)>(s: seq<T>, p: T -> bool): (r: seq<T>)
    ensures |r| <= |s|
    ensures forall x :: x in r ==> x in s && p(x)
    ensures forall x :: x in s && p(x) ==> x in r
  {
    if s == [] then [] else (if p(s[0]) then [s[0]] else []) + Filter(s[1..], p)
  }

  /** `Select`: applies f to every element, in order. */
  function Map<T, U>(s: seq<T>, f: T -> U): (r: seq<U>)
    ensures |r| == |s|
    ensures forall i :: 0 <= i < |s| ==> r[i] == f(s[i])
  {
    if s == [] then [] else [f(s[0])] + Map(s[1..], f)
  }

  lemma {:induction false} FilterAppend<T(!new)>(a: seq<T>, b: seq<T>, p: T -> bool)
    ensures Filter(a + b, p) == Filter(a, p) + Filter(b, p)
  {
    if a == [] {
      assert a + b == b;
    } else {
      assert (a + b)[1..] == a[1..] + b;
      FilterAppend(a[1..], b, p);
    }
  }

  lemma {:induction false} MapAppend<T, U>(a: seq<T>, b: seq<T>, f: T -> U)
    ensures Map(a + b, f) == Map(a, f) + Map(b, f)
  {
  }

  lemma {:induction false} FilterNone<T(!new)>(s: seq<T>, p: T -> bool)
    requires forall x :: x in s ==> !p(x)
    ensures Filter(s, p) == []
  {
    if s != [] {
      FilterNone(s[1..], p);
    }
  }

  lemma {:induction false} FilterAll<T(!new)>(s: seq<T>, p: T -> bool)
    requires forall x :: x in s ==> p(x)
    ensures Filter(s, p) == s
  {
    if s != [] {
      FilterAll(s[1..], p);
    }
  }

  /** Writing an element back over its update restores the sequence. */
  lemma UpdateBack<T>(s: seq<T>, i: nat, x: T)
    requires i < |s|
    ensures s[i := x][i := s[i]] == s
  {
  }

  /** A non-empty sequence holds its first element. */
  lemma FirstIn<T>(s: seq<T>)
    requires |s| > 0
    ensures s[0] in s
  {
  }

  /** Filtering after replacing one element that the predicate rejects before and after. */
  lemma {:induction false} FilterUpdateRejected<T(!new)>(s: seq<T>, i: nat, x: T, p: T -> bool)
    requires i < |s| && !p(s[i]) && !p(x)
    ensures Filter(s[i := x], p) == Filter(s, p)
  {
    assert s == s[..i] + [s[i]] + s[i + 1..];
    assert s[i := x] == s[..i] + [x] + s[i + 1..];
    FilterAppend(s[..i] + [s[i]], s[i + 1..], p);
    FilterAppend(s[..i], [s[i]], p);
    FilterAppend(s[..i] + [x], s[i + 1..], p);
    FilterAppend(s[..i], [x], p);
  }

  /** Replacing the one accepted element by a rejected one leaves nothing accepted. */
  lemma FilterUpdateOnly<T(!new)>(s: seq<T>, i: nat, x: T, p: T -> bool)
    requires i < |s| && p(s[i]) && !p(x) && Filter(s, p) == [s[i]]
    ensures Filter(s[i := x], p) == []
  {
    assert s == s[..i] + [s[i]] + s[i + 1..];
    assert s[i := x] == s[..i] + [x] + s[i + 1..];
    FilterAppend(s[..i] + [s[i]], s[i + 1..], p);
    FilterAppend(s[..i], [s[i]], p);
    FilterAppend(s[..i] + [x], s[i + 1..], p);
    FilterAppend(s[..i], [x], p);
  }

  /** Two predicates that agree on the elements select the same elements. */
  lemma {:induction false} FilterSame<T(!new)>(s: seq<T>, p: T -> bool, q: T -> bool)
    requires forall x :: x in s ==> p(x) == q(x)
    ensures Filter(s, p) == Filter(s, q)
  {
    if s != [] {
      FilterSame(s[1..], p, q);
    }
  }

  /** Filtering twice is filtering once by both predicates. */
  lemma {:induction false} FilterFilter<T(!new)>(s: seq<T>, p: T -> bool, q: T -> bool, pq: T -> bool)
    requires forall x :: x in s ==> pq(x) == (p(x) && q(x))
    ensures Filter(Filter(s, p), q) == Filter(s, pq)
  {
    if s != [] {
      FilterFilter(s[1..], p, q, pq);
      var rest := Filter(s[1..], p);
      if p(s[0]) {
        assert Filter(s, p) == [s[0]] + rest;
        assert ([s[0]] + rest)[0] == s[0] && ([s[0]] + rest)[1..] == rest;
        assert Filter([s[0]] + rest, q) == (if q(s[0]) then [s[0]] else []) + Filter(rest, q);
      } else {
        assert Filter(s, p) == rest;
      }
    }
  }

  /** True when no value occurs twice. */
  predicate NoDuplicates<T(==)>(s: seq<T>) {
    forall i, j :: 0 <= i < j < |s| ==> s[i] != s[j]
  }

  /** Appending one element keeps a list duplicate-free exactly when the element is new. */
  lemma NoDuplicatesSnoc<T>(s: seq<T>, x: T)
    ensures NoDuplicates(s + [x]) <==> NoDuplicates(s) && x !in s
  {
    assert forall i :: 0 <= i < |s| ==> (s + [x])[i] == s[i];
    if x in s {
      var k :| 0 <= k < |s| && s[k] == x;
      assert (s + [x])[k] == (s + [x])[|s|];
    }
  }

  /** A duplicate in a prefix is a duplicate of the whole. */
  lemma DuplicatesExtend<T>(a: seq<T>, b: seq<T>)
    requires !NoDuplicates(a)
    ensures !NoDuplicates(a + b)
  {
    var i, j :| 0 <= i < j < |a| && a[i] == a[j];
    assert (a + b)[i] == (a + b)[j];
  }

  /** LINQ `Distinct`: the first occurrence of every value, in order. */
  function Distinct<T(==)>(s: seq<T>): (d: seq<T>)
    ensures NoDuplicates(d)
    ensures forall i :: 0 <= i < |d| ==> d[i] in s
    ensures forall i :: 0 <= i < |s| ==> s[i] in d
    ensures |d| <= |s|
  {
    if s == [] then []
    else
      var d := Distinct(s[..|s| - 1]);
      assert forall i :: 0 <= i < |s| - 1 ==> s[i] == s[..|s| - 1][i];
      if s[|s| - 1] in d then d else d + [s[|s| - 1]]
  }

  /** Distinct keeps the length exactly when there is nothing to drop. */
  lemma {:induction false} DistinctLength<T>(s: seq<T>)
    ensures |Distinct(s)| == |s| <==> NoDuplicates(s)
  {
    if s != [] {
      var front, last := s[..|s| - 1], s[|s| - 1];
      DistinctLength(front);
      if NoDuplicates(front) {
        if last in front {
          var k :| 0 <= k < |front| && front[k] == last;
          assert s[k] == s[|s| - 1];
        } else {
          forall i, j | 0 <= i < j < |s| ensures s[i] != s[j] {
            if j < |s| - 1 {
              assert s[i] == front[i] && s[j] == front[j];
            } else {
              assert s[i] in front;
            }
          }
        }
      } else {
        var i, j :| 0 <= i < j < |front| && front[i] == front[j];
        assert s[i] == s[j];
      }
    }
  }
}
