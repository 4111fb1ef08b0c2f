/** The three `Array.prototype` methods the screens use: `filter`, which
    keeps the elements a predicate accepts; `find`, which returns the first
    element a predicate accepts, or `undefined` (here None); and `some`, which
    tells whether any element is accepted. */
module JsArray {

  datatype Option<T> = None | Some(value: T)

  /** a is obtained from b by deleting elements: it is an order-preserving sub-list. */
  predicate IsSublist<T(==)>(a: seq<T>, b: seq<T>)
    decreases |b|
  {
    if a == [] then true
    else if b == [] then false
    else if a[0] == b[0] then IsSublist(a[1..], b[1..])
    else IsSublist(a, b[1..])
  }

  /** Every list is a sub-list of itself. */
  lemma {:induction false} SublistReflexive<T>(s: seq<T>)
    ensures IsSublist(s, s)
  {
    if s != [] {
      SublistReflexive(s[1..]);
    }
  }

  /** The members of a sub-list are members of the list. */
  lemma {:induction false} SublistMember<T>(a: seq<T>, b: seq<T>, x: T)
    requires IsSublist(a, b) && x in a
    ensures x in b
    decreases |b|
  {
    if a[0] == b[0] {
      if x != a[0] {
        SublistMember(a[1..], b[1..], x);
      }
    } else {
      SublistMember(a, b[1..], x);
    }
  }

  /** `filter`: the elements of s that keep accepts, in their original order. */
  function Filter<T>(s: seq<T>, keep: T -> bool): (r: seq<T>)
    ensures |r| <= |s|
  {
    if s == [] then []
    else if keep(s[0]) then [s[0]] + Filter(s[1..], keep)
    else Filter(s[1..], keep)
  }

  /** Filter keeps only accepted elements, and every accepted element of s
      is kept; the result is no longer than s. */
  lemma {:induction false} FilterKeepsExactly<T>(s: seq<T>, keep: T -> bool)
    ensures var r := Filter(s, keep);
            |r| <= |s| &&
            (forall k :: 0 <= k < |r| ==> keep(r[k])) &&
            (forall k :: 0 <= k < |s| && keep(s[k]) ==> s[k] in r)
  {
    if s != [] {
      FilterKeepsExactly(s[1..], keep);
      assert forall k :: 1 <= k < |s| ==> s[k] == s[1..][k - 1];
    }
  }

  /** Every occurrence of an accepted element is kept, and none of a rejected
      one: each element occurs in the result as often as in the input when
      accepted, and not at all otherwise. */
  lemma {:induction false} FilterMultiset<T>(s: seq<T>, keep: T -> bool)
    ensures forall x :: multiset(Filter(s, keep))[x] == if keep(x) then multiset(s)[x] else 0
  {
    if s != [] {
      FilterMultiset(s[1..], keep);
      assert s == [s[0]] + s[1..];
    }
  }

  /** The result of Filter is an order-preserving sub-list of its input. */
  lemma {:induction false} FilterIsSublist<T>(s: seq<T>, keep: T -> bool)
    ensures IsSublist(Filter(s, keep), s)
  {
    if s != [] {
      FilterIsSublist(s[1..], keep);
      if !keep(s[0]) && Filter(s[1..], keep) != [] {
        SublistOfTail(Filter(s[1..], keep), s);
      }
    }
  }

  /** A sub-list of the tail of b is a sub-list of b. */
  lemma {:induction false} SublistOfTail<T>(a: seq<T>, b: seq<T>)
    requires b != [] && IsSublist(a, b[1..])
    ensures IsSublist(a, b)
    decreases |b|, 1
  {
    if a != [] && a[0] == b[0] {
      SublistDropHead(a, b[1..]);
    }
  }

  /** Dropping the first element of a sub-list leaves a sub-list. */
  lemma {:induction false} SublistDropHead<T>(a: seq<T>, c: seq<T>)
    requires a != [] && IsSublist(a, c)
    ensures IsSublist(a[1..], c)
    decreases |c|, 2
  {
    if a[0] != c[0] {
      SublistDropHead(a, c[1..]);
    }
    SublistOfTail(a[1..], c);
  }

  /** Filtering with the same predicate twice gives the result of filtering once. */
  lemma {:induction false} FilterIdempotent<T>(s: seq<T>, keep: T -> bool)
    ensures Filter(Filter(s, keep), keep) == Filter(s, keep)
  {
    if s != [] {
      FilterIdempotent(s[1..], keep);
    }
  }

  /** When keep accepts every element, Filter returns its input unchanged. */
  lemma {:induction false} FilterKeepsAll<T>(s: seq<T>, keep: T -> bool)
    requires forall x :: x in s ==> keep(x)
    ensures Filter(s, keep) == s
  {
    if s != [] {
      FilterKeepsAll(s[1..], keep);
    }
  }

  /** A one-element list whose element is accepted is kept whole. */
  lemma FilterSingleton<T>(x: T, keep: T -> bool)
    requires keep(x)
    ensures Filter([x], keep) == [x]
  {
    assert [x][1..] == [];
  }

  /** Filter depends only on the values keep takes on the elements of s. */
  lemma {:induction false} FilterCongruent<T>(s: seq<T>, keep1: T -> bool, keep2: T -> bool)
    requires forall x :: x in s ==> keep1(x) == keep2(x)
    ensures Filter(s, keep1) == Filter(s, keep2)
  {
    if s != [] {
      FilterCongruent(s[1..], keep1, keep2);
    }
  }

  /** `find`: the first element of s that p accepts, if any. */
  function Find<T>(s: seq<T>, p: T -> bool): (r: Option<T>)
    ensures r.None? <==> forall k :: 0 <= k < |s| ==> !p(s[k])
    ensures r.Some? ==> exists k :: 0 <= k < |s| && s[k] == r.value && p(s[k]) &&
                                    forall j :: 0 <= j < k ==> !p(s[j])
  {
    if s == [] then None
    else if p(s[0]) then Some(s[0])
    else
      var r := Find(s[1..], p);
      assert forall k :: 1 <= k < |s| ==> s[k] == s[1..][k - 1];
      r
  }

  /** `some`: whether p accepts at least one element of s. */
  function Any<T>(s: seq<T>, p: T -> bool): (r: bool)
    ensures r <==> exists k :: 0 <= k < |s| && p(s[k])
  {
    if s == [] then false
    else
      assert forall k :: 1 <= k < |s| ==> s[k] == s[1..][k - 1];
      p(s[0]) || Any(s[1..], p)
  }
}
