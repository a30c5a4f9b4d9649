/**
  The two query operations the controllers use on in-memory lists and on
  collections: keeping the documents a condition selects (`find({...})`,
  `Array.prototype.filter`) and sorting by a numeric key (the documents'
  `createdAt`), ascending (`sort({ createdAt: 1 })`) or descending
  (`sort({ createdAt: -1 })`). The sort is a stable insertion sort:
  documents with equal keys keep the collection's natural order. The
  database leaves the order of equal keys unspecified, so that tie order is
  a choice of this model; the sortedness and permutation properties do not
  depend on it.
*/
module Queries {

  /**
    The elements of `s` that `keep` selects, in their original order: each
    selected element occurs as often as in `s` (`FilterCount`), and
    `FilterCons` with `FilterAppend` pin down the order.
  */
  function Filter<T(!new)>(s: seq<T>, keep: T -> bool): (r: seq<T>)
    ensures |r| <= |s|
    ensures forall x :: x in r <==> x in s && keep(x)
  {
    if s == [] then []
    else
      assert s == [s[0]] + s[1..];
      if keep(s[0]) then [s[0]] + Filter(s[1..], keep)
      else Filter(s[1..], keep)
  }

  /** Filtering a list with a given first element. */
  lemma FilterCons<T(!new)>(x: T, s: seq<T>, keep: T -> bool)
    ensures Filter([x] + s, keep) == if keep(x) then [x] + Filter(s, keep) else Filter(s, keep)
  {
    assert ([x] + s)[0] == x;
    assert ([x] + s)[1..] == s;
  }

  /** Each selected element occurs as often as in the input, each other one not at all. */
  lemma {:induction false} FilterCount<T(!new)>(s: seq<T>, keep: T -> bool, x: T)
    ensures multiset(Filter(s, keep))[x] == if keep(x) then multiset(s)[x] else 0
  {
    if s != [] {
      FilterCount(s[1..], keep, x);
      assert s == [s[0]] + s[1..];
    }
  }

  /** Filtering a list with a given first element and a given tail after it. */
  lemma FilterConsAppend<T(!new)>(h: T, t: seq<T>, b: seq<T>, keep: T -> bool)
    ensures Filter([h] + t + b, keep) == if keep(h) then [h] + Filter(t + b, keep) else Filter(t + b, keep)
  {
    assert [h] + t + b == [h] + (t + b);
    FilterCons(h, t + b, keep);
  }

  /** One step of `FilterAppend`: putting an element in front of both sides keeps the equation. */
  lemma FilterAppendStep<T(!new)>(h: T, t: seq<T>, b: seq<T>, keep: T -> bool)
    requires Filter(t + b, keep) == Filter(t, keep) + Filter(b, keep)
    ensures Filter([h] + t + b, keep) == Filter([h] + t, keep) + Filter(b, keep)
  {
    var x, y := Filter(t, keep), Filter(b, keep);
    assert [h] + (x + y) == ([h] + x) + y;
    FilterConsAppend(h, t, b, keep);
    FilterCons(h, t, keep);
  }

  /** Filtering a concatenation filters each part. */
  lemma {:induction false} FilterAppend<T(!new)>(a: seq<T>, b: seq<T>, keep: T -> bool)
    ensures Filter(a + b, keep) == Filter(a, keep) + Filter(b, keep)
  {
    if a == [] {
      assert a + b == b;
    } else {
      FilterAppend(a[1..], b, keep);
      FilterAppendStep(a[0], a[1..], b, keep);
      assert a == [a[0]] + a[1..];
    }
  }

  /** A filter that rejects nothing returns the list unchanged. */
  lemma {:induction false} FilterKeepsAll<T(!new)>(s: seq<T>, keep: T -> bool)
    requires forall i | 0 <= i < |s| :: keep(s[i])
    ensures Filter(s, keep) == s
  {
    if s != [] {
      assert keep(s[0]);
      FilterKeepsAll(s[1..], keep);
    }
  }

  /** Two conditions that agree on every element select the same list. */
  lemma {:induction false} FilterSameCondition<T(!new)>(s: seq<T>, p: T -> bool, q: T -> bool)
    requires forall i | 0 <= i < |s| :: p(s[i]) == q(s[i])
    ensures Filter(s, p) == Filter(s, q)
  {
    if s != [] {
      assert p(s[0]) == q(s[0]);
      FilterSameCondition(s[1..], p, q);
    }
  }

  /** A filter that rejects one element and keeps all around it removes exactly that element. */
  lemma {:induction false} FilterDropsOne<T(!new)>(before: seq<T>, x: T, after: seq<T>, keep: T -> bool)
    requires forall i | 0 <= i < |before| :: keep(before[i])
    requires !keep(x)
    requires forall i | 0 <= i < |after| :: keep(after[i])
    ensures Filter(before + [x] + after, keep) == before + after
  {
    var one := Filter([x], keep);
    assert one == [] by {
      assert [x][1..] == [];
    }
    FilterKeepsAll(before, keep);
    FilterKeepsAll(after, keep);
    FilterAppend(before, [x], keep);
    assert Filter(before + [x], keep) == before + one;
    FilterAppend(before + [x], after, keep);
    assert before + one == before;
  }

  /** `x` may come before `y` in the requested direction. */
  predicate Precedes<T>(key: T -> int, ascending: bool, x: T, y: T) {
    if ascending then key(x) <= key(y) else key(x) >= key(y)
  }

  ghost predicate Sorted<T>(s: seq<T>, key: T -> int, ascending: bool) {
    forall i, j :: 0 <= i < j < |s| ==> Precedes(key, ascending, s[i], s[j])
  }

  /** Puts `x` in front of the first element it may precede. */
  function Insert<T(==)>(x: T, s: seq<T>, key: T -> int, ascending: bool): (r: seq<T>)
    requires Sorted(s, key, ascending)
    ensures Sorted(r, key, ascending)
    ensures multiset(r) == multiset(s) + multiset{x}
  {
    if s == [] || Precedes(key, ascending, x, s[0]) then
      [x] + s
    else
      var rest := Insert(x, s[1..], key, ascending);
      assert s == [s[0]] + s[1..];
      forall k | 0 <= k < |rest|
        ensures Precedes(key, ascending, s[0], rest[k])
      {
        assert rest[k] in multiset(rest);
        if rest[k] != x {
          assert rest[k] in multiset(s[1..]);
          var j :| 0 <= j < |s[1..]| && s[1..][j] == rest[k];
          assert s[j + 1] == rest[k];
        }
      }
      [s[0]] + rest
  }

  /** The elements of `s` ordered by `key` in the requested direction. */
  function SortBy<T(==)>(s: seq<T>, key: T -> int, ascending: bool): (r: seq<T>)
    ensures Sorted(r, key, ascending)
    ensures multiset(r) == multiset(s)
    ensures |r| == |s|
  {
    if s == [] then []
    else
      assert s == [s[0]] + s[1..];
      Insert(s[0], SortBy(s[1..], key, ascending), key, ascending)
  }

  /** Sorting keeps exactly the elements it was given. */
  lemma SortByMembers<T>(s: seq<T>, key: T -> int, ascending: bool, x: T)
    ensures x in SortBy(s, key, ascending) <==> x in s
  {
    var r := SortBy(s, key, ascending);
    assert x in r <==> x in multiset(r);
    assert x in s <==> x in multiset(s);
  }
  /**
    `.skip(skip).limit(count)`: up to `count` elements starting at position
    `skip`, and none when `skip` is past the end.
  */
  function Page<T>(s: seq<T>, skip: nat, count: nat): (r: seq<T>)
    ensures |r| == if skip >= |s| then 0 else if count <= |s| - skip then count else |s| - skip
    ensures forall i | 0 <= i < |r| :: r[i] == s[skip + i]
  {
    if skip >= |s| then []
    else if count <= |s| - skip then s[skip..skip + count]
    else s[skip..]
  }

  /** A page of a sorted list is sorted. */
  lemma PageKeepsOrder<T>(s: seq<T>, key: T -> int, ascending: bool, skip: nat, count: nat)
    requires Sorted(s, key, ascending)
    ensures Sorted(Page(s, skip, count), key, ascending)
  {
    var r := Page(s, skip, count);
    forall i, j | 0 <= i < j < |r|
      ensures Precedes(key, ascending, r[i], r[j])
    {
      assert r[i] == s[skip + i] && r[j] == s[skip + j];
    }
  }
}
