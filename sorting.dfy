/**
 * Stable sorting by a comparator, as `Array.prototype.sort` does (its
 * stability is required since ECMA-262 2019) and as a store does for an
 * `orderBy` clause. The comparator is given as `before(a, b)`: `a` must come
 * strictly before `b`. Elements neither of which comes before the other are
 * ties and keep their input order.
 */
module Sorting {
  import opened Common

  /** `before` is a strict weak order: irreflexive, transitive, and ties are transitive. */
  ghost predicate StrictWeakOrder<T(!new)>(before: (T, T) -> bool) {
    && (forall a :: !before(a, a))
    && (forall a, b, c :: before(a, b) && before(b, c) ==> before(a, c))
    && (forall a, b, c :: before(a, c) ==> before(a, b) || before(b, c))
  }

  /** Neither element comes before the other. */
  predicate Tied<T>(before: (T, T) -> bool, a: T, b: T) {
    !before(a, b) && !before(b, a)
  }

  /** The elements tied with `k`. */
  function TiedWith<T>(before: (T, T) -> bool, k: T): T -> bool {
    e => Tied(before, e, k)
  }

  /** No element comes before an element to its left. */
  ghost predicate Sorted<T>(t: seq<T>, before: (T, T) -> bool) {
    forall i, j :: 0 <= i < j < |t| ==> !before(t[j], t[i])
  }

  /** Among every class of tied elements, `a` and `b` list the same elements in the same order. */
  ghost predicate SameTieOrder<T(!new)>(a: seq<T>, b: seq<T>, before: (T, T) -> bool) {
    forall k :: Filter(a, TiedWith(before, k)) == Filter(b, TiedWith(before, k))
  }

  /** Puts `x` after the leading elements that come strictly before it. */
  function Insert<T>(x: T, t: seq<T>, before: (T, T) -> bool): (r: seq<T>)
    ensures |r| == |t| + 1
    ensures multiset(r) == multiset(t) + multiset{x}
  {
    if t == [] || !before(t[0], x) then [x] + t
    else
      assert t == [t[0]] + t[1..];
      [t[0]] + Insert(x, t[1..], before)
  }

  /** Insertion sort from the back: each element is inserted ahead of its ties. */
  function Sort<T>(s: seq<T>, before: (T, T) -> bool): (r: seq<T>)
    ensures |r| == |s|
    ensures multiset(r) == multiset(s)
  {
    if s == [] then []
    else
      assert s == [s[0]] + s[1..];
      Insert(s[0], Sort(s[1..], before), before)
  }

  lemma {:induction false} InsertSorted<T(!new)>(x: T, t: seq<T>, before: (T, T) -> bool)
    requires StrictWeakOrder(before)
    requires Sorted(t, before)
    ensures Sorted(Insert(x, t, before), before)
  {
    if t == [] || !before(t[0], x) {
      var r := [x] + t;
      forall i, j | 0 <= i < j < |r| ensures !before(r[j], r[i]) {
        if i == 0 && j > 1 {
          assert !before(t[j - 1], t[0]);
        }
      }
    } else {
      var rest := Insert(x, t[1..], before);
      InsertSorted(x, t[1..], before);
      var r := [t[0]] + rest;
      forall i, j | 0 <= i < j < |r| ensures !before(r[j], r[i]) {
        if i == 0 {
          var y := rest[j - 1];
          assert y in multiset(rest);
          if y == x {
          } else {
            assert y in multiset(t[1..]);
            var m :| 0 <= m < |t[1..]| && t[1..][m] == y;
            assert t[m + 1] == y;
          }
        }
      }
    }
  }

  /** The sort's output is ordered. */
  lemma {:induction false} SortSorted<T(!new)>(s: seq<T>, before: (T, T) -> bool)
    requires StrictWeakOrder(before)
    ensures Sorted(Sort(s, before), before)
  {
    if s != [] {
      SortSorted(s[1..], before);
      InsertSorted(s[0], Sort(s[1..], before), before);
    }
  }

  /** Two elements tied with the same `k` are tied with each other. */
  lemma TiedTransitive<T(!new)>(before: (T, T) -> bool, a: T, b: T, k: T)
    requires StrictWeakOrder(before)
    requires Tied(before, a, k) && Tied(before, b, k)
    ensures !before(a, b)
  {
  }

  lemma {:induction false} InsertStable<T(!new)>(x: T, t: seq<T>, before: (T, T) -> bool, k: T)
    requires StrictWeakOrder(before)
    ensures Filter(Insert(x, t, before), TiedWith(before, k)) == Filter([x] + t, TiedWith(before, k))
  {
    var p := TiedWith(before, k);
    if t != [] && before(t[0], x) {
      var t0, rest := t[0], t[1..];
      assert t == [t0] + rest;
      InsertStable(x, rest, before, k);
      FilterConcat([t0], Insert(x, rest, before), p);
      FilterConcat([x], rest, p);
      FilterConcat([x], t, p);
      FilterConcat([t0], rest, p);
      FilterSingleton(x, p);
      FilterSingleton(t0, p);
      assert !(p(x) && p(t0)) by {
        if p(x) && p(t0) {
          TiedTransitive(before, t0, x, k);
        }
      }
      calc {
        Filter(Insert(x, t, before), p);
        Filter([t0], p) + Filter(Insert(x, rest, before), p);
        Filter([t0], p) + (Filter([x], p) + Filter(rest, p));
        Filter([x], p) + (Filter([t0], p) + Filter(rest, p));
        Filter([x], p) + Filter(t, p);
        Filter([x] + t, p);
      }
    }
  }

  /** Tied elements keep their input order. */
  lemma {:induction false} SortStable<T(!new)>(s: seq<T>, before: (T, T) -> bool, k: T)
    requires StrictWeakOrder(before)
    ensures Filter(Sort(s, before), TiedWith(before, k)) == Filter(s, TiedWith(before, k))
  {
    if s != [] {
      var p := TiedWith(before, k);
      SortStable(s[1..], before, k);
      InsertStable(s[0], Sort(s[1..], before), before, k);
      FilterConcat([s[0]], Sort(s[1..], before), p);
      FilterConcat([s[0]], s[1..], p);
      assert s == [s[0]] + s[1..];
    }
  }

  /** The sort is stable in every class of ties. */
  lemma SortSameTieOrder<T(!new)>(s: seq<T>, before: (T, T) -> bool)
    requires StrictWeakOrder(before)
    ensures SameTieOrder(Sort(s, before), s, before)
  {
    forall k {
      SortStable(s, before, k);
    }
  }

  /** The first elements of two sorted permutations of each other are tied. */
  lemma SortedHeadsTied<T(!new)>(a: seq<T>, b: seq<T>, before: (T, T) -> bool)
    requires StrictWeakOrder(before)
    requires Sorted(a, before) && Sorted(b, before)
    requires multiset(a) == multiset(b) && a != []
    ensures b != [] && Tied(before, a[0], b[0])
  {
    assert a[0] in multiset(b);
    var i :| 0 <= i < |b| && b[i] == a[0];
    assert b[0] in multiset(a);
    var j :| 0 <= j < |a| && a[j] == b[0];
    if i > 0 { assert !before(b[i], b[0]); }
    if j > 0 { assert !before(a[j], a[0]); }
  }

  /** Dropping equal first elements keeps equal filters equal. */
  lemma FilterTails<T(!new)>(a: seq<T>, b: seq<T>, q: T -> bool)
    requires a != [] && b != [] && a[0] == b[0]
    requires Filter(a, q) == Filter(b, q)
    ensures Filter(a[1..], q) == Filter(b[1..], q)
  {
    assert a == [a[0]] + a[1..] && b == [b[0]] + b[1..];
    FilterConcat([a[0]], a[1..], q);
    FilterConcat([b[0]], b[1..], q);
    var h := Filter([a[0]], q);
    assert Filter(a[1..], q) == Filter(a, q)[|h|..];
    assert Filter(b[1..], q) == Filter(b, q)[|h|..];
  }

  /** Dropping equal first elements keeps the same order among ties. */
  lemma SameTieOrderTails<T(!new)>(a: seq<T>, b: seq<T>, before: (T, T) -> bool)
    requires a != [] && b != [] && a[0] == b[0]
    requires SameTieOrder(a, b, before)
    ensures SameTieOrder(a[1..], b[1..], before)
  {
    forall k ensures Filter(a[1..], TiedWith(before, k)) == Filter(b[1..], TiedWith(before, k)) {
      FilterTails(a, b, TiedWith(before, k));
    }
  }

  lemma MultisetTail<T>(a: seq<T>)
    requires a != []
    ensures multiset(a[1..]) == multiset(a) - multiset{a[0]}
  {
    assert a == [a[0]] + a[1..];
    assert multiset(a) == multiset([a[0]]) + multiset(a[1..]);
  }

  /** Sorting neither adds nor drops an element. */
  lemma SortMembers<T>(s: seq<T>, before: (T, T) -> bool)
    ensures forall x :: x in Sort(s, before) <==> x in s
  {
    var r := Sort(s, before);
    assert forall x :: x in r <==> x in multiset(r);
  }

  /** Two sorted, stable permutations of each other start with the same element. */
  lemma SameHead<T(!new)>(a: seq<T>, b: seq<T>, before: (T, T) -> bool)
    requires StrictWeakOrder(before)
    requires Sorted(a, before) && Sorted(b, before)
    requires multiset(a) == multiset(b) && a != []
    requires SameTieOrder(a, b, before)
    ensures b != [] && a[0] == b[0]
  {
    SortedHeadsTied(a, b, before);
    var p := TiedWith(before, a[0]);
    assert Filter(a, p) == Filter(b, p);
    assert a == [a[0]] + a[1..] && b == [b[0]] + b[1..];
    FilterConcat([a[0]], a[1..], p);
    FilterConcat([b[0]], b[1..], p);
    FilterSingleton(a[0], p);
    FilterSingleton(b[0], p);
    assert p(a[0]) && p(b[0]);
    assert Filter(a, p)[0] == a[0] && Filter(b, p)[0] == b[0];
  }

  lemma SortedTail<T>(a: seq<T>, before: (T, T) -> bool)
    requires a != [] && Sorted(a, before)
    ensures Sorted(a[1..], before)
  {
    forall i, j | 0 <= i < j < |a[1..]| ensures !before(a[1..][j], a[1..][i]) {
      assert a[1..][j] == a[j + 1] && a[1..][i] == a[i + 1];
    }
  }

  /** Past an equal first element, two sorted, stable permutations of each other still are. */
  lemma TailsAgree<T(!new)>(a: seq<T>, b: seq<T>, before: (T, T) -> bool)
    requires Sorted(a, before) && Sorted(b, before)
    requires multiset(a) == multiset(b) && a != [] && b != [] && a[0] == b[0]
    requires SameTieOrder(a, b, before)
    ensures Sorted(a[1..], before) && Sorted(b[1..], before)
    ensures multiset(a[1..]) == multiset(b[1..])
    ensures SameTieOrder(a[1..], b[1..], before)
  {
    SortedTail(a, before);
    SortedTail(b, before);
    SameTieOrderTails(a, b, before);
    MultisetTail(a);
    MultisetTail(b);
  }

  /**
   * A sorted, stable permutation is unique: any stable sort of `s` (the
   * engine's `sort`, a store's `orderBy`) gives exactly `Sort(s, before)`.
   */
  lemma {:induction false} StableSortUnique<T(!new)>(a: seq<T>, b: seq<T>, before: (T, T) -> bool)
    requires StrictWeakOrder(before)
    requires Sorted(a, before) && Sorted(b, before)
    requires multiset(a) == multiset(b)
    requires SameTieOrder(a, b, before)
    ensures a == b
  {
    if a != [] {
      SameHead(a, b, before);
      TailsAgree(a, b, before);
      StableSortUnique(a[1..], b[1..], before);
      assert a == [a[0]] + a[1..] && b == [b[0]] + b[1..];
    }
  }

  /** `Sort` is the one stable sort: a sorted, stable permutation of `s` equals it. */
  lemma SortIsTheStableSort<T(!new)>(s: seq<T>, r: seq<T>, before: (T, T) -> bool)
    requires StrictWeakOrder(before)
    requires Sorted(r, before) && multiset(r) == multiset(s) && SameTieOrder(r, s, before)
    ensures r == Sort(s, before)
  {
    SortSorted(s, before);
    SortSameTieOrder(s, before);
    StableSortUnique(r, Sort(s, before), before);
  }

  lemma {:induction false} InsertCount<T(!new)>(x: T, t: seq<T>, before: (T, T) -> bool, p: T -> bool)
    ensures Count(Insert(x, t, before), p) == Count(t, p) + (if p(x) then 1 else 0)
  {
    if t == [] || !before(t[0], x) {
      FilterConcat([x], t, p);
      FilterSingleton(x, p);
    } else {
      InsertCount(x, t[1..], before, p);
      FilterConcat([t[0]], Insert(x, t[1..], before), p);
      FilterConcat([t[0]], t[1..], p);
      assert t == [t[0]] + t[1..];
    }
  }

  /** Sorting keeps how many elements satisfy any condition. */
  lemma {:induction false} SortCount<T(!new)>(s: seq<T>, before: (T, T) -> bool, p: T -> bool)
    ensures Count(Sort(s, before), p) == Count(s, p)
  {
    if s != [] {
      SortCount(s[1..], before, p);
      InsertCount(s[0], Sort(s[1..], before), before, p);
      FilterConcat([s[0]], s[1..], p);
      FilterSingleton(s[0], p);
      assert s == [s[0]] + s[1..];
    }
  }
}
