/** sort.SliceStable by what it promises: the result is ordered, and elements that the comparator
    ties keep their order. That leaves one possible result, which Sort computes by insertion. */
module Sorting {

  predicate Tied<T>(less: (T, T) -> bool, a: T, b: T) {
    !less(a, b) && !less(b, a)
  }

  ghost predicate StrictWeakOrder<T(!new)>(less: (T, T) -> bool) {
    && (forall a :: !less(a, a))
    && (forall a, b, c :: less(a, b) && less(b, c) ==> less(a, c))
    && (forall a, b, c :: Tied(less, a, b) && Tied(less, b, c) ==> Tied(less, a, c))
  }

  ghost predicate Sorted<T>(less: (T, T) -> bool, s: seq<T>) {
    forall i, j :: 0 <= i < j < |s| ==> !less(s[j], s[i])
  }

  /** The elements of s tied with x, in the order of s. */
  function Like<T>(less: (T, T) -> bool, s: seq<T>, x: T): seq<T> {
    if s == [] then []
    else (if Tied(less, s[0], x) then [s[0]] else []) + Like(less, s[1..], x)
  }

  ghost predicate IsStableSort<T(!new)>(less: (T, T) -> bool, s: seq<T>, out: seq<T>) {
    Sorted(less, out) && forall x :: Like(less, out, x) == Like(less, s, x)
  }

  function Insert<T>(less: (T, T) -> bool, x: T, s: seq<T>): seq<T> {
    if s == [] || !less(s[0], x) then [x] + s else [s[0]] + Insert(less, x, s[1..])
  }

  function Sort<T>(less: (T, T) -> bool, s: seq<T>): seq<T> {
    if s == [] then [] else Insert(less, s[0], Sort(less, s[1..]))
  }

  lemma {:induction false} InsertKeepsElements<T>(less: (T, T) -> bool, x: T, s: seq<T>)
    ensures multiset(Insert(less, x, s)) == multiset(s) + multiset{x}
  {
    if s != [] && less(s[0], x) {
      InsertKeepsElements(less, x, s[1..]);
      assert s == [s[0]] + s[1..];
    }
  }

  lemma {:induction false} SortIsPermutation<T>(less: (T, T) -> bool, s: seq<T>)
    ensures multiset(Sort(less, s)) == multiset(s)
  {
    if s != [] {
      SortIsPermutation(less, s[1..]);
      InsertKeepsElements(less, s[0], Sort(less, s[1..]));
      assert s == [s[0]] + s[1..];
    }
  }

  lemma {:induction false} InsertSorts<T(!new)>(less: (T, T) -> bool, x: T, s: seq<T>)
    requires StrictWeakOrder(less) && Sorted(less, s)
    ensures Sorted(less, Insert(less, x, s))
  {
    if s != [] {
      if less(s[0], x) {
        InsertSorts(less, x, s[1..]);
        InsertKeepsElements(less, x, s[1..]);
        var rest := Insert(less, x, s[1..]);
        forall j | 0 <= j < |rest|
          ensures !less(rest[j], s[0])
        {
          assert rest[j] in multiset(rest);
          assert rest[j] == x || rest[j] in s[1..];
        }
      } else {
        forall j | 0 <= j < |s|
          ensures !less(s[j], x)
        {
          BelowSmallest(less, x, s[0], s[j]);
        }
      }
    }
  }

  lemma BelowSmallest<T(!new)>(less: (T, T) -> bool, x: T, low: T, y: T)
    requires StrictWeakOrder(less) && !less(low, x) && !less(y, low)
    ensures !less(y, x)
  {
    assert Tied(less, x, low) || less(x, low);
    assert Tied(less, low, y) || less(low, y);
  }

  lemma NotTiedToBoth<T(!new)>(less: (T, T) -> bool, a: T, b: T, y: T)
    requires StrictWeakOrder(less) && less(a, b)
    ensures !(Tied(less, a, y) && Tied(less, b, y))
  {
    assert Tied(less, b, y) ==> Tied(less, y, b);
  }

  lemma {:induction false} InsertLike<T(!new)>(less: (T, T) -> bool, x: T, s: seq<T>, y: T)
    requires StrictWeakOrder(less)
    ensures Like(less, Insert(less, x, s), y) == Like(less, [x] + s, y)
  {
    assert ([x] + s)[1..] == s;
    if s != [] && less(s[0], x) {
      InsertLike(less, x, s[1..], y);
      NotTiedToBoth(less, s[0], x, y);
      assert ([x] + s[1..])[1..] == s[1..];
      var out := Insert(less, x, s);
      assert out[1..] == Insert(less, x, s[1..]);
    }
  }

  lemma {:induction false} SortIsStable<T(!new)>(less: (T, T) -> bool, s: seq<T>)
    requires StrictWeakOrder(less)
    ensures IsStableSort(less, s, Sort(less, s))
  {
    if s != [] {
      SortIsStable(less, s[1..]);
      InsertSorts(less, s[0], Sort(less, s[1..]));
      forall x
        ensures Like(less, Sort(less, s), x) == Like(less, s, x)
      {
        InsertLike(less, s[0], Sort(less, s[1..]), x);
        assert ([s[0]] + Sort(less, s[1..]))[1..] == Sort(less, s[1..]);
        assert Like(less, Sort(less, s[1..]), x) == Like(less, s[1..], x);
      }
    }
  }

  lemma {:induction false} LikeIsMember<T>(less: (T, T) -> bool, s: seq<T>, x: T)
    ensures forall y :: y in Like(less, s, x) ==> y in s && Tied(less, y, x)
  {
    if s != [] { LikeIsMember(less, s[1..], x); }
  }

  /** The first elements of two stable sorts of the same list agree. */
  lemma SameFirst<T(!new)>(less: (T, T) -> bool, a: seq<T>, b: seq<T>)
    requires StrictWeakOrder(less) && Sorted(less, a) && Sorted(less, b) && a != [] && b != []
    requires forall x :: Like(less, a, x) == Like(less, b, x)
    ensures a[0] == b[0]
  {
    var x := a[0];
    assert Tied(less, x, x) && Tied(less, b[0], b[0]);
    assert x in Like(less, a, x);
    assert Like(less, a, x) == Like(less, b, x);
    LikeIsMember(less, b, x);
    assert x in b;
    assert b[0] in Like(less, b, b[0]);
    assert Like(less, a, b[0]) == Like(less, b, b[0]);
    LikeIsMember(less, a, b[0]);
    assert b[0] in a;
    assert Tied(less, b[0], x);
    assert Like(less, b, x)[0] == b[0];
    assert Like(less, a, x)[0] == a[0];
  }

  /** There is only one stable sort of a list. */
  lemma {:induction false} StableSortIsUnique<T(!new)>(less: (T, T) -> bool, s: seq<T>, a: seq<T>, b: seq<T>)
    requires StrictWeakOrder(less) && IsStableSort(less, s, a) && IsStableSort(less, s, b)
    ensures a == b
  {
    assert forall x :: Like(less, a, x) == Like(less, s, x) && Like(less, b, x) == Like(less, s, x);
    StableUnique(less, a, b);
  }

  lemma LikeSelf<T(!new)>(less: (T, T) -> bool, s: seq<T>)
    requires StrictWeakOrder(less) && s != []
    ensures |Like(less, s, s[0])| > 0
  {
    assert Tied(less, s[0], s[0]);
  }

  lemma {:induction false} StableUnique<T(!new)>(less: (T, T) -> bool, a: seq<T>, b: seq<T>)
    requires StrictWeakOrder(less) && Sorted(less, a) && Sorted(less, b)
    requires forall x :: Like(less, a, x) == Like(less, b, x)
    ensures a == b
    decreases |a|
  {
    if a == [] {
      if b != [] { LikeSelf(less, b); }
    } else if b == [] {
      LikeSelf(less, a);
    } else {
      SameFirst(less, a, b);
      forall x
        ensures Like(less, a[1..], x) == Like(less, b[1..], x)
      {
        assert Like(less, a, x) == Like(less, b, x);
        var head := if Tied(less, a[0], x) then [a[0]] else [];
        assert Like(less, a[1..], x) == Like(less, a, x)[|head|..];
        assert Like(less, b[1..], x) == Like(less, b, x)[|head|..];
      }
      StableUnique(less, a[1..], b[1..]);
      assert a == [a[0]] + a[1..] && b == [b[0]] + b[1..];
    }
  }
}
