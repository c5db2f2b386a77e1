/** Ordered iteration and sorting.

    `std::map` iterates its keys in ascending order and `std::sort` is specified by its comparator;
    both are modelled by functions whose results are determined by their elements alone. */
module Orders {

  /** A strict total order: the comparators handed to `std::sort` in the program. */
  ghost predicate TotalOrder<T(!new)>(less: (T, T) -> bool) {
    && (forall a :: !less(a, a))
    && (forall a, b :: a != b ==> less(a, b) || less(b, a))
    && (forall a, b, c :: less(a, b) && less(b, c) ==> less(a, c))
  }

  /** Ascending, equal neighbours allowed. */
  ghost predicate SortedBy<T>(s: seq<T>, less: (T, T) -> bool) {
    forall i, j | 0 <= i < j < |s| :: !less(s[j], s[i])
  }

  ghost predicate Distinct<T>(s: seq<T>) {
    forall i, j | 0 <= i < j < |s| :: s[i] != s[j]
  }

  ghost function Elements<T>(s: seq<T>): set<T> {
    set x | x in s
  }

  function InsertBy<T>(x: T, s: seq<T>, less: (T, T) -> bool): (r: seq<T>)
    ensures |r| == |s| + 1
  {
    if s == [] || less(x, s[0]) then [x] + s else [s[0]] + InsertBy(x, s[1..], less)
  }

  function SortBy<T>(s: seq<T>, less: (T, T) -> bool): (r: seq<T>)
    ensures |r| == |s|
  {
    if s == [] then [] else InsertBy(s[0], SortBy(s[1..], less), less)
  }

  lemma {:induction false} InsertByPermutes<T>(x: T, s: seq<T>, less: (T, T) -> bool)
    ensures multiset(InsertBy(x, s, less)) == multiset([x] + s)
  {
    if s == [] || less(x, s[0]) {
    } else {
      InsertByPermutes(x, s[1..], less);
      assert s == [s[0]] + s[1..];
    }
  }

  /** Enough for sorting: elements that compare equal may differ. */
  ghost predicate WeakOrder<T(!new)>(less: (T, T) -> bool) {
    && (forall a, b :: less(a, b) ==> !less(b, a))
    && (forall a, b, c :: !less(a, b) && !less(b, c) ==> !less(a, c))
  }

  lemma TotalIsWeak<T(!new)>(less: (T, T) -> bool)
    requires TotalOrder(less)
    ensures WeakOrder(less)
  {
    forall a, b, c | !less(a, b) && !less(b, c)
      ensures !less(a, c)
    {
      assert a == b || less(b, a);
      assert b == c || less(c, b);
    }
  }

  lemma {:induction false} InsertBySorted<T(!new)>(x: T, s: seq<T>, less: (T, T) -> bool)
    requires WeakOrder(less) && SortedBy(s, less)
    ensures SortedBy(InsertBy(x, s, less), less)
  {
    if s == [] {
    } else if less(x, s[0]) {
      forall y | y in s
        ensures !less(y, x)
      {
        assert !less(y, s[0]);
      }
      SortedPrepend(x, s, less);
    } else {
      var rest := InsertBy(x, s[1..], less);
      InsertBySorted(x, s[1..], less);
      InsertByPermutes(x, s[1..], less);
      SameMembers(rest, [x] + s[1..]);
      SortedPrepend(s[0], rest, less);
    }
  }

  lemma SortedPrepend<T>(x: T, s: seq<T>, less: (T, T) -> bool)
    requires SortedBy(s, less) && forall y | y in s :: !less(y, x)
    ensures SortedBy([x] + s, less)
  {
  }

  /** Sorting permutes, and the result is ascending. */
  lemma SortByCorrect<T(!new)>(s: seq<T>, less: (T, T) -> bool)
    requires TotalOrder(less)
    ensures multiset(SortBy(s, less)) == multiset(s)
    ensures SortedBy(SortBy(s, less), less)
  {
    TotalIsWeak(less);
    SortByWeak(s, less);
  }

  lemma {:induction false} SortByWeak<T(!new)>(s: seq<T>, less: (T, T) -> bool)
    requires WeakOrder(less)
    ensures multiset(SortBy(s, less)) == multiset(s)
    ensures SortedBy(SortBy(s, less), less)
  {
    if s != [] {
      SortByWeak(s[1..], less);
      InsertBySorted(s[0], SortBy(s[1..], less), less);
      InsertByPermutes(s[0], SortBy(s[1..], less), less);
      assert s == [s[0]] + s[1..];
    }
  }

  lemma SortedFirst<T(!new)>(s: seq<T>, t: seq<T>, less: (T, T) -> bool)
    requires TotalOrder(less) && SortedBy(s, less) && SortedBy(t, less)
    requires s != [] && t != [] && s[0] in t && t[0] in s
    ensures s[0] == t[0]
  {
  }

  /** A multiset has only one ascending arrangement. */
  lemma {:induction false} SortedUnique<T(!new)>(s: seq<T>, t: seq<T>, less: (T, T) -> bool)
    requires TotalOrder(less) && SortedBy(s, less) && SortedBy(t, less)
    requires multiset(s) == multiset(t)
    ensures s == t
  {
    SameMembers(s, t);
    if s != [] {
      SortedFirst(s, t, less);
      assert s == [s[0]] + s[1..] && t == [t[0]] + t[1..];
      assert multiset(s[1..]) == multiset(s) - multiset{s[0]} == multiset(t[1..]);
      SortedTail(s, less);
      SortedTail(t, less);
      hide TotalOrder, SortedBy;
      SortedUnique(s[1..], t[1..], less);
    }
  }

  lemma SortedTail<T>(s: seq<T>, less: (T, T) -> bool)
    requires s != [] && SortedBy(s, less)
    ensures SortedBy(s[1..], less)
  {
  }

  /** Sorting forgets the order of its input. */
  lemma SortByPermutation<T(!new)>(s: seq<T>, t: seq<T>, less: (T, T) -> bool)
    requires TotalOrder(less) && multiset(s) == multiset(t)
    ensures SortBy(s, less) == SortBy(t, less)
  {
    SortByCorrect(s, less);
    SortByCorrect(t, less);
    SortedUnique(SortBy(s, less), SortBy(t, less), less);
  }

  /** Comparators that agree sort alike. */
  lemma {:induction false} SortByAgrees<T(!new)>(
    s: seq<T>, less: (T, T) -> bool, less': (T, T) -> bool)
    requires forall a, b :: less(a, b) == less'(a, b)
    ensures SortBy(s, less) == SortBy(s, less')
  {
    if s != [] {
      SortByAgrees(s[1..], less, less');
      InsertByAgrees(s[0], SortBy(s[1..], less), less, less');
    }
  }

  lemma {:induction false} InsertByAgrees<T(!new)>(
    x: T, s: seq<T>, less: (T, T) -> bool, less': (T, T) -> bool)
    requires forall a, b :: less(a, b) == less'(a, b)
    ensures InsertBy(x, s, less) == InsertBy(x, s, less')
  {
    if s != [] && !less(x, s[0]) {
      InsertByAgrees(x, s[1..], less, less');
    }
  }

  lemma SameMembers<T>(s: seq<T>, t: seq<T>)
    requires multiset(s) == multiset(t)
    ensures |s| == |t|
    ensures forall x :: x in s <==> x in t
  {
    assert |s| == |multiset(s)| == |multiset(t)| == |t|;
    assert forall x :: x in s <==> x in multiset(s);
    assert forall x :: x in t <==> x in multiset(t);
  }

  lemma RemoveMiddle<T>(front: seq<T>, x: T, back: seq<T>)
    ensures multiset(front + back) == multiset(front + [x] + back) - multiset{x}
  {
  }

  /** Taking the same element out of two arrangements leaves arrangements of the same rest. */
  lemma RemoveEqual<T>(s: seq<T>, t: seq<T>, i: nat)
    requires multiset(s) == multiset(t) && s != [] && i < |t| && t[i] == s[|s| - 1]
    ensures multiset(s[..|s| - 1]) == multiset(t[..i] + t[i + 1..])
  {
    var last := |s| - 1;
    assert s == s[..last] + [s[last]] + [] && s[..last] + [] == s[..last];
    assert t == t[..i] + [t[i]] + t[i + 1..];
    RemoveMiddle(s[..last], s[last], []);
    RemoveMiddle(t[..i], t[i], t[i + 1..]);
  }

  lemma DistinctPermutation<T>(s: seq<T>, t: seq<T>)
    requires multiset(s) == multiset(t) && Distinct(s)
    ensures Distinct(t)
  {
    DistinctMultiset(s);
    forall i, j | 0 <= i < j < |t|
      ensures t[i] != t[j]
    {
      TwoPositions(t, i, j);
    }
  }

  lemma TwoPositions<T>(t: seq<T>, i: nat, j: nat)
    requires i < j < |t|
    ensures t[i] == t[j] ==> multiset(t)[t[i]] >= 2
  {
    assert t == t[..j] + t[j..];
    assert t[i] in t[..j] && t[j] in t[j..];
  }

  // ---- Ascending iteration over keys -----------------------------------------------------------

  predicate NatLess(a: nat, b: nat) { a < b }

  ghost predicate Ascending(s: seq<nat>) {
    forall i, j | 0 <= i < j < |s| :: s[i] < s[j]
  }

  predicate IsLeast(m: nat, s: set<nat>) {
    m in s && forall x | x in s :: m <= x
  }

  lemma {:induction false} LeastExists(s: set<nat>) returns (m: nat)
    requires s != {}
    ensures IsLeast(m, s)
  {
    var x :| x in s;
    m := x;
    if s != {x} {
      var y := LeastExists(s - {x});
      m := if x < y then x else y;
      assert s == s - {x} + {x};
    }
  }

  lemma LeastDefined(s: set<nat>)
    requires s != {}
    ensures exists m :: IsLeast(m, s)
  {
    var _ := LeastExists(s);
  }

  function Least(s: set<nat>): (m: nat)
    requires s != {}
    ensures IsLeast(m, s)
  {
    LeastDefined(s);
    var m :| IsLeast(m, s);
    m
  }

  /** The iteration order of a `std::map` keyed by byte arrays. */
  function Keys(s: set<nat>): (ks: seq<nat>)
    ensures Ascending(ks)
    ensures forall x :: x in ks <==> x in s
    ensures |ks| == |s|
  {
    if s == {} then [] else
      var m := Least(s);
      var rest := Keys(s - {m});
      assert forall i | 0 <= i < |rest| :: rest[i] in s - {m};
      [m] + rest
  }

  /** A set has only one ascending enumeration, so sorting any enumeration finds it. */
  lemma SortIsKeys(s: seq<nat>, ids: set<nat>)
    requires Distinct(s) && forall x :: x in s <==> x in ids
    ensures SortBy(s, NatLess) == Keys(ids)
  {
    var keys := Keys(ids);
    SortByCorrect(s, NatLess);
    DistinctSameMultiset(s, keys);
    SortedUnique(SortBy(s, NatLess), keys, NatLess);
  }

  lemma DistinctSameMultiset<T>(s: seq<T>, t: seq<T>)
    requires Distinct(s) && Distinct(t) && forall x :: x in s <==> x in t
    ensures multiset(s) == multiset(t)
  {
    DistinctMultiset(s);
    DistinctMultiset(t);
    forall x
      ensures multiset(s)[x] == multiset(t)[x]
    {
      assert x in s <==> x in t;
    }
  }

  lemma {:induction false} DistinctMultiset<T>(s: seq<T>)
    requires Distinct(s)
    ensures forall x :: multiset(s)[x] == if x in s then 1 else 0
  {
    if s != [] {
      var front, last := s[..|s| - 1], s[|s| - 1];
      DistinctMultiset(front);
      assert s == front + [last];
      assert last !in front;
    }
  }

  lemma DistinctConcat<T>(s: seq<T>, t: seq<T>)
    requires Distinct(s) && Distinct(t) && forall x | x in s :: x !in t
    ensures Distinct(s + t)
  {
    forall i, j | 0 <= i < j < |s + t|
      ensures (s + t)[i] != (s + t)[j]
    {
      assert i < |s| ==> (s + t)[i] in s;
      assert |s| <= j ==> (s + t)[j] in t;
    }
  }

  lemma DistinctSize<T>(s: seq<T>)
    requires Distinct(s)
    ensures |Elements(s)| == |s|
  {
    if s != [] {
      var front, last := s[..|s| - 1], s[|s| - 1];
      DistinctSize(front);
      assert Elements(s) == Elements(front) + {last};
    }
  }
}
