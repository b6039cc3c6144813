/** Sorting by a strict order, as `sort.Slice`, `slices.SortFunc` and `sort.Strings` do. */
module Ordering {

  import opened Bytes

  /** A strict weak order: elements that neither way compare count as equal. */
  ghost predicate WeakOrder<T(!new)>(less: (T, T) -> bool) {
    && (forall x :: !less(x, x))
    && (forall x, y, z :: less(x, y) && less(y, z) ==> less(x, z))
    && (forall x, y, z :: less(x, z) ==> less(x, y) || less(y, z))
  }

  /** A strict order in which any two distinct elements compare. */
  ghost predicate TotalOrder<T(!new)>(less: (T, T) -> bool) {
    && (forall x :: !less(x, x))
    && (forall x, y, z :: less(x, y) && less(y, z) ==> less(x, z))
    && (forall x, y :: x == y || less(x, y) || less(y, x))
  }

  ghost predicate Sorted<T(!new)>(less: (T, T) -> bool, s: seq<T>) {
    forall i, j :: 0 <= i < j < |s| ==> !less(s[j], s[i])
  }

  ghost predicate StrictlySorted<T(!new)>(less: (T, T) -> bool, s: seq<T>) {
    forall i, j :: 0 <= i < j < |s| ==> less(s[i], s[j])
  }

  ghost predicate Distinct<T>(s: seq<T>) {
    forall i, j :: 0 <= i < j < |s| ==> s[i] != s[j]
  }

  function Elements<T>(s: seq<T>): (r: set<T>) {
    set x | x in s
  }

  function Insert<T>(less: (T, T) -> bool, x: T, s: seq<T>): (r: seq<T>)
    ensures multiset(r) == multiset(s) + multiset{x}
    ensures |r| == |s| + 1
  {
    if s == [] || !less(s[0], x) then [x] + s
    else
      assert s == [s[0]] + s[1..];
      [s[0]] + Insert(less, x, s[1..])
  }

  /** Insertion sort: the specification of every sort call in the program. */
  function Sort<T>(less: (T, T) -> bool, s: seq<T>): (r: seq<T>)
    ensures multiset(r) == multiset(s)
    ensures |r| == |s|
  {
    if s == [] then []
    else
      assert s == [s[0]] + s[1..];
      Insert(less, s[0], Sort(less, s[1..]))
  }

  lemma {:induction false} InsertSorted<T(!new)>(less: (T, T) -> bool, x: T, s: seq<T>)
    requires WeakOrder(less) && Sorted(less, s)
    ensures Sorted(less, Insert(less, x, s))
  {
    if s != [] && less(s[0], x) {
      InsertSorted(less, x, s[1..]);
      var t := Insert(less, x, s[1..]);
      forall k | 0 <= k < |t| ensures !less(t[k], s[0]) {
        assert t[k] in multiset(t);
        assert t[k] == x || t[k] in s[1..];
      }
    }
  }

  lemma {:induction false} SortSorts<T(!new)>(less: (T, T) -> bool, s: seq<T>)
    requires WeakOrder(less)
    ensures Sorted(less, Sort(less, s))
  {
    if s != [] {
      SortSorts(less, s[1..]);
      InsertSorted(less, s[0], Sort(less, s[1..]));
    }
  }

  lemma TotalIsWeak<T(!new)>(less: (T, T) -> bool)
    requires TotalOrder(less)
    ensures WeakOrder(less)
  {
    forall x, y, z | less(x, z) ensures less(x, y) || less(y, z) {
      assert x == y || less(x, y) || less(y, x);
    }
  }

  // ---------------------------------------------------------------------------
  // Sizes of sets

  lemma SubsetSize<T>(a: set<T>, b: set<T>)
    requires a <= b
    ensures |a| <= |b|
  {
    assert b == a + (b - a);
    assert |b| == |a| + |b - a|;
  }

  lemma SubsetFull<T>(a: set<T>, b: set<T>)
    requires a <= b && |a| >= |b|
    ensures a == b
  {
    assert b == a + (b - a);
    assert |b| == |a| + |b - a|;
  }

  // ---------------------------------------------------------------------------
  // Strictly sorted listings

  lemma DistinctCard<T>(s: seq<T>)
    requires Distinct(s)
    ensures |Elements(s)| == |s|
  {
    if s != [] {
      var init, last := s[..|s| - 1], s[|s| - 1];
      DistinctCard(init);
      assert s == init + [last];
      assert Elements(s) == Elements(init) + {last};
    }
  }

  lemma StrictIsDistinct<T(!new)>(less: (T, T) -> bool, s: seq<T>)
    requires TotalOrder(less) && StrictlySorted(less, s)
    ensures Distinct(s)
  {
  }

  lemma SameElements<T>(a: seq<T>, b: seq<T>)
    requires multiset(a) == multiset(b)
    ensures Elements(a) == Elements(b)
  {
    forall x ensures x in Elements(a) <==> x in Elements(b) {
      assert x in a <==> x in multiset(a);
      assert x in b <==> x in multiset(b);
    }
  }

  /** Two distinct listings of one set are permutations of each other. */
  lemma {:induction false} ListingsPermute<T>(a: seq<T>, b: seq<T>)
    requires Distinct(a) && Distinct(b) && Elements(a) == Elements(b)
    ensures multiset(a) == multiset(b)
  {
    DistinctMultiset(a);
    DistinctMultiset(b);
    assert multiset(a) == multiset(Elements(a)) == multiset(b);
  }

  lemma {:induction false} DistinctMultiset<T>(s: seq<T>)
    requires Distinct(s)
    ensures multiset(s) == multiset(Elements(s))
  {
    if s != [] {
      var init, last := s[..|s| - 1], s[|s| - 1];
      DistinctMultiset(init);
      assert s == init + [last];
      assert last !in init;
      assert Elements(s) == Elements(init) + {last};
    }
  }

  /** A permutation of a distinct listing is distinct. */
  lemma PermutationDistinct<T>(a: seq<T>, b: seq<T>)
    requires Distinct(a) && multiset(a) == multiset(b)
    ensures Distinct(b)
  {
    DistinctMultiset(a);
    forall i, j | 0 <= i < j < |b| ensures b[i] != b[j] {
      assert b == b[..j] + [b[j]] + b[j + 1..];
      assert b[..j][i] in multiset(b[..j]);
      assert multiset(b)[b[j]] == multiset(b[..j])[b[j]] + 1 + multiset(b[j + 1..])[b[j]];
    }
  }

  lemma SortStrictly<T(!new)>(less: (T, T) -> bool, s: seq<T>)
    requires TotalOrder(less) && Distinct(s)
    ensures StrictlySorted(less, Sort(less, s))
    ensures Elements(Sort(less, s)) == Elements(s)
  {
    TotalIsWeak(less);
    SortSorts(less, s);
    PermutationDistinct(s, Sort(less, s));
    SameElements(s, Sort(less, s));
  }

  /** A set has only one strictly sorted listing. */
  lemma {:induction false} SortedListingUnique<T(!new)>(less: (T, T) -> bool, a: seq<T>, b: seq<T>)
    requires WeakOrder(less) && StrictlySorted(less, a) && StrictlySorted(less, b)
    requires Elements(a) == Elements(b)
    ensures a == b
  {
    assert |b| > 0 ==> b[0] in Elements(b);
    if a == [] {
      assert b == [];
    } else {
      assert a[0] in Elements(a) && a[0] in b;
      assert b[0] in Elements(b) && b[0] in a;
      assert a[0] == b[0];
      forall x ensures x in Elements(a[1..]) <==> x in Elements(b[1..]) {
        assert x in Elements(a[1..]) <==> x in Elements(a) && x != a[0];
        assert x in Elements(b[1..]) <==> x in Elements(b) && x != b[0];
      }
      SortedListingUnique(less, a[1..], b[1..]);
    }
  }

  lemma StrictListingUnique<T(!new)>(less: (T, T) -> bool, a: seq<T>, b: seq<T>)
    requires TotalOrder(less) && StrictlySorted(less, a) && StrictlySorted(less, b)
    requires Elements(a) == Elements(b)
    ensures a == b
  {
    TotalIsWeak(less);
    SortedListingUnique(less, a, b);
  }

  /** Elements with pairwise different keys sort strictly by an order that compares any two different keys. */
  lemma SortByKey<T(!new), K(!new)>(less: (T, T) -> bool, key: T -> K, s: seq<T>)
    requires WeakOrder(less) && forall a, b :: key(a) != key(b) ==> less(a, b) || less(b, a)
    requires forall i, j :: 0 <= i < j < |s| ==> key(s[i]) != key(s[j])
    ensures StrictlySorted(less, Sort(less, s)) && Elements(Sort(less, s)) == Elements(s)
  {
    SortSorts(less, s);
    hide Sort;
    var t := Sort(less, s);
    SameElements(s, t);
    PermutationDistinct(s, t);
    forall i, j | 0 <= i < j < |t| ensures less(t[i], t[j]) {
      assert !less(t[j], t[i]) && t[i] != t[j];
      assert t[i] in Elements(t) && t[j] in Elements(t);
      var k :| 0 <= k < |s| && s[k] == t[i];
      var l :| 0 <= l < |s| && s[l] == t[j];
      assert k < l || l < k;
    }
  }

  // ---------------------------------------------------------------------------
  // The k least elements of a pool

  function Min(a: nat, b: nat): nat { if a < b then a else b }

  /** `r` lists the `k` least elements of `pool` in order, or all of them when there are fewer. */
  ghost predicate IsTop<T(!new)>(less: (T, T) -> bool, r: seq<T>, k: nat, pool: set<T>) {
    && StrictlySorted(less, r)
    && Elements(r) <= pool
    && |r| == Min(k, |pool|)
    && (forall x, y :: x in r && y in pool && y !in r ==> less(x, y))
  }

  lemma TopIsSorted<T(!new)>(less: (T, T) -> bool, r: seq<T>, k: nat, pool: set<T>)
    requires IsTop(less, r, k, pool)
    ensures StrictlySorted(less, r)
  {
  }

  lemma SmallerLacksSome<T>(a: set<T>, b: set<T>) returns (x: T)
    requires |a| <= |b| && a != b
    ensures x in b && x !in a
  {
    assert a == a * b + (a - b) && b == a * b + (b - a);
    assert |a| == |a * b| + |a - b| && |b| == |a * b| + |b - a|;
    assert b - a != {};
    x :| x in b && x !in a;
  }

  lemma TopUnique<T(!new)>(less: (T, T) -> bool, a: seq<T>, b: seq<T>, k: nat, pool: set<T>)
    requires TotalOrder(less) && IsTop(less, a, k, pool) && IsTop(less, b, k, pool)
    ensures a == b
  {
    StrictIsDistinct(less, a);
    StrictIsDistinct(less, b);
    DistinctCard(a);
    DistinctCard(b);
    if Elements(a) != Elements(b) {
      var x := SmallerLacksSome(Elements(a), Elements(b));
      var y := SmallerLacksSome(Elements(b), Elements(a));
      assert false;
    } else {
      StrictListingUnique(less, a, b);
    }
  }

  lemma TopOfSort<T(!new)>(less: (T, T) -> bool, s: seq<T>, k: nat)
    requires TotalOrder(less) && Distinct(s)
    ensures IsTop(less, Sort(less, s)[..Min(k, |s|)], k, Elements(s))
  {
    SortStrictly(less, s);
    DistinctCard(s);
    hide Sort;
    var t := Sort(less, s);
    PrefixIsTop(less, t, k);
  }

  /** The first elements of a strictly sorted listing are its least. */
  lemma StrictPrefixIsTop<T(!new)>(less: (T, T) -> bool, t: seq<T>, k: nat)
    requires WeakOrder(less) && StrictlySorted(less, t)
    ensures IsTop(less, t[..Min(k, |t|)], k, Elements(t))
  {
    forall i, j | 0 <= i < j < |t| ensures t[i] != t[j] {
      assert less(t[i], t[j]);
    }
    DistinctCard(t);
    var r := t[..Min(k, |t|)];
    forall x, y | x in r && y in Elements(t) && y !in r ensures less(x, y) {
      var i :| 0 <= i < |r| && r[i] == x;
      var j :| 0 <= j < |t| && t[j] == y;
      assert j >= |r|;
    }
    assert forall x :: x in r ==> x in t;
  }

  lemma PrefixIsTop<T(!new)>(less: (T, T) -> bool, t: seq<T>, k: nat)
    requires TotalOrder(less) && StrictlySorted(less, t)
    ensures IsTop(less, t[..Min(k, |t|)], k, Elements(t))
  {
    TotalIsWeak(less);
    StrictPrefixIsTop(less, t, k);
  }

  /** The first `j` of the `k` least are the `j` least. */
  lemma TopPrefix<T(!new)>(less: (T, T) -> bool, r: seq<T>, k: nat, j: nat, pool: set<T>)
    requires IsTop(less, r, k, pool) && j <= k
    ensures IsTop(less, r[..Min(j, |r|)], j, pool)
  {
    var p := r[..Min(j, |r|)];
    forall x, y | x in p && y in pool && y !in p ensures less(x, y) {
      if y in r {
        var i :| 0 <= i < |p| && p[i] == x;
        var l :| 0 <= l < |r| && r[l] == y;
        assert l >= |p|;
      } else {
        assert x in r;
      }
    }
    assert forall x :: x in p ==> x in r;
  }

  // ---------------------------------------------------------------------------
  // Listing sets

  lemma TakeNext<T>(s: seq<T>, i: nat)
    requires i < |s|
    ensures s[..i + 1] == s[..i] + [s[i]]
  {
  }

  lemma ElementsSnoc<T>(s: seq<T>, x: T)
    ensures Elements(s + [x]) == Elements(s) + {x}
  {
  }

  /** Some listing of a set, each element once. */
  ghost function Listing<T>(s: set<T>): (r: seq<T>)
    ensures Distinct(r) && Elements(r) == s && |r| == |s|
  {
    if s == {} then []
    else
      var x :| x in s;
      var rest := Listing(s - {x});
      ElementsSnoc(rest, x);
      rest + [x]
  }

  lemma LessTotal()
    ensures TotalOrder(Less)
  {
    forall x: Str ensures !Less(x, x) { LessIrreflexive(x); }
    forall x: Str, y: Str, z: Str | Less(x, y) && Less(y, z) ensures Less(x, z) { LessTransitive(x, y, z); }
    forall x: Str, y: Str ensures x == y || Less(x, y) || Less(y, x) { LessConnected(x, y); }
  }

  /** The ascending listing of a set of strings. */
  ghost function Ascending(s: set<Str>): (r: seq<Str>)
    ensures StrictlySorted(Less, r) && Elements(r) == s && |r| == |s|
  {
    LessTotal();
    SortStrictly(Less, Listing(s));
    Sort(Less, Listing(s))
  }

  lemma AscendingDistinct(s: set<Str>)
    ensures Distinct(Ascending(s))
  {
    hide Less, Ascending;
    LessTotal();
    StrictIsDistinct(Less, Ascending(s));
  }

  lemma AscendingIn(s: set<Str>)
    ensures forall i :: 0 <= i < |Ascending(s)| ==> Ascending(s)[i] in s
  {
    hide Ascending, Less;
    forall i | 0 <= i < |Ascending(s)| ensures Ascending(s)[i] in s {
      assert Ascending(s)[i] in Elements(Ascending(s));
    }
  }

  /** Collects a set in arbitrary order and sorts it, as ranging over a map and sorting its keys does. */
  method SortedKeys(s: set<Str>) returns (r: seq<Str>)
    ensures r == Ascending(s)
  {
    var keys: seq<Str> := [];
    var rest := s;
    while rest != {}
      invariant rest <= s && Distinct(keys) && Elements(keys) == s - rest
    {
      var x :| x in rest;
      assert x !in Elements(keys);
      ElementsSnoc(keys, x);
      keys := keys + [x];
      rest := rest - {x};
    }
    LessTotal();
    SortStrictly(Less, keys);
    r := Sort(Less, keys);
    StrictListingUnique(Less, r, Ascending(s));
  }
}
