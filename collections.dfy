/**
 * Slices and maps as the program uses them: order-preserving filtering
 * (a loop that appends the elements it keeps), sums over the values of a
 * counting map (`m[k] += d` in a loop), and the sorted orders produced by
 * `sort.Slice`.
 */
module Collections {

  // ---------------------------------------------------------------------
  // Order-preserving filtering
  // ---------------------------------------------------------------------

  /** The elements of `s` satisfying `p`, in their original order. */
  function Filter<T(!new)>(s: seq<T>, p: T -> bool): (r: seq<T>)
    ensures |r| <= |s|
    ensures forall x :: x in r <==> x in s && p(x)
    ensures forall i :: 0 <= i < |r| ==> p(r[i])
  {
    if s == [] then [] else (if p(s[0]) then [s[0]] else []) + Filter(s[1..], p)
  }

  lemma {:induction false} FilterConcat<T(!new)>(a: seq<T>, b: seq<T>, p: T -> bool)
    ensures Filter(a + b, p) == Filter(a, p) + Filter(b, p)
    decreases |a|
  {
    if a == [] {
      assert a + b == b;
    } else {
      assert (a + b)[1..] == a[1..] + b;
      FilterConcat(a[1..], b, p);
    }
  }

  /** Appending one element: the loop step of every filtering loop. */
  lemma AppendAssoc<T>(a: seq<T>, b: seq<T>, c: seq<T>)
    ensures (a + b) + c == a + (b + c)
  {
  }

  /** One more element of a prefix: the step of every loop over a slice. */
  lemma PrefixSnoc<T>(s: seq<T>, i: nat)
    requires i < |s|
    ensures s[..i + 1] == s[..i] + [s[i]]
  {
  }

  lemma FilterSnoc<T(!new)>(s: seq<T>, x: T, p: T -> bool)
    ensures Filter(s + [x], p) == Filter(s, p) + (if p(x) then [x] else [])
  {
    FilterConcat(s, [x], p);
  }

  /** Splitting by a predicate and its negation loses nothing. */
  lemma FilterPartition<T(!new)>(s: seq<T>, p: T -> bool, q: T -> bool)
    requires forall x :: q(x) == !p(x)
    ensures |Filter(s, p)| + |Filter(s, q)| == |s|
    ensures multiset(Filter(s, p)) + multiset(Filter(s, q)) == multiset(s)
  {
    FilterPartitionMultiset(s, p, q);
    assert |multiset(Filter(s, p)) + multiset(Filter(s, q))| == |multiset(s)|;
  }

  lemma {:induction false} FilterPartitionMultiset<T(!new)>(s: seq<T>, p: T -> bool, q: T -> bool)
    requires forall x :: q(x) == !p(x)
    ensures multiset(Filter(s, p)) + multiset(Filter(s, q)) == multiset(s)
    decreases |s|
  {
    if s != [] {
      var x, rest := s[0], s[1..];
      FilterPartitionMultiset(rest, p, q);
      var mp, mq := multiset(Filter(rest, p)), multiset(Filter(rest, q));
      FilterHead(s, p);
      FilterHead(s, q);
      assert q(x) == !p(x);
      MultisetHead(s);
      if p(x) {
        assert multiset(Filter(s, p)) == multiset{x} + mp;
        assert multiset(Filter(s, q)) == mq;
        assert (multiset{x} + mp) + mq == multiset{x} + (mp + mq);
      } else {
        assert multiset(Filter(s, p)) == mp;
        assert multiset(Filter(s, q)) == multiset{x} + mq;
        assert mp + (multiset{x} + mq) == multiset{x} + (mp + mq);
      }
    }
  }

  lemma MultisetHead<T>(s: seq<T>)
    requires s != []
    ensures multiset(s) == multiset{s[0]} + multiset(s[1..])
  {
    assert s == [s[0]] + s[1..];
  }

  /** Filtering a non-empty slice: its head, if kept, then the filtered tail. */
  lemma FilterHead<T(!new)>(s: seq<T>, p: T -> bool)
    requires s != []
    ensures multiset(Filter(s, p)) == (if p(s[0]) then multiset{s[0]} else multiset{}) + multiset(Filter(s[1..], p))
  {
  }

  /**
   * The loop that appends each element to one of two slices: those `p`
   * accepts and the others, each in its original order.
   */
  method Partition<T(!new)>(s: seq<T>, p: T -> bool, q: T -> bool) returns (yes: seq<T>, no: seq<T>)
    requires forall x :: q(x) == !p(x)
    ensures yes == Filter(s, p) && no == Filter(s, q)
    ensures |yes| + |no| == |s|
    ensures multiset(yes) + multiset(no) == multiset(s)
  {
    yes, no := [], [];
    for i := 0 to |s|
      invariant yes == Filter(s[..i], p) && no == Filter(s[..i], q)
    {
      assert s[..i + 1] == s[..i] + [s[i]];
      FilterSnoc(s[..i], s[i], p);
      FilterSnoc(s[..i], s[i], q);
      if p(s[i]) {
        yes := yes + [s[i]];
      } else {
        no := no + [s[i]];
      }
    }
    assert s[..|s|] == s;
    FilterPartition(s, p, q);
  }

  /** Filtering by a predicate implied by another only keeps more. */
  lemma {:induction false} FilterMonotone<T(!new)>(s: seq<T>, p: T -> bool, q: T -> bool)
    requires forall x :: p(x) ==> q(x)
    ensures |Filter(s, p)| <= |Filter(s, q)|
    decreases |s|
  {
    if s != [] {
      FilterMonotone(s[1..], p, q);
    }
  }

  /** The slices of `ss` one after another, as nested `append` loops produce them. */
  function Flatten<T>(ss: seq<seq<T>>): (r: seq<T>)
    decreases |ss|
  {
    if ss == [] then [] else Flatten(ss[..|ss| - 1]) + ss[|ss| - 1]
  }

  lemma FlattenSnoc<T>(ss: seq<seq<T>>, s: seq<T>)
    ensures Flatten(ss + [s]) == Flatten(ss) + s
  {
    assert (ss + [s])[..|ss|] == ss;
  }

  lemma {:induction false} FlattenConcat<T>(xs: seq<seq<T>>, ys: seq<seq<T>>)
    ensures Flatten(xs + ys) == Flatten(xs) + Flatten(ys)
    decreases |ys|
  {
    if ys == [] {
      assert xs + ys == xs;
    } else {
      var init, last := ys[..|ys| - 1], ys[|ys| - 1];
      assert xs + ys == (xs + init) + [last];
      FlattenSnoc(xs + init, last);
      FlattenConcat(xs, init);
      assert ys == init + [last];
      FlattenSnoc(init, last);
    }
  }

  /** The values of `m` at the keys `order`, in that order: what a range over `m` visits. */
  function Visit<K, V>(m: map<K, V>, order: seq<K>): (r: seq<V>)
    requires forall k :: k in order ==> k in m
    ensures |r| == |order|
    ensures forall i :: 0 <= i < |order| ==> r[i] == m[order[i]]
    decreases |order|
  {
    if order == [] then [] else Visit(m, order[..|order| - 1]) + [m[order[|order| - 1]]]
  }

  /** Visiting one more key of the order appends its value. */
  lemma VisitSnoc<K, V>(m: map<K, V>, order: seq<K>, i: nat)
    requires forall k :: k in order ==> k in m
    requires i < |order|
    ensures Visit(m, order[..i + 1]) == Visit(m, order[..i]) + [m[order[i]]]
  {
    assert order[..i + 1][..i] == order[..i];
  }

  // ---------------------------------------------------------------------
  // Running totals
  // ---------------------------------------------------------------------

  /** `total += f(x)` for every `x` of `s`, in order. */
  function SumBy<T>(s: seq<T>, f: T -> int): int
    decreases |s|
  {
    if s == [] then 0 else SumBy(s[..|s| - 1], f) + f(s[|s| - 1])
  }

  /** The loop step of every accumulating loop. */
  lemma SumBySnoc<T>(s: seq<T>, x: T, f: T -> int)
    ensures SumBy(s + [x], f) == SumBy(s, f) + f(x)
  {
    assert (s + [x])[..|s|] == s;
  }

  lemma {:induction false} SumByConcat<T>(a: seq<T>, b: seq<T>, f: T -> int)
    ensures SumBy(a + b, f) == SumBy(a, f) + SumBy(b, f)
    decreases |b|
  {
    if b == [] {
      assert a + b == a;
    } else {
      var init := b[..|b| - 1];
      assert a + b == (a + init) + [b[|b| - 1]];
      SumBySnoc(a + init, b[|b| - 1], f);
      SumByConcat(a, init, f);
    }
  }

  lemma {:induction false} SumByNonNegative<T>(s: seq<T>, f: T -> int)
    requires forall i :: 0 <= i < |s| ==> f(s[i]) >= 0
    ensures SumBy(s, f) >= 0
    decreases |s|
  {
    if s != [] {
      SumByNonNegative(s[..|s| - 1], f);
    }
  }

  lemma {:induction false} SumByMonotone<T>(s: seq<T>, f: T -> int, g: T -> int)
    requires forall i :: 0 <= i < |s| ==> f(s[i]) <= g(s[i])
    ensures SumBy(s, f) <= SumBy(s, g)
    decreases |s|
  {
    if s != [] {
      SumByMonotone(s[..|s| - 1], f, g);
    }
  }

  /**
   * When `f` is `g` plus what `f` gives on the elements `p` selects, the
   * total of `f` is the total of `g` plus the total of `f` over the
   * selected elements.
   */
  lemma {:induction false} SumBySplit<T(!new)>(s: seq<T>, f: T -> int, g: T -> int, p: T -> bool)
    requires forall x :: f(x) == g(x) + (if p(x) then f(x) else 0)
    ensures SumBy(s, f) == SumBy(s, g) + SumBy(Filter(s, p), f)
    decreases |s|
  {
    if s != [] {
      var init := s[..|s| - 1];
      var x := s[|s| - 1];
      assert s == init + [x];
      SumBySplit(init, f, g, p);
      FilterSnoc(init, x, p);
      if p(x) {
        SumBySnoc(Filter(init, p), x, f);
      } else {
        assert Filter(s, p) == Filter(init, p);
      }
    }
  }

  /** Keys of a permutation stay distinct. */
  lemma PermutationDistinct<T, K>(s: seq<T>, r: seq<T>, key: T -> K)
    requires multiset(r) == multiset(s)
    requires forall i, j :: 0 <= i < j < |s| ==> key(s[i]) != key(s[j])
    ensures forall i, j :: 0 <= i < j < |r| ==> key(r[i]) != key(r[j])
  {
    forall i, j | 0 <= i < j < |r| ensures key(r[i]) != key(r[j]) {
      assert r[i] in multiset(s);
      var p :| 0 <= p < |s| && s[p] == r[i];
      var q := OtherIndex(s, r, i, j, p);
    }
  }

  /** Two positions of a permutation come from two different positions of the original. */
  lemma OtherIndex<T>(s: seq<T>, r: seq<T>, i: nat, j: nat, p: nat) returns (q: nat)
    requires multiset(r) == multiset(s)
    requires i < j < |r| && p < |s| && s[p] == r[i]
    ensures q < |s| && q != p && s[q] == r[j]
  {
    var x := r[i];
    if r[j] != x {
      assert r[j] in multiset(s);
      q :| 0 <= q < |s| && s[q] == r[j];
    } else {
      assert r == r[..j] + [x] + r[j + 1..];
      assert x in r[..j];
      assert multiset(s)[x] >= 2;
      assert s == s[..p] + [x] + s[p + 1..];
      assert x in multiset(s[..p] + s[p + 1..]);
      if x in s[..p] {
        q :| 0 <= q < p && s[q] == x;
      } else {
        assert x in s[p + 1..];
        var k :| 0 <= k < |s| - p - 1 && s[p + 1..][k] == x;
        q := p + 1 + k;
      }
    }
  }

  // ---------------------------------------------------------------------
  // Counting maps
  // ---------------------------------------------------------------------

  /** `m[k]` with Go's zero value for a missing key. */
  function Get<K>(m: map<K, int>, k: K): int
  {
    if k in m then m[k] else 0
  }

  /** The sum of the values of `m` at the keys `ks`. */
  ghost function SumOver<K>(m: map<K, int>, ks: set<K>): int
    requires ks <= m.Keys
    decreases ks
  {
    if ks == {} then 0 else var k :| k in ks; m[k] + SumOver(m, ks - {k})
  }

  /** The sum of all values of a map. */
  ghost function MapSum<K>(m: map<K, int>): int
  {
    SumOver(m, m.Keys)
  }

  /** The sum can be taken by removing any key first. */
  lemma {:induction false} SumOverRemove<K>(m: map<K, int>, ks: set<K>, k: K)
    requires ks <= m.Keys && k in ks
    ensures SumOver(m, ks) == m[k] + SumOver(m, ks - {k})
    decreases ks
  {
    var j :| j in ks && SumOver(m, ks) == m[j] + SumOver(m, ks - {j});
    if j != k {
      SumOverRemove(m, ks - {j}, k);
      SumOverRemove(m, ks - {k}, j);
      assert ks - {j} - {k} == ks - {k} - {j};
    }
  }

  /** The sum over `ks` only looks at the values at `ks`. */
  lemma {:induction false} SumOverFrame<K>(m: map<K, int>, m': map<K, int>, ks: set<K>)
    requires ks <= m.Keys && ks <= m'.Keys
    requires forall k :: k in ks ==> m[k] == m'[k]
    ensures SumOver(m, ks) == SumOver(m', ks)
    decreases ks
  {
    if ks != {} {
      var k :| k in ks;
      SumOverRemove(m, ks, k);
      SumOverRemove(m', ks, k);
      SumOverFrame(m, m', ks - {k});
    }
  }

  /** `m[k] += d`, with Go's zero value for a missing key: the sum grows by `d`. */
  lemma MapSumAdd<K>(m: map<K, int>, k: K, d: int)
    ensures MapSum(m[k := Get(m, k) + d]) == MapSum(m) + d
  {
    var m' := m[k := Get(m, k) + d];
    SumOverRemove(m', m'.Keys, k);
    SumOverFrame(m, m', m.Keys - {k});
    if k in m {
      SumOverRemove(m, m.Keys, k);
      assert m'.Keys - {k} == m.Keys - {k};
    } else {
      assert m'.Keys - {k} == m.Keys == m.Keys - {k};
    }
  }

  /** Every value is non-negative, so the sum is too. */
  lemma {:induction false} SumOverNonNegative<K>(m: map<K, int>, ks: set<K>)
    requires ks <= m.Keys
    requires forall k :: k in ks ==> m[k] >= 0
    ensures SumOver(m, ks) >= 0
    decreases ks
  {
    if ks != {} {
      var k :| k in ks;
      SumOverRemove(m, ks, k);
      SumOverNonNegative(m, ks - {k});
    }
  }

  /** Where `x` first occurs in `s`, or `|s|` when it does not. */
  function FirstIndex<T(==)>(s: seq<T>, x: T): (i: nat)
    ensures i <= |s|
    ensures forall j :: 0 <= j < i ==> s[j] != x
    ensures i < |s| ==> s[i] == x
  {
    if s == [] then 0 else if s[0] == x then 0 else 1 + FirstIndex(s[1..], x)
  }

  lemma {:induction false} FirstIndexMarker<T>(a: seq<T>, b: seq<T>, x: T)
    requires x !in a
    ensures FirstIndex(a + [x] + b, x) == |a|
    decreases |a|
  {
    if a != [] {
      assert (a + [x] + b)[1..] == a[1..] + [x] + b;
      FirstIndexMarker(a[1..], b, x);
    }
  }

  /** Two sequences split at the first occurrence of a marker split the same way. */
  lemma SplitAtMarker<T>(a: seq<T>, b: seq<T>, c: seq<T>, d: seq<T>, x: T)
    requires a + [x] + b == c + [x] + d
    requires x !in a && x !in c
    ensures a == c && b == d
  {
    var s := a + [x] + b;
    FirstIndexMarker(a, b, x);
    FirstIndexMarker(c, d, x);
    assert a == s[..|a|] == c;
    assert b == s[|a| + 1..] == d;
  }

  /** A sequence without repeats lists as many elements as the set of them. */
  lemma {:induction false} DistinctCardinality<T>(s: seq<T>, elems: set<T>)
    requires forall x :: x in s <==> x in elems
    requires Distinct(s)
    ensures |s| == |elems|
    decreases |s|
  {
    if s == [] {
      assert elems == {};
    } else {
      var last := s[|s| - 1];
      var init := s[..|s| - 1];
      forall x ensures x in init <==> x in elems - {last} {
        if x in init {
          var i :| 0 <= i < |init| && init[i] == x;
          assert s[i] == x;
        }
        if x in elems - {last} {
          assert x in s;
          var i :| 0 <= i < |s| && s[i] == x;
          assert i < |s| - 1;
          assert init[i] == x;
        }
      }
      DistinctCardinality(init, elems - {last});
    }
  }

  /** No element occurs twice. */
  predicate Distinct<T(==)>(s: seq<T>)
  {
    forall i, j :: 0 <= i < j < |s| ==> s[i] != s[j]
  }

  /** `order` lists the keys of `m`, each once: an order a range over `m` may visit them in. */
  ghost predicate ListsKeys<K(!new), V>(order: seq<K>, m: map<K, V>)
  {
    (forall k :: k in order <==> k in m) && Distinct(order)
  }

  /** In a sequence without repeats, an element occurs once or not at all. */
  lemma {:induction false} DistinctMultiplicity<T>(s: seq<T>, x: T)
    requires Distinct(s)
    ensures multiset(s)[x] == if x in s then 1 else 0
    decreases |s|
  {
    if s != [] {
      var init := s[..|s| - 1];
      var last := s[|s| - 1];
      assert s == init + [last];
      assert Distinct(init);
      DistinctMultiplicity(init, x);
      forall i | 0 <= i < |init| ensures init[i] != last {
        assert s[i] == init[i];
      }
    }
  }

  /** Two sequences without repeats and with the same elements are permutations of each other. */
  lemma DistinctSameElements<T>(a: seq<T>, b: seq<T>)
    requires Distinct(a) && Distinct(b)
    requires forall x :: x in a <==> x in b
    ensures multiset(a) == multiset(b)
  {
    forall x ensures multiset(a)[x] == multiset(b)[x] {
      DistinctMultiplicity(a, x);
      DistinctMultiplicity(b, x);
    }
  }

  /**
   * Ranging over a map: every key is visited exactly once, in an order
   * the map does not fix (the order is whatever the choice below picks).
   */
  method MapKeys<K, V>(m: map<K, V>) returns (ks: seq<K>)
    ensures forall k :: k in ks <==> k in m
    ensures Distinct(ks)
  {
    ks := [];
    var rest := m.Keys;
    while rest != {}
      invariant rest <= m.Keys
      invariant forall k :: k in m ==> (k in ks <==> k !in rest)
      invariant forall k :: k in ks ==> k in m
      invariant Distinct(ks)
      decreases rest
    {
      var k :| k in rest;
      ks := ks + [k];
      rest := rest - {k};
    }
  }

  /** Appending the values of a map in range order. */
  method RangeValues<K(!new), V>(m: map<K, V>) returns (vs: seq<V>, ghost order: seq<K>)
    ensures ListsKeys(order, m) && vs == Visit(m, order)
  {
    var keys := MapKeys(m);
    order := keys;
    vs := [];
    for i := 0 to |keys|
      invariant vs == Visit(m, keys[..i])
    {
      assert keys[..i + 1][..i] == keys[..i];
      vs := vs + [m[keys[i]]];
    }
    assert keys[..|keys|] == keys;
  }

  // ---------------------------------------------------------------------
  // Sorting
  // ---------------------------------------------------------------------

  /** `le` orders every pair of elements of `s` by position. */
  ghost predicate SortedBy<T>(s: seq<T>, le: (T, T) -> bool)
  {
    forall i, j :: 0 <= i < j < |s| ==> le(s[i], s[j])
  }

  /** A comparator `sort.Slice` can sort with: total and transitive. */
  ghost predicate IsTotalPreorder<T(!new)>(le: (T, T) -> bool)
  {
    (forall a, b :: le(a, b) || le(b, a)) &&
    (forall a, b, c :: le(a, b) && le(b, c) ==> le(a, c))
  }

  function InsertBy<T(!new)>(x: T, s: seq<T>, le: (T, T) -> bool): (r: seq<T>)
    requires IsTotalPreorder(le) && SortedBy(s, le)
    ensures SortedBy(r, le)
    ensures multiset(r) == multiset(s) + multiset{x}
    ensures |r| == |s| + 1
  {
    if s == [] then [x]
    else if le(x, s[0]) then
      SortedCons(x, s, le);
      [x] + s
    else
      var rest := InsertBy(x, s[1..], le);
      InsertBehindHead(x, s, rest, le);
      [s[0]] + rest
  }

  /** An element before the head of a sorted slice, comparing below it, keeps it sorted. */
  lemma SortedCons<T(!new)>(x: T, s: seq<T>, le: (T, T) -> bool)
    requires IsTotalPreorder(le) && SortedBy(s, le) && s != [] && le(x, s[0])
    ensures SortedBy([x] + s, le)
  {
    forall j | 0 < j < |s| ensures le(x, s[j]) { assert le(s[0], s[j]); }
  }

  /** The head of a sorted slice, kept in front of `x` inserted into its tail. */
  lemma InsertBehindHead<T(!new)>(x: T, s: seq<T>, rest: seq<T>, le: (T, T) -> bool)
    requires IsTotalPreorder(le) && SortedBy(s, le) && s != [] && !le(x, s[0])
    requires SortedBy(rest, le) && multiset(rest) == multiset(s[1..]) + multiset{x}
    ensures SortedBy([s[0]] + rest, le)
    ensures multiset([s[0]] + rest) == multiset(s) + multiset{x}
  {
    assert s == [s[0]] + s[1..];
    forall j | 0 <= j < |rest| ensures le(s[0], rest[j]) {
      assert rest[j] in multiset(rest);
      if rest[j] != x {
        assert rest[j] in s[1..];
      }
    }
  }

  /** A sorted permutation of `s` under `le` (the order among equivalent elements is left open, as with `sort.Slice`). */
  function SortBy<T(!new)>(s: seq<T>, le: (T, T) -> bool): (r: seq<T>)
    requires IsTotalPreorder(le)
    ensures SortedBy(r, le)
    ensures multiset(r) == multiset(s)
    ensures |r| == |s|
  {
    if s == [] then []
    else
      assert s == [s[0]] + s[1..];
      InsertBy(s[0], SortBy(s[1..], le), le)
  }

  /** `lt` never holds both ways between elements of `s`. */
  ghost predicate Asymmetric<T>(s: seq<T>, lt: (T, T) -> bool)
  {
    forall i, j :: 0 <= i < |s| && 0 <= j < |s| && lt(s[i], s[j]) ==> !lt(s[j], s[i])
  }

  lemma SortedHeadsEqual<T>(a: seq<T>, b: seq<T>, lt: (T, T) -> bool)
    requires Asymmetric(a, lt) && SortedBy(a, lt) && SortedBy(b, lt)
    requires |a| > 0 && multiset(a) == multiset(b)
    ensures |b| > 0 && a[0] == b[0]
  {
    assert a[0] in multiset(a);
    assert a[0] in multiset(b);
    var i :| 0 <= i < |b| && b[i] == a[0];
    assert b[0] in multiset(b);
    assert b[0] in multiset(a);
    var j :| 0 <= j < |a| && a[j] == b[0];
  }

  /**
   * Sorting by a strict comparator that never holds both ways leaves
   * `sort.Slice` no freedom: two sorted permutations are equal.
   */
  lemma {:induction false} StrictlySortedUnique<T>(a: seq<T>, b: seq<T>, lt: (T, T) -> bool)
    requires Asymmetric(a, lt)
    requires SortedBy(a, lt) && SortedBy(b, lt)
    requires multiset(a) == multiset(b)
    ensures a == b
    decreases |a|
  {
    if |a| == 0 {
      assert |b| == |multiset(b)| == 0;
    } else {
      SortedHeadsEqual(a, b, lt);
      AsymmetricTail(a, lt);
      SortedTail(a, lt);
      SortedTail(b, lt);
      MultisetTail(a);
      MultisetTail(b);
      StrictlySortedUnique(a[1..], b[1..], lt);
      HeadTailEqual(a, b);
    }
  }

  lemma AsymmetricTail<T>(a: seq<T>, lt: (T, T) -> bool)
    requires Asymmetric(a, lt) && |a| > 0
    ensures Asymmetric(a[1..], lt)
  {
    forall i, j | 0 <= i < |a| - 1 && 0 <= j < |a| - 1 && lt(a[1..][i], a[1..][j])
      ensures !lt(a[1..][j], a[1..][i])
    {
      assert a[1..][i] == a[i + 1] && a[1..][j] == a[j + 1];
    }
  }

  lemma SortedTail<T>(a: seq<T>, lt: (T, T) -> bool)
    requires SortedBy(a, lt) && |a| > 0
    ensures SortedBy(a[1..], lt)
  {
    forall i, j | 0 <= i < j < |a| - 1 ensures lt(a[1..][i], a[1..][j]) {
      assert a[1..][i] == a[i + 1] && a[1..][j] == a[j + 1];
    }
  }

  lemma HeadTailEqual<T>(a: seq<T>, b: seq<T>)
    requires |a| > 0 && |b| > 0 && a[0] == b[0] && a[1..] == b[1..]
    ensures a == b
  {
    assert a == [a[0]] + a[1..] && b == [b[0]] + b[1..];
  }

  lemma MultisetTail<T>(a: seq<T>)
    requires |a| > 0
    ensures multiset(a[1..]) == multiset(a) - multiset{a[0]}
  {
    assert a == [a[0]] + a[1..];
  }
}
