/**
 * Counting maps filled by `stats[key(x)]++` for every `x` of a slice: the
 * map holds the number of occurrences of each key, and the counts add up
 * to the length of the slice.
 */
module Tallies {
  import opened Collections
  import opened Text

  /** How many elements of `s` have the key `k`. */
  function Occurrences<T, K(==)>(s: seq<T>, key: T -> K, k: K): nat
    decreases |s|
  {
    if s == [] then 0
    else Occurrences(s[..|s| - 1], key, k) + (if key(s[|s| - 1]) == k then 1 else 0)
  }

  lemma OccurrencesSnoc<T, K>(s: seq<T>, x: T, key: T -> K, k: K)
    ensures Occurrences(s + [x], key, k) == Occurrences(s, key, k) + (if key(x) == k then 1 else 0)
  {
    assert (s + [x])[..|s|] == s;
  }

  /** The key of every element occurs at least once. */
  lemma {:induction false} OccurrencesPositive<T, K>(s: seq<T>, key: T -> K, i: nat)
    requires i < |s|
    ensures Occurrences(s, key, key(s[i])) > 0
    decreases |s|
  {
    if i < |s| - 1 {
      OccurrencesPositive(s[..|s| - 1], key, i);
    }
  }

  /** A key occurs exactly when some element has it. */
  lemma {:induction false} OccurrencesExist<T, K>(s: seq<T>, key: T -> K, k: K)
    ensures Occurrences(s, key, k) > 0 <==> exists i :: 0 <= i < |s| && key(s[i]) == k
    decreases |s|
  {
    if s != [] {
      var init := s[..|s| - 1];
      OccurrencesExist(init, key, k);
      if Occurrences(init, key, k) > 0 {
        var i :| 0 <= i < |init| && key(init[i]) == k;
        assert key(s[i]) == k;
      }
      if exists i :: 0 <= i < |s| && key(s[i]) == k {
        var i :| 0 <= i < |s| && key(s[i]) == k;
        if i < |s| - 1 {
          assert key(init[i]) == k;
        }
      }
    }
  }

  /**
   * `m` counts the keys of `s`: it holds exactly the keys that occur in
   * `s`, each with its number of occurrences.
   */
  ghost predicate IsTally<T, K(!new)>(m: map<K, int>, s: seq<T>, key: T -> K)
  {
    forall k {:trigger Occurrences(s, key, k)} ::
      (k in m <==> Occurrences(s, key, k) > 0) && (k in m ==> m[k] == Occurrences(s, key, k))
  }

  /**
   * `m` holds every key of `s`, each with its number of occurrences, and
   * possibly further keys that do not occur (with a count of zero).
   */
  ghost predicate CountsKeys<T, K(!new)>(m: map<K, int>, s: seq<T>, key: T -> K)
  {
    (forall i :: 0 <= i < |s| ==> key(s[i]) in m) &&
    (forall k :: k in m ==> m[k] == Occurrences(s, key, k))
  }

  /** The loop step of a counting loop: `m[key(x)]++`. */
  lemma TallyStep<T, K(!new)>(m: map<K, int>, s: seq<T>, key: T -> K, x: T)
    requires IsTally(m, s, key)
    ensures IsTally(m[key(x) := Get(m, key(x)) + 1], s + [x], key)
  {
    forall k ensures Occurrences(s + [x], key, k) == Occurrences(s, key, k) + (if key(x) == k then 1 else 0) {
      OccurrencesSnoc(s, x, key, k);
    }
  }

  /** An exact tally also counts every key of its slice. */
  lemma TallyCountsKeys<T, K(!new)>(m: map<K, int>, s: seq<T>, key: T -> K)
    requires IsTally(m, s, key)
    ensures CountsKeys(m, s, key)
  {
    forall i | 0 <= i < |s| ensures key(s[i]) in m {
      OccurrencesPositive(s, key, i);
    }
  }

  /** The counts of a counting map add up to the length of the slice it counts. */
  lemma {:induction false} CountsTotal<T, K(!new)>(m: map<K, int>, s: seq<T>, key: T -> K)
    requires CountsKeys(m, s, key)
    ensures MapSum(m) == |s|
    decreases |s|
  {
    if s == [] {
      forall k | k in m ensures m[k] == 0 { }
      SumOverZero(m, m.Keys);
    } else {
      var init, x := s[..|s| - 1], s[|s| - 1];
      assert s == init + [x];
      var k0 := key(x);
      var m' := m[k0 := m[k0] - 1];
      forall k | k in m' ensures m'[k] == Occurrences(init, key, k) {
        OccurrencesSnoc(init, x, key, k);
      }
      forall i | 0 <= i < |init| ensures key(init[i]) in m' {
        assert init[i] == s[i];
      }
      CountsTotal(m', init, key);
      MapSumAdd(m', k0, 1);
      assert m'[k0 := Get(m', k0) + 1] == m;
    }
  }

  /** The counts of a tally add up to the length of the slice it counts. */
  lemma TallyTotal<T, K(!new)>(m: map<K, int>, s: seq<T>, key: T -> K)
    requires IsTally(m, s, key)
    ensures MapSum(m) == |s|
  {
    TallyCountsKeys(m, s, key);
    CountsTotal(m, s, key);
  }

  /** A slice has one tally: two maps that count the same slice are equal. */
  lemma TallyUnique<T, K(!new)>(m: map<K, int>, m': map<K, int>, s: seq<T>, key: T -> K)
    requires IsTally(m, s, key) && IsTally(m', s, key)
    ensures m == m'
  {
    forall k ensures (k in m <==> k in m') && (k in m ==> m[k] == m'[k]) {
      var c := Occurrences(s, key, k);
      assert (k in m <==> c > 0) && (k in m' <==> c > 0);
    }
  }

  lemma {:induction false} SumOverZero<K>(m: map<K, int>, ks: set<K>)
    requires ks <= m.Keys
    requires forall k :: k in ks ==> m[k] == 0
    ensures SumOver(m, ks) == 0
    decreases ks
  {
    if ks != {} {
      var k :| k in ks;
      SumOverRemove(m, ks, k);
      SumOverZero(m, ks - {k});
    }
  }

  // ---------------------------------------------------------------------
  // Two counters per key
  // ---------------------------------------------------------------------

  /** The value type of a map counting two slices at once. */
  datatype Counts = Counts(first: int, second: int)

  /** The first counters of a pair-counting map. */
  ghost function Firsts<K>(m: map<K, Counts>): map<K, int>
  {
    map k | k in m :: m[k].first
  }

  /** The second counters of a pair-counting map. */
  ghost function Seconds<K>(m: map<K, Counts>): map<K, int>
  {
    map k | k in m :: m[k].second
  }

  /**
   * `m` counts the keys of `a` in its first counters and the keys of `b`
   * in its second ones, and holds exactly the keys occurring in either.
   */
  ghost predicate IsPairTally<T, K(!new)>(m: map<K, Counts>, a: seq<T>, b: seq<T>, key: T -> K)
  {
    forall k {:trigger Occurrences(a, key, k)} {:trigger Occurrences(b, key, k)} ::
      (k in m <==> Occurrences(a, key, k) > 0 || Occurrences(b, key, k) > 0) &&
      (k in m ==> m[k] == Counts(Occurrences(a, key, k), Occurrences(b, key, k)))
  }

  /** `m[k].first++`, creating `{1, 0}` for a new key. */
  function BumpFirst<K>(m: map<K, Counts>, k: K): map<K, Counts>
  {
    if k in m then m[k := m[k].(first := m[k].first + 1)] else m[k := Counts(1, 0)]
  }

  /** `m[k].second++`, creating `{0, 1}` for a new key. */
  function BumpSecond<K>(m: map<K, Counts>, k: K): map<K, Counts>
  {
    if k in m then m[k := m[k].(second := m[k].second + 1)] else m[k := Counts(0, 1)]
  }

  lemma PairTallyStepFirst<T, K(!new)>(m: map<K, Counts>, a: seq<T>, b: seq<T>, key: T -> K, x: T)
    requires IsPairTally(m, a, b, key)
    ensures IsPairTally(BumpFirst(m, key(x)), a + [x], b, key)
  {
    forall k ensures Occurrences(a + [x], key, k) == Occurrences(a, key, k) + (if key(x) == k then 1 else 0) {
      OccurrencesSnoc(a, x, key, k);
    }
  }

  lemma PairTallyStepSecond<T, K(!new)>(m: map<K, Counts>, a: seq<T>, b: seq<T>, key: T -> K, x: T)
    requires IsPairTally(m, a, b, key)
    ensures IsPairTally(BumpSecond(m, key(x)), a, b + [x], key)
  {
    forall k ensures Occurrences(b + [x], key, k) == Occurrences(b, key, k) + (if key(x) == k then 1 else 0) {
      OccurrencesSnoc(b, x, key, k);
    }
  }

  /** The first counters add up to `|a|` and the second ones to `|b|`. */
  lemma PairTallyTotals<T, K(!new)>(m: map<K, Counts>, a: seq<T>, b: seq<T>, key: T -> K)
    requires IsPairTally(m, a, b, key)
    ensures MapSum(Firsts(m)) == |a| && MapSum(Seconds(m)) == |b|
  {
    forall i | 0 <= i < |a| ensures key(a[i]) in Firsts(m) {
      OccurrencesPositive(a, key, i);
    }
    forall k | k in Firsts(m) ensures Firsts(m)[k] == Occurrences(a, key, k) {
      assert Occurrences(b, key, k) == Occurrences(b, key, k);
    }
    CountsTotal(Firsts(m), a, key);
    forall i | 0 <= i < |b| ensures key(b[i]) in Seconds(m) {
      OccurrencesPositive(b, key, i);
    }
    forall k | k in Seconds(m) ensures Seconds(m)[k] == Occurrences(b, key, k) {
      assert Occurrences(a, key, k) == Occurrences(a, key, k);
    }
    CountsTotal(Seconds(m), b, key);
  }

  // ---------------------------------------------------------------------
  // Reporting the keys of a counting map
  // ---------------------------------------------------------------------

  /** The identity key, for maps counting the strings themselves. */
  function Itself(s: string): string
  {
    s
  }

  function StringNotAfter(): (string, string) -> bool
  {
    (a: string, b: string) => !Less(b, a)
  }

  lemma StringNotAfterIsTotalPreorder()
    ensures IsTotalPreorder(StringNotAfter())
  {
    forall a: string, b: string ensures StringNotAfter()(a, b) || StringNotAfter()(b, a) {
      LessTotal(a, b);
      if Less(a, b) { LessAsymmetric(a, b); }
    }
    forall a: string, b: string, c: string
      | StringNotAfter()(a, b) && StringNotAfter()(b, c) ensures StringNotAfter()(a, c)
    {
      LessTotal(a, b);
      LessTotal(b, c);
      if Less(c, a) {
        if a == b {
        } else if Less(c, b) {
          LessAsymmetric(c, b);
        } else {
          LessTransitive(c, a, b);
          LessAsymmetric(a, b);
        }
      }
    }
  }

  /** The keys of a counting map, appended in range order and sorted with `sort.Strings`. */
  method SortedKeyList(counts: map<string, int>) returns (keys: seq<string>)
    ensures keys == SortedKeys(counts.Keys)
    ensures StrictlyAscending(keys) && forall k :: k in keys <==> k in counts
  {
    var ranged := MapKeys(counts);
    StringNotAfterIsTotalPreorder();
    keys := SortBy(ranged, StringNotAfter());
    forall k ensures k in keys <==> k in ranged {
      if k in keys { assert k in multiset(keys); }
      if k in ranged { assert k in multiset(ranged); }
    }
    PermutationDistinct(ranged, keys, Itself);
    forall i, j | 0 <= i < j < |keys| ensures Less(keys[i], keys[j]) {
      assert Itself(keys[i]) != Itself(keys[j]);
      LessTotal(keys[i], keys[j]);
    }
    SortedKeysCharacterization(counts.Keys, keys);
  }


  /**
   * A range over a counting map that keeps each key whose count beats the
   * best so far (`if count > max`), starting from `none` and 0: the result
   * is `none` when no count is positive, otherwise a key with the largest
   * count. Which of several largest keys wins depends on the range order.
   */
  method PeakKey<K>(m: map<K, int>, none: K) returns (peak: K)
    ensures (peak == none && forall k :: k in m ==> m[k] <= 0) ||
            (peak in m && m[peak] > 0 && forall k :: k in m ==> m[k] <= m[peak])
  {
    var keys := MapKeys(m);
    peak := none;
    var max := 0;
    for i := 0 to |keys|
      invariant forall j :: 0 <= j < i ==> m[keys[j]] <= max
      invariant (peak == none && max == 0) || (peak in m && m[peak] == max && max > 0)
    {
      if m[keys[i]] > max {
        max := m[keys[i]];
        peak := keys[i];
      }
    }
  }
}
