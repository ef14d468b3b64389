/**
 * The ASCII subset of Go's `strings` package that the program relies on:
 * whitespace trimming, lower-casing, prefix/suffix/substring tests,
 * last-index search, splitting and joining, and byte-wise ordering
 * (the order `sort.Strings` and `<` on Go strings use).
 */
module Text {
  import opened Wrappers

  // ---------------------------------------------------------------------
  // Whitespace
  // ---------------------------------------------------------------------

  /** ASCII white space as `unicode.IsSpace` sees it: space, \t, \n, \v, \f, \r. */
  predicate IsSpace(c: char)
  {
    c == ' ' || ('\t' <= c <= '\r')
  }

  /** Drops leading white space. */
  function TrimLeft(s: string): (r: string)
    ensures |r| <= |s| && r == s[|s| - |r|..]
    ensures r == [] || !IsSpace(r[0])
    ensures forall i :: 0 <= i < |s| - |r| ==> IsSpace(s[i])
    decreases |s|
  {
    if |s| > 0 && IsSpace(s[0]) then TrimLeft(s[1..]) else s
  }

  /** Drops trailing white space. */
  function TrimRight(s: string): (r: string)
    ensures |r| <= |s| && r == s[..|r|]
    ensures r == [] || !IsSpace(r[|r| - 1])
    ensures forall i :: |r| <= i < |s| ==> IsSpace(s[i])
    decreases |s|
  {
    if |s| > 0 && IsSpace(s[|s| - 1]) then TrimRight(s[..|s| - 1]) else s
  }

  /** `strings.TrimSpace`: the longest infix of `s` that neither starts nor ends with white space. */
  function TrimSpace(s: string): (r: string)
    ensures |r| <= |s|
    ensures r == [] || (!IsSpace(r[0]) && !IsSpace(r[|r| - 1]))
  {
    TrimRight(TrimLeft(s))
  }

  /** Trimming a string that has no white space at either end gives it back. */
  lemma TrimSpaceOfTrimmed(s: string)
    requires s == [] || (!IsSpace(s[0]) && !IsSpace(s[|s| - 1]))
    ensures TrimSpace(s) == s
  {
  }

  /** `strings.TrimSpace` is idempotent. */
  lemma TrimSpaceIdempotent(s: string)
    ensures TrimSpace(TrimSpace(s)) == TrimSpace(s)
  {
    TrimSpaceOfTrimmed(TrimSpace(s));
  }

  // ---------------------------------------------------------------------
  // Case
  // ---------------------------------------------------------------------

  predicate IsUpper(c: char) { 'A' <= c <= 'Z' }

  function LowerChar(c: char): (r: char)
    ensures !IsUpper(r)
    ensures !IsUpper(c) ==> r == c
  {
    if IsUpper(c) then (c as int + 32) as char else c
  }

  function UpperChar(c: char): char
  {
    if 'a' <= c <= 'z' then (c as int - 32) as char else c
  }

  lemma LowerOfUpper(c: char)
    ensures LowerChar(UpperChar(c)) == LowerChar(c)
  {
  }

  /** `strings.ToLower` on ASCII: every upper-case letter replaced by its lower-case form. */
  function Lower(s: string): (r: string)
    ensures |r| == |s|
    ensures forall i :: 0 <= i < |s| ==> r[i] == LowerChar(s[i])
  {
    seq(|s|, i requires 0 <= i < |s| => LowerChar(s[i]))
  }

  lemma LowerIdempotent(s: string)
    ensures Lower(Lower(s)) == Lower(s)
  {
  }

  lemma LowerConcat(a: string, b: string)
    ensures Lower(a + b) == Lower(a) + Lower(b)
  {
  }

  /** A string with no upper-case letter is its own lower-case form. */
  lemma LowerOfLower(s: string)
    requires forall i :: 0 <= i < |s| ==> !IsUpper(s[i])
    ensures Lower(s) == s
  {
  }

  /** `strings.EqualFold` restricted to ASCII. */
  predicate EqualFold(a: string, b: string)
  {
    Lower(a) == Lower(b)
  }

  // ---------------------------------------------------------------------
  // Prefixes, suffixes, substrings
  // ---------------------------------------------------------------------

  predicate HasPrefix(s: string, p: string)
  {
    |p| <= |s| && s[..|p|] == p
  }

  predicate HasSuffix(s: string, p: string)
  {
    |p| <= |s| && s[|s| - |p|..] == p
  }

  /** `strings.TrimPrefix`. */
  function TrimPrefix(s: string, p: string): (r: string)
    ensures HasPrefix(s, p) ==> s == p + r
    ensures !HasPrefix(s, p) ==> r == s
  {
    if HasPrefix(s, p) then s[|p|..] else s
  }

  /** `strings.TrimSuffix`. */
  function TrimSuffix(s: string, p: string): (r: string)
    ensures HasSuffix(s, p) ==> s == r + p
    ensures !HasSuffix(s, p) ==> r == s
  {
    if HasSuffix(s, p) then s[..|s| - |p|] else s
  }

  /** `sub` occurs in `s` starting at index `i`. */
  predicate OccursAt(s: string, sub: string, i: int)
  {
    0 <= i && i + |sub| <= |s| && s[i..i + |sub|] == sub
  }

  /** `strings.Contains`. */
  predicate Contains(s: string, sub: string)
  {
    exists i :: 0 <= i <= |s| && OccursAt(s, sub, i)
  }

  /** The empty string is a substring of every string. */
  lemma ContainsEmpty(s: string)
    ensures Contains(s, "")
  {
    assert OccursAt(s, "", 0);
  }

  /** Any occurrence in a prefix is an occurrence in the whole. */
  lemma ContainsInPrefix(s: string, t: string, sub: string)
    requires Contains(s, sub)
    ensures Contains(s + t, sub)
  {
    var i :| 0 <= i <= |s| && OccursAt(s, sub, i);
    assert (s + t)[i..i + |sub|] == s[i..i + |sub|];
    assert OccursAt(s + t, sub, i);
  }

  /** Any occurrence in a suffix is an occurrence in the whole. */
  lemma ContainsInSuffix(s: string, t: string, sub: string)
    requires Contains(t, sub)
    ensures Contains(s + t, sub)
  {
    var i :| 0 <= i <= |t| && OccursAt(t, sub, i);
    assert (s + t)[|s| + i..|s| + i + |sub|] == t[i..i + |sub|];
    assert OccursAt(s + t, sub, |s| + i);
  }

  // ---------------------------------------------------------------------
  // Index search
  // ---------------------------------------------------------------------

  /** `strings.IndexByte`: the first index of `c`, if any. */
  function IndexOf(s: string, c: char): (r: Option<nat>)
    ensures r.None? <==> c !in s
    ensures r.Some? ==> r.value < |s| && s[r.value] == c && c !in s[..r.value]
  {
    if |s| == 0 then None
    else if s[0] == c then Some(0)
    else
      match IndexOf(s[1..], c)
      case None => None
      case Some(k) => assert s[1..][..k] == s[1..k + 1]; Some(k + 1)
  }

  /** `strings.LastIndex` for a one-character separator: the last index of `c`, if any. */
  function LastIndexOf(s: string, c: char): (r: Option<nat>)
    ensures r.None? <==> c !in s
    ensures r.Some? ==> r.value < |s| && s[r.value] == c && c !in s[r.value + 1..]
    decreases |s|
  {
    if |s| == 0 then None
    else if s[|s| - 1] == c then Some(|s| - 1)
    else
      match LastIndexOf(s[..|s| - 1], c)
      case None => None
      case Some(k) => assert s[k + 1..] == s[..|s| - 1][k + 1..] + [s[|s| - 1]]; Some(k)
  }

  // ---------------------------------------------------------------------
  // Splitting and joining on one separator character
  // ---------------------------------------------------------------------

  /** `strings.Split(s, string(c))`: the maximal pieces between occurrences of `c`. */
  function Split(s: string, c: char): (parts: seq<string>)
    ensures |parts| >= 1
    ensures forall i :: 0 <= i < |parts| ==> c !in parts[i]
    decreases |s|
  {
    match IndexOf(s, c)
    case None => [s]
    case Some(k) => [s[..k]] + Split(s[k + 1..], c)
  }

  /** `strings.Join(parts, string(c))`. */
  function Join(parts: seq<string>, c: char): (r: string)
    decreases |parts|
  {
    if |parts| == 0 then ""
    else if |parts| == 1 then parts[0]
    else parts[0] + [c] + Join(parts[1..], c)
  }

  lemma JoinCons(x: string, rest: seq<string>, c: char)
    requires |rest| >= 1
    ensures Join([x] + rest, c) == x + [c] + Join(rest, c)
  {
    assert ([x] + rest)[1..] == rest;
  }

  /** Joining the pieces of a split restores the original string. */
  lemma {:induction false} JoinSplit(s: string, c: char)
    ensures Join(Split(s, c), c) == s
    decreases |s|
  {
    var r := IndexOf(s, c);
    if r.Some? {
      var k := r.value;
      var rest := s[k + 1..];
      var pieces := Split(rest, c);
      assert Split(s, c) == [s[..k]] + pieces;
      JoinSplit(rest, c);
      JoinCons(s[..k], pieces, c);
      assert s == s[..k] + [c] + rest;
    } else {
      assert Split(s, c) == [s];
    }
  }

  /** Splitting yields at least two pieces exactly when the separator occurs. */
  lemma SplitCount(s: string, c: char)
    ensures |Split(s, c)| >= 2 <==> c in s
  {
    match IndexOf(s, c)
    case None =>
    case Some(k) =>
  }

  /** Splitting a join of separator-free pieces gives the pieces back (for a non-empty list). */
  lemma {:induction false} SplitJoin(parts: seq<string>, c: char)
    requires |parts| >= 1
    requires forall i :: 0 <= i < |parts| ==> c !in parts[i]
    ensures Split(Join(parts, c), c) == parts
    decreases |parts|
  {
    if |parts| == 1 {
    } else {
      var rest := Join(parts[1..], c);
      var s := parts[0] + [c] + rest;
      assert s[|parts[0]|] == c;
      assert IndexOf(s, c) == Some(|parts[0]|) by {
        assert s[..|parts[0]|] == parts[0];
        IndexOfFirst(s, c, |parts[0]|);
      }
      assert s[|parts[0]| + 1..] == rest;
      assert s[..|parts[0]|] == parts[0];
      SplitJoin(parts[1..], c);
    }
  }

  /** The first occurrence is pinned down by `s[k] == c` and its absence before `k`. */
  lemma IndexOfFirst(s: string, c: char, k: nat)
    requires k < |s| && s[k] == c && c !in s[..k]
    ensures IndexOf(s, c) == Some(k)
  {
    var r := IndexOf(s, c);
    assert r.Some?;
  }

  /** Joining two non-empty lists: the two joins with one separator between them. */
  lemma {:induction false} JoinAppend(a: seq<string>, b: seq<string>, c: char)
    requires |a| >= 1 && |b| >= 1
    ensures Join(a + b, c) == Join(a, c) + [c] + Join(b, c)
    decreases |a|
  {
    if |a| == 1 {
      assert a + b == [a[0]] + b;
      JoinCons(a[0], b, c);
    } else {
      assert a + b == [a[0]] + (a[1..] + b);
      JoinCons(a[0], a[1..] + b, c);
      JoinAppend(a[1..], b, c);
      assert a == [a[0]] + a[1..];
      JoinCons(a[0], a[1..], c);
    }
  }

  /** Appending a separator and a separator-free piece appends that piece to the split. */
  lemma {:induction false} SplitSnoc(s: string, x: string, c: char)
    requires c !in x
    ensures Split(s + [c] + x, c) == Split(s, c) + [x]
    decreases |s|
  {
    var t := s + [c] + x;
    if c !in s {
      SplitSnocOnce(s, x, c);
      SplitNone(s, c);
      assert [s, x] == [s] + [x];
    } else {
      var k := IndexOf(s, c).value;
      SplitSnoc(s[k + 1..], x, c);
      SplitSnocStep(s, x, c, k);
    }
  }

  /** The step of `SplitSnoc`: the first piece of `s` comes first either way. */
  lemma SplitSnocStep(s: string, x: string, c: char, k: nat)
    requires IndexOf(s, c) == Some(k) && c !in x
    requires Split(s[k + 1..] + [c] + x, c) == Split(s[k + 1..], c) + [x]
    ensures Split(s + [c] + x, c) == Split(s, c) + [x]
  {
    var t := s + [c] + x;
    SliceAround(s, x, c, k);
    IndexOfFirst(t, c, k);
    SplitGlue(t, s, x, c, k);
  }

  /** Slicing a string extended by a separator and a piece, around an index of the string. */
  lemma SliceAround(s: string, x: string, c: char, k: nat)
    requires k < |s|
    ensures (s + [c] + x)[..k] == s[..k] && (s + [c] + x)[k] == s[k]
    ensures (s + [c] + x)[k + 1..] == s[k + 1..] + [c] + x
  {
  }

  /** Two strings that agree up to their first separator split alike up to there. */
  lemma SplitGlue(t: string, s: string, x: string, c: char, k: nat)
    requires IndexOf(t, c) == Some(k) && IndexOf(s, c) == Some(k) && t[..k] == s[..k]
    requires Split(t[k + 1..], c) == Split(s[k + 1..], c) + [x]
    ensures Split(t, c) == Split(s, c) + [x]
  {
    SplitFirst(t, c, k);
    SplitFirst(s, c, k);
    var first, rest := s[..k], Split(s[k + 1..], c);
    assert [first] + (rest + [x]) == ([first] + rest) + [x];
  }

  /** Joining two pieces without the separator splits back into them. */
  lemma SplitSnocOnce(s: string, x: string, c: char)
    requires c !in s && c !in x
    ensures Split(s + [c] + x, c) == [s, x]
  {
    var t := s + [c] + x;
    assert t[..|s|] == s;
    IndexOfFirst(t, c, |s|);
    assert t[|s| + 1..] == x;
    SplitNone(x, c);
    SplitFirst(t, c, |s|);
  }

  /** Without the separator, the split is the whole string. */
  lemma SplitNone(s: string, c: char)
    requires c !in s
    ensures Split(s, c) == [s]
  {
  }

  /** Where the separator first occurs, the split takes its first piece. */
  lemma SplitFirst(s: string, c: char, k: nat)
    requires IndexOf(s, c) == Some(k)
    ensures Split(s, c) == [s[..k]] + Split(s[k + 1..], c)
  {
  }

  /** A split of a string containing the separator ends in two pieces that are a suffix of it. */
  lemma LastTwoPieces(s: string, c: char)
    requires c in s
    ensures |Split(s, c)| >= 2
    ensures var parts := Split(s, c);
            var r := parts[|parts| - 2] + [c] + parts[|parts| - 1];
            HasSuffix(s, r) && (|r| == |s| || s[|s| - |r| - 1] == c) && Split(r, c) == parts[|parts| - 2..]
  {
    SplitCount(s, c);
    var parts := Split(s, c);
    var n := |parts|;
    var p, q := parts[n - 2], parts[n - 1];
    var r := p + [c] + q;
    JoinPair(p, q, c);
    SplitJoin([p, q], c);
    assert parts[n - 2..] == [p, q];
    JoinSplit(s, c);
    if n == 2 {
      assert parts == [p, q];
      assert s[|s| - |r|..] == r;
    } else {
      JoinLastTwo(parts, c);
      var front := Join(parts[..n - 2], c);
      assert s == front + [c] + r;
      assert s[|s| - |r|..] == r;
      assert s[|s| - |r| - 1] == c;
    }
  }

  /** Two pieces joined: the first, the separator, the second. */
  lemma JoinPair(p: string, q: string, c: char)
    ensures Join([p, q], c) == p + [c] + q
  {
    JoinCons(p, [q], c);
    assert Join([q], c) == q;
  }

  /** A join of three or more pieces ends in the last two joined. */
  lemma JoinLastTwo(parts: seq<string>, c: char)
    requires |parts| >= 3
    ensures Join(parts, c) == Join(parts[..|parts| - 2], c) + [c] + (parts[|parts| - 2] + [c] + parts[|parts| - 1])
  {
    var n := |parts|;
    assert parts == parts[..n - 2] + [parts[n - 2], parts[n - 1]];
    JoinAppend(parts[..n - 2], [parts[n - 2], parts[n - 1]], c);
    JoinPair(parts[n - 2], parts[n - 1], c);
  }

  /** Lower-casing keeps white space and non-space characters apart. */
  lemma LowerCharSpace(c: char)
    ensures IsSpace(LowerChar(c)) == IsSpace(c)
  {
  }

  lemma {:induction false} TrimLeftLower(s: string)
    ensures TrimLeft(Lower(s)) == Lower(TrimLeft(s))
    decreases |s|
  {
    if |s| > 0 {
      LowerCharSpace(s[0]);
      if IsSpace(s[0]) {
        assert Lower(s)[1..] == Lower(s[1..]);
        TrimLeftLower(s[1..]);
      }
    }
  }

  lemma {:induction false} TrimRightLower(s: string)
    ensures TrimRight(Lower(s)) == Lower(TrimRight(s))
    decreases |s|
  {
    if |s| > 0 {
      var l := Lower(s);
      LowerCharSpace(s[|s| - 1]);
      assert IsSpace(l[|l| - 1]) == IsSpace(s[|s| - 1]);
      if IsSpace(s[|s| - 1]) {
        assert l[..|l| - 1] == Lower(s[..|s| - 1]);
        assert TrimRight(l) == TrimRight(l[..|l| - 1]);
        assert TrimRight(s) == TrimRight(s[..|s| - 1]);
        TrimRightLower(s[..|s| - 1]);
      } else {
        assert TrimRight(l) == l;
        assert TrimRight(s) == s;
      }
    }
  }

  /** Trimming and lower-casing can be done in either order. */
  lemma TrimSpaceLower(s: string)
    ensures TrimSpace(Lower(s)) == Lower(TrimSpace(s))
  {
    TrimLeftLower(s);
    TrimRightLower(TrimLeft(s));
  }

  // ---------------------------------------------------------------------
  // Byte-wise order of strings
  // ---------------------------------------------------------------------

  /** Go's `<` on strings: lexicographic by character code, a proper prefix first. */
  predicate Less(a: string, b: string)
    decreases |a|
  {
    if |a| == 0 then |b| > 0
    else if |b| == 0 then false
    else a[0] < b[0] || (a[0] == b[0] && Less(a[1..], b[1..]))
  }

  lemma LessIrreflexive(a: string)
    ensures !Less(a, a)
  {
  }

  lemma {:induction false} LessTransitive(a: string, b: string, c: string)
    requires Less(a, b) && Less(b, c)
    ensures Less(a, c)
    decreases |a|
  {
    if |a| > 0 && |b| > 0 && |c| > 0 && a[0] == b[0] && b[0] == c[0] {
      LessTransitive(a[1..], b[1..], c[1..]);
    }
  }

  lemma {:induction false} LessTotal(a: string, b: string)
    ensures a == b || Less(a, b) || Less(b, a)
    decreases |a|
  {
    if |a| > 0 && |b| > 0 && a[0] == b[0] {
      LessTotal(a[1..], b[1..]);
      if a[1..] == b[1..] {
        assert a == [a[0]] + a[1..] && b == [b[0]] + b[1..];
      }
    }
  }

  lemma LessAsymmetric(a: string, b: string)
    requires Less(a, b)
    ensures !Less(b, a)
  {
    if Less(b, a) {
      LessTransitive(a, b, a);
      LessIrreflexive(a);
    }
  }

  /** The strictly ascending sequences are those `sort.Strings` produces from a set of distinct keys. */
  predicate StrictlyAscending(s: seq<string>)
  {
    forall i, j :: 0 <= i < j < |s| ==> Less(s[i], s[j])
  }

  /** A string above every element of an ascending list extends it. */
  lemma AscendingSnoc(s: seq<string>, x: string)
    requires StrictlyAscending(s)
    requires forall u :: u in s ==> Less(u, x)
    ensures StrictlyAscending(s + [x])
  {
    forall i, j | 0 <= i < j < |s| + 1 ensures Less((s + [x])[i], (s + [x])[j]) {
      if j == |s| {
        assert s[i] in s;
      }
    }
  }

  /** `x` is the least element of `s`. */
  predicate IsLeast(x: string, s: set<string>)
  {
    x in s && forall y :: y in s ==> !Less(y, x)
  }

  lemma {:induction false} LeastExists(s: set<string>)
    requires s != {}
    ensures exists x :: IsLeast(x, s)
    decreases |s|
  {
    var y :| y in s;
    LessIrreflexive(y);
    if s == {y} {
      assert IsLeast(y, s);
    } else {
      LeastExists(s - {y});
      var x :| IsLeast(x, s - {y});
      if Less(y, x) {
        forall z | z in s ensures !Less(z, y) {
          if z != y && Less(z, y) {
            LessTransitive(z, y, x);
          }
        }
        assert IsLeast(y, s);
      } else {
        assert IsLeast(x, s);
      }
    }
  }

  lemma LeastUnique(s: set<string>)
    ensures forall x, y :: IsLeast(x, s) && IsLeast(y, s) ==> x == y
  {
    forall x, y | IsLeast(x, s) && IsLeast(y, s) ensures x == y {
      LessTotal(x, y);
    }
  }

  /** The keys of a Go map collected and passed through `sort.Strings`. */
  function SortedKeys(s: set<string>): (r: seq<string>)
    ensures |r| == |s|
    ensures forall x :: x in r <==> x in s
    decreases |s|
  {
    if s == {} then []
    else
      LeastExists(s);
      LeastUnique(s);
      var m :| IsLeast(m, s);
      [m] + SortedKeys(s - {m})
  }

  lemma {:induction false} SortedKeysAscending(s: set<string>)
    ensures StrictlyAscending(SortedKeys(s))
    decreases |s|
  {
    if s != {} {
      LeastExists(s);
      LeastUnique(s);
      var m :| IsLeast(m, s);
      var rest := SortedKeys(s - {m});
      SortedKeysAscending(s - {m});
      assert SortedKeys(s) == [m] + rest;
      forall j | 0 <= j < |rest| ensures Less(m, rest[j]) {
        assert rest[j] in s - {m};
        LessTotal(m, rest[j]);
      }
    }
  }

  /** Two strictly ascending sequences with the same elements are equal: the sorted order is unique. */
  lemma {:induction false} AscendingUnique(a: seq<string>, b: seq<string>)
    requires StrictlyAscending(a) && StrictlyAscending(b)
    requires forall x :: x in a <==> x in b
    ensures a == b
    decreases |a|
  {
    assert |a| > 0 ==> a[0] in a;
    assert |b| > 0 ==> b[0] in b;
    if |a| > 0 && |b| > 0 {
      assert !Less(a[0], b[0]) by {
        assert a[0] in b;
        var i :| 0 <= i < |b| && b[i] == a[0];
        if i > 0 { LessAsymmetric(b[0], b[i]); } else { LessIrreflexive(a[0]); }
      }
      assert !Less(b[0], a[0]) by {
        assert b[0] in a;
        var i :| 0 <= i < |a| && a[i] == b[0];
        if i > 0 { LessAsymmetric(a[0], a[i]); } else { LessIrreflexive(b[0]); }
      }
      LessTotal(a[0], b[0]);
      forall x ensures x in a[1..] <==> x in b[1..] {
        if x in a[1..] {
          var i :| 1 <= i < |a| && a[i] == x;
          assert Less(a[0], a[i]);
          LessIrreflexive(x);
          assert x in b;
          var k :| 0 <= k < |b| && b[k] == x;
          assert b[1..][k - 1] == x;
        }
        if x in b[1..] {
          var i :| 1 <= i < |b| && b[i] == x;
          assert Less(b[0], b[i]);
          LessIrreflexive(x);
          assert x in a;
          var k :| 0 <= k < |a| && a[k] == x;
          assert a[1..][k - 1] == x;
        }
      }
      AscendingUnique(a[1..], b[1..]);
      assert a == [a[0]] + a[1..] && b == [b[0]] + b[1..];
    }
  }

  /** The sorted key list depends only on the key set, and is the only strictly ascending listing of it. */
  lemma SortedKeysCharacterization(s: set<string>, r: seq<string>)
    requires StrictlyAscending(r) && forall x :: x in r <==> x in s
    ensures r == SortedKeys(s)
  {
    SortedKeysAscending(s);
    AscendingUnique(r, SortedKeys(s));
  }
}
