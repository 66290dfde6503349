/**
 * `_radix_sort` (cloudvolume/storage.py): the most-significant-character-first
 * radix sort that gives filesystem listings a deterministic order.  At depth `i`
 * every string is either exhausted (`i >= len(s)`, the "done" bucket) or falls
 * into one of 255 buckets indexed by the code of its character at `i`; the done
 * bucket comes first, then the buckets in code order, each sorted at depth `i + 1`.
 *
 * A character whose code is 255 or more has no bucket: the source then raises
 * `IndexError`, but only when that string is distributed, that is, when it sits
 * in a group of at least two strings at that depth.  `SortRaises` says exactly
 * when that happens; `RadixSort` is the value returned when it does not.
 */
module Radix {
  import opened PathOps

  /** The source allocates `range(255)` buckets, so only codes 0..254 have one. */
  const BUCKETS: nat := 255

  predicate CodesFitBuckets(s: string) {
    forall j :: 0 <= j < |s| ==> (s[j] as int) < BUCKETS
  }

  predicate AllCodesFitBuckets(L: seq<string>) {
    forall s :: s in L ==> CodesFitBuckets(s)
  }

  /** The length of the longest string (0 for no strings). */
  function MaxLen(L: seq<string>): nat {
    if L == [] then 0
    else var rest := MaxLen(L[1..]); if |L[0]| > rest then |L[0]| else rest
  }

  lemma {:induction false} MaxLenBound(L: seq<string>)
    ensures forall s :: s in L ==> |s| <= MaxLen(L)
  {
    if L != [] {
      MaxLenBound(L[1..]);
    }
  }

  /** The termination measure: how many positions remain to be inspected from depth `i`. */
  function Potential(L: seq<string>, i: nat): nat {
    if MaxLen(L) >= i then MaxLen(L) - i else 0
  }

  /** The done bucket: the strings with `i >= len(s)`, in input order. */
  function Done(L: seq<string>, i: nat): seq<string> {
    if L == [] then []
    else (if |L[0]| <= i then [L[0]] else []) + Done(L[1..], i)
  }

  /** Bucket `c`: the strings whose character at `i` has code `c`, in input order. */
  function Bucket(L: seq<string>, i: nat, c: int): seq<string> {
    if L == [] then []
    else (if |L[0]| > i && L[0][i] as int == c then [L[0]] else []) + Bucket(L[1..], i, c)
  }

  /** The contents of buckets `c`, `c + 1`, ... taken together (a specification helper). */
  function FromBucket(L: seq<string>, i: nat, c: int): seq<string> {
    if L == [] then []
    else (if |L[0]| > i && L[0][i] as int >= c then [L[0]] else []) + FromBucket(L[1..], i, c)
  }

  lemma {:induction false} DoneMembers(L: seq<string>, i: nat)
    ensures forall s :: s in Done(L, i) ==> s in L && |s| <= i
  {
    if L != [] {
      DoneMembers(L[1..], i);
    }
  }

  lemma {:induction false} BucketMembers(L: seq<string>, i: nat, c: int)
    ensures forall s :: s in Bucket(L, i, c) ==> s in L && |s| > i && s[i] as int == c
  {
    if L != [] {
      BucketMembers(L[1..], i, c);
    }
  }

  lemma {:induction false} FromBucketMembers(L: seq<string>, i: nat, c: int)
    ensures forall s :: s in FromBucket(L, i, c) ==> s in L && |s| > i && s[i] as int >= c
  {
    if L != [] {
      FromBucketMembers(L[1..], i, c);
    }
  }

  /** Sorting bucket `c` at the next depth is a smaller problem: what makes the sort terminate. */
  lemma BucketPotential(L: seq<string>, i: nat, c: int)
    requires |L| >= 2
    ensures Potential(Bucket(L, i, c), i + 1) < Potential(L, i)
         || (Potential(Bucket(L, i, c), i + 1) == Potential(L, i) && |Bucket(L, i, c)| < |L|)
  {
    var b := Bucket(L, i, c);
    BucketMembers(L, i, c);
    if b != [] {
      assert b[0] in b;
      MaxLenBound(L);
      MaxLenAttained(b);
      assert |b[0]| > i;
    }
  }

  lemma {:induction false} MaxLenAttained(L: seq<string>)
    requires L != []
    ensures exists s :: s in L && |s| == MaxLen(L)
  {
    if L[1..] == [] {
      assert MaxLen(L[1..]) == 0;
      assert L[0] in L;
    } else {
      MaxLenAttained(L[1..]);
      var s :| s in L[1..] && |s| == MaxLen(L[1..]);
      assert s in L;
      assert L[0] in L;
    }
  }

  /** The sort itself: `_radix_sort(L, i)`. */
  function RadixSort(L: seq<string>, i: nat): seq<string>
    decreases Potential(L, i), |L|, 1
  {
    if |L| <= 1 then L
    else Done(L, i) + SortBuckets(L, i, 0)
  }

  /** `[b for blist in buckets[c:] for b in _radix_sort(blist, i + 1)]`. */
  function SortBuckets(L: seq<string>, i: nat, c: nat): seq<string>
    requires |L| >= 2 && c <= BUCKETS
    decreases Potential(L, i), |L|, 0, BUCKETS - c
  {
    if c == BUCKETS then []
    else
      BucketPotential(L, i, c);
      RadixSort(Bucket(L, i, c), i + 1) + SortBuckets(L, i, c + 1)
  }

  /** Some string distributed at depth `i` has a character without a bucket. */
  predicate BadCodeAt(L: seq<string>, i: nat) {
    exists j :: 0 <= j < |L| && |L[j]| > i && L[j][i] as int >= BUCKETS
  }

  /** `_radix_sort(L, i)` raises `IndexError`, at this depth or in a recursive call. */
  predicate SortRaises(L: seq<string>, i: nat)
    decreases Potential(L, i), |L|, 1
  {
    |L| >= 2 && (BadCodeAt(L, i) || BucketsRaise(L, i, 0))
  }

  /** Sorting one of buckets `c`, `c + 1`, ... raises. */
  predicate BucketsRaise(L: seq<string>, i: nat, c: nat)
    requires |L| >= 2 && c <= BUCKETS
    decreases Potential(L, i), |L|, 0, BUCKETS - c
  {
    c < BUCKETS &&
      (BucketPotential(L, i, c);
       SortRaises(Bucket(L, i, c), i + 1) || BucketsRaise(L, i, c + 1))
  }

  /** Strings whose every code has a bucket never make the sort raise. */
  lemma {:induction false} FittingCodesNeverRaise(L: seq<string>, i: nat)
    requires AllCodesFitBuckets(L)
    ensures !SortRaises(L, i)
    decreases Potential(L, i), |L|, 1
  {
    if |L| >= 2 {
      assert !BadCodeAt(L, i) by {
        forall j | 0 <= j < |L| && |L[j]| > i ensures L[j][i] as int < BUCKETS {
          assert L[j] in L;
        }
      }
      FittingBucketsNeverRaise(L, i, 0);
    }
  }

  lemma {:induction false} FittingBucketsNeverRaise(L: seq<string>, i: nat, c: nat)
    requires AllCodesFitBuckets(L)
    requires |L| >= 2 && c <= BUCKETS
    ensures !BucketsRaise(L, i, c)
    decreases Potential(L, i), |L|, 0, BUCKETS - c
  {
    if c < BUCKETS {
      BucketPotential(L, i, c);
      BucketMembers(L, i, c);
      FittingCodesNeverRaise(Bucket(L, i, c), i + 1);
      FittingBucketsNeverRaise(L, i, c + 1);
    }
  }

  /** How often `s` lands in bucket `c`: as often as it occurs in `L`, if its code at `i` is `c`. */
  lemma {:induction false} BucketCount(L: seq<string>, i: nat, c: int, s: string)
    ensures multiset(Bucket(L, i, c))[s] == if |s| > i && s[i] as int == c then multiset(L)[s] else 0
  {
    if L != [] {
      BucketCount(L[1..], i, c, s);
      assert L == [L[0]] + L[1..];
    }
  }

  /** Permuting the input permutes every bucket. */
  lemma BucketPermute(a: seq<string>, b: seq<string>, i: nat, c: int)
    requires multiset(a) == multiset(b)
    ensures multiset(Bucket(a, i, c)) == multiset(Bucket(b, i, c))
  {
    forall s ensures multiset(Bucket(a, i, c))[s] == multiset(Bucket(b, i, c))[s] {
      BucketCount(a, i, c, s);
      BucketCount(b, i, c, s);
    }
  }

  lemma BadCodePermute(a: seq<string>, b: seq<string>, i: nat)
    requires multiset(a) == multiset(b)
    requires BadCodeAt(a, i)
    ensures BadCodeAt(b, i)
  {
    var j :| 0 <= j < |a| && |a[j]| > i && a[j][i] as int >= BUCKETS;
    assert a[j] in multiset(b);
    var k :| 0 <= k < |b| && b[k] == a[j];
  }

  /**
   * Whether the sort raises depends only on which strings it is given, not on
   * their order: whether a listing fails is as independent of the walk as its
   * result.
   */
  lemma {:induction false} SortRaisesPermute(a: seq<string>, b: seq<string>, i: nat)
    requires multiset(a) == multiset(b)
    ensures SortRaises(a, i) == SortRaises(b, i)
    decreases Potential(a, i), |a|, 1
  {
    assert |a| == |multiset(a)| == |b|;
    if |a| >= 2 {
      if BadCodeAt(a, i) {
        BadCodePermute(a, b, i);
      }
      if BadCodeAt(b, i) {
        BadCodePermute(b, a, i);
      }
      BucketsRaisePermute(a, b, i, 0);
    }
  }

  lemma {:induction false} BucketsRaisePermute(a: seq<string>, b: seq<string>, i: nat, c: nat)
    requires multiset(a) == multiset(b)
    requires |a| >= 2 && |b| >= 2 && c <= BUCKETS
    ensures BucketsRaise(a, i, c) == BucketsRaise(b, i, c)
    decreases Potential(a, i), |a|, 0, BUCKETS - c
  {
    if c < BUCKETS {
      BucketPotential(a, i, c);
      BucketPotential(b, i, c);
      BucketPermute(a, b, i, c);
      SortRaisesPermute(Bucket(a, i, c), Bucket(b, i, c), i + 1);
      BucketsRaisePermute(a, b, i, c + 1);
    }
  }

  /** Two strings whose first characters include code 255 make the sort raise at once. */
  lemma OutOfRangeCodeRaises()
    ensures SortRaises(["a", [255 as char]], 0)
  {
    var L := ["a", [255 as char]];
    assert |L[1]| > 0 && L[1][0] as int >= BUCKETS;
  }

  // ---------------------------------------------------------------------------
  // The order the sort produces.

  /** `a` is strictly below `b` at position `k`, the first position where they differ. */
  ghost predicate BelowAt(a: string, b: string, k: int) {
    0 <= k < |a| && k < |b| && a[..k] == b[..k] && a[k] < b[k]
  }

  /** Lexicographic order on code points (Python's `<=` on `str`): a prefix comes first. */
  ghost predicate LexLe(a: string, b: string) {
    IsPrefix(a, b) || exists k :: BelowAt(a, b, k)
  }

  /** The strings at positions `j` and `k` of `s` are in order. */
  ghost predicate InOrderAt(s: seq<string>, j: int, k: int)
    requires 0 <= j < |s| && 0 <= k < |s|
  {
    LexLe(s[j], s[k])
  }

  /** Every string is lexicographically at most every later one. */
  ghost predicate Sorted(s: seq<string>) {
    forall j, k :: 0 <= j < k < |s| ==> InOrderAt(s, j, k)
  }

  lemma PrefixNotBelow(a: string, b: string, k: int)
    requires IsPrefix(a, b)
    ensures !BelowAt(b, a, k)
  {
    if 0 <= k < |a| {
      assert a[k] == b[..|a|][k];
    }
  }

  lemma BelowExclusive(a: string, b: string, k1: int, k2: int)
    requires BelowAt(a, b, k1)
    ensures !BelowAt(b, a, k2)
  {
    if k1 < k2 <= |a| && k2 <= |b| {
      assert a[..k2][k1] == a[k1];
      assert b[..k2][k1] == b[k1];
    } else if 0 <= k2 < k1 {
      assert a[..k1][k2] == a[k2];
      assert b[..k1][k2] == b[k2];
    }
  }

  lemma LexLeAntisymmetric(a: string, b: string)
    requires LexLe(a, b) && LexLe(b, a)
    ensures a == b
  {
    forall k ensures !(IsPrefix(a, b) && BelowAt(b, a, k)) && !(IsPrefix(b, a) && BelowAt(a, b, k)) {
      if IsPrefix(a, b) { PrefixNotBelow(a, b, k); }
      if IsPrefix(b, a) { PrefixNotBelow(b, a, k); }
    }
    forall k1, k2 ensures !(BelowAt(a, b, k1) && BelowAt(b, a, k2)) {
      if BelowAt(a, b, k1) { BelowExclusive(a, b, k1, k2); }
    }
  }

  lemma SortedAppend(a: seq<string>, b: seq<string>)
    requires Sorted(a) && Sorted(b)
    requires forall x, y :: x in a && y in b ==> LexLe(x, y)
    ensures Sorted(a + b)
  {
    var s := a + b;
    forall j, k | 0 <= j < k < |s| ensures InOrderAt(s, j, k) {
      if k < |a| {
        assert s[j] == a[j] && s[k] == a[k];
        assert InOrderAt(a, j, k);
      } else if j >= |a| {
        assert s[j] == b[j - |a|] && s[k] == b[k - |a|];
        assert InOrderAt(b, j - |a|, k - |a|);
      } else {
        assert s[j] == a[j] && s[k] == b[k - |a|];
      }
    }
  }

  // ---------------------------------------------------------------------------
  // Permutation.

  lemma {:induction false} PartitionDone(L: seq<string>, i: nat)
    ensures multiset(L) == multiset(Done(L, i)) + multiset(FromBucket(L, i, 0))
  {
    if L != [] {
      PartitionDone(L[1..], i);
      assert L == [L[0]] + L[1..];
    }
  }

  lemma {:induction false} PartitionBucket(L: seq<string>, i: nat, c: int)
    ensures multiset(FromBucket(L, i, c)) == multiset(Bucket(L, i, c)) + multiset(FromBucket(L, i, c + 1))
  {
    if L != [] {
      PartitionBucket(L[1..], i, c);
    }
  }

  lemma {:induction false} NoBucketBeyondLast(L: seq<string>, i: nat)
    requires !BadCodeAt(L, i)
    ensures FromBucket(L, i, BUCKETS) == []
  {
    if L != [] {
      assert !BadCodeAt(L[1..], i) by {
        forall j | 0 <= j < |L[1..]| && |L[1..][j]| > i ensures L[1..][j][i] as int < BUCKETS {
          assert L[1..][j] == L[j + 1];
        }
      }
      NoBucketBeyondLast(L[1..], i);
    }
  }

  lemma {:induction false} RadixSortPermutes(L: seq<string>, i: nat)
    requires !SortRaises(L, i)
    ensures multiset(RadixSort(L, i)) == multiset(L)
    decreases Potential(L, i), |L|, 1
  {
    if |L| > 1 {
      SortBucketsPermutes(L, i, 0);
      PartitionDone(L, i);
    }
  }

  lemma {:induction false} SortBucketsPermutes(L: seq<string>, i: nat, c: nat)
    requires |L| >= 2 && c <= BUCKETS
    requires !BadCodeAt(L, i) && !BucketsRaise(L, i, c)
    ensures multiset(SortBuckets(L, i, c)) == multiset(FromBucket(L, i, c))
    decreases Potential(L, i), |L|, 0, BUCKETS - c
  {
    if c == BUCKETS {
      NoBucketBeyondLast(L, i);
    } else {
      BucketPotential(L, i, c);
      RadixSortPermutes(Bucket(L, i, c), i + 1);
      SortBucketsPermutes(L, i, c + 1);
      PartitionBucket(L, i, c);
    }
  }

  // ---------------------------------------------------------------------------
  // Order.

  lemma {:induction false} RadixSortOrders(L: seq<string>, i: nat, p: string)
    requires !SortRaises(L, i)
    requires |p| == i && forall s :: s in L ==> IsPrefix(p, s)
    ensures Sorted(RadixSort(L, i))
    decreases Potential(L, i), |L|, 1
  {
    if |L| > 1 {
      var d := Done(L, i);
      var rest := SortBuckets(L, i, 0);
      SortBucketsOrders(L, i, 0, p);
      SortBucketsMembers(L, i, 0, p);
      DoneMembers(L, i);
      forall x | x in d ensures x == p {
        assert IsPrefix(p, x) && |x| <= i;
      }
      forall j, k | 0 <= j < k < |d| ensures InOrderAt(d, j, k) {
        assert d[j] in d && d[k] in d;
        assert d[j] == p == d[k];
        assert IsPrefix(d[j], d[k]);
      }
      forall x, y | x in d && y in rest ensures LexLe(x, y) {
        assert x == p;
      }
      SortedAppend(d, rest);
    }
  }

  lemma {:induction false} SortBucketsOrders(L: seq<string>, i: nat, c: nat, p: string)
    requires |L| >= 2 && c <= BUCKETS
    requires !BadCodeAt(L, i) && !BucketsRaise(L, i, c)
    requires |p| == i && forall s :: s in L ==> IsPrefix(p, s)
    ensures Sorted(SortBuckets(L, i, c))
    decreases Potential(L, i), |L|, 0, BUCKETS - c
  {
    if c < BUCKETS {
      BucketPotential(L, i, c);
      BucketSharesPrefix(L, i, c, p);
      RadixSortOrders(Bucket(L, i, c), i + 1, p + [c as char]);
      SortBucketsOrders(L, i, c + 1, p);
      JoinBuckets(L, i, c, p);
    }
  }

  /** Sorted bucket `c` followed by the sorted later buckets is sorted. */
  lemma JoinBuckets(L: seq<string>, i: nat, c: nat, p: string)
    requires |L| >= 2 && c < BUCKETS
    requires !BadCodeAt(L, i) && !BucketsRaise(L, i, c)
    requires |p| == i && forall s :: s in L ==> IsPrefix(p, s)
    requires Sorted(RadixSort(Bucket(L, i, c), i + 1)) && Sorted(SortBuckets(L, i, c + 1))
    ensures Sorted(SortBuckets(L, i, c))
  {
    var here := RadixSort(Bucket(L, i, c), i + 1);
    var later := SortBuckets(L, i, c + 1);
    BucketsInOrder(L, i, c, p);
    SortedAppend(here, later);
    assert SortBuckets(L, i, c) == here + later;
  }

  /** Everything the buckets from `c` on yield shares the prefix and has a code of at least `c` at `i`. */
  lemma SortBucketsMembers(L: seq<string>, i: nat, c: nat, p: string)
    requires |L| >= 2 && c <= BUCKETS
    requires !BadCodeAt(L, i) && !BucketsRaise(L, i, c)
    requires forall s :: s in L ==> IsPrefix(p, s)
    ensures forall x :: x in SortBuckets(L, i, c) ==> IsPrefix(p, x) && |x| > i && x[i] as int >= c
  {
    SortBucketsPermutes(L, i, c);
    FromBucketMembers(L, i, c);
    forall x | x in SortBuckets(L, i, c) ensures x in FromBucket(L, i, c) {
      assert x in multiset(SortBuckets(L, i, c));
    }
  }

  lemma BucketSharesPrefix(L: seq<string>, i: nat, c: nat, p: string)
    requires c < BUCKETS
    requires |p| == i && forall s :: s in L ==> IsPrefix(p, s)
    ensures forall s :: s in Bucket(L, i, c) ==> IsPrefix(p + [c as char], s)
  {
    BucketMembers(L, i, c);
    forall s | s in Bucket(L, i, c) ensures IsPrefix(p + [c as char], s) {
      assert s[..i] == p;
      assert s[..i + 1] == s[..i] + [s[i]];
    }
  }

  lemma RadixSortMembers(b: seq<string>, i: nat)
    requires !SortRaises(b, i)
    ensures forall x :: x in RadixSort(b, i) ==> x in b
  {
    RadixSortPermutes(b, i);
    forall x | x in RadixSort(b, i) ensures x in b {
      assert x in multiset(RadixSort(b, i));
    }
  }

  /** Bucket `c`, sorted, comes wholly before what the buckets after it yield. */
  lemma BucketsInOrder(L: seq<string>, i: nat, c: nat, p: string)
    requires |L| >= 2 && c < BUCKETS
    requires !BadCodeAt(L, i) && !BucketsRaise(L, i, c)
    requires |p| == i && forall s :: s in L ==> IsPrefix(p, s)
    ensures forall x, y :: x in RadixSort(Bucket(L, i, c), i + 1) && y in SortBuckets(L, i, c + 1) ==> LexLe(x, y)
  {
    var here := RadixSort(Bucket(L, i, c), i + 1);
    var later := SortBuckets(L, i, c + 1);
    assert forall x :: x in here ==> IsPrefix(p, x) && |x| > i && x[i] as int == c by {
      RadixSortMembers(Bucket(L, i, c), i + 1);
      BucketMembers(L, i, c);
    }
    assert forall y :: y in later ==> IsPrefix(p, y) && |y| > i && y[i] as int > c by {
      SortBucketsMembers(L, i, c + 1, p);
    }
    DifferentCodesInOrder(here, later, i, c, p);
  }

  lemma DifferentCodesInOrder(here: seq<string>, later: seq<string>, i: nat, c: nat, p: string)
    requires |p| == i
    requires forall x :: x in here ==> IsPrefix(p, x) && |x| > i && x[i] as int == c
    requires forall y :: y in later ==> IsPrefix(p, y) && |y| > i && y[i] as int > c
    ensures forall x, y :: x in here && y in later ==> LexLe(x, y)
  {
    forall x, y | x in here && y in later ensures LexLe(x, y) {
      assert x[..i] == p == y[..i];
      assert BelowAt(x, y, i);
    }
  }

  // ---------------------------------------------------------------------------
  // Uniqueness: a sorted permutation is determined by its multiset.

  lemma SortedTail(s: seq<string>)
    requires Sorted(s) && s != []
    ensures Sorted(s[1..])
  {
    forall j, k | 0 <= j < k < |s[1..]| ensures InOrderAt(s[1..], j, k) {
      assert InOrderAt(s, j + 1, k + 1);
    }
  }

  lemma SortedHeadLeast(s: seq<string>, x: string)
    requires Sorted(s) && x in s
    ensures LexLe(s[0], x)
  {
    var j :| 0 <= j < |s| && s[j] == x;
    if j == 0 {
      assert IsPrefix(x, x);
    } else {
      assert InOrderAt(s, 0, j);
    }
  }

  /** Two sorted arrangements of one multiset start with the same string. */
  lemma SortedHeadsAgree(a: seq<string>, b: seq<string>)
    requires Sorted(a) && Sorted(b) && multiset(a) == multiset(b) && a != []
    ensures b != [] && a[0] == b[0]
  {
    assert a[0] in multiset(b);
    assert b[0] in multiset(a);
    SortedHeadLeast(b, a[0]);
    SortedHeadLeast(a, b[0]);
    LexLeAntisymmetric(a[0], b[0]);
  }

  lemma SameHeadTails(a: seq<string>, b: seq<string>)
    requires a != [] && b != [] && a[0] == b[0] && multiset(a) == multiset(b)
    ensures multiset(a[1..]) == multiset(b[1..])
  {
    assert a == [a[0]] + a[1..];
    assert b == [b[0]] + b[1..];
    assert multiset(a[1..]) == multiset(a) - multiset{a[0]};
    assert multiset(b[1..]) == multiset(b) - multiset{b[0]};
  }

  lemma {:induction false} SortedUnique(a: seq<string>, b: seq<string>)
    requires Sorted(a) && Sorted(b) && multiset(a) == multiset(b)
    ensures a == b
    decreases |a|
  {
    if a != [] {
      SortedHeadsAgree(a, b);
      SameHeadTails(a, b);
      SortedTail(a);
      SortedTail(b);
      SortedUnique(a[1..], b[1..]);
      assert a == [a[0]] + a[1..];
      assert b == [b[0]] + b[1..];
    } else {
      assert |b| == |multiset(b)|;
    }
  }

  /**
   * What the listing relies on: from depth 0 the sort returns a permutation of
   * its input in lexicographic order (each string before every string it is a
   * proper prefix of), it is the only such arrangement, and a list of at most
   * one string comes back unchanged.
   */
  lemma RadixSortCorrect(L: seq<string>)
    requires !SortRaises(L, 0)
    ensures multiset(RadixSort(L, 0)) == multiset(L)
    ensures Sorted(RadixSort(L, 0))
    ensures forall r :: Sorted(r) && multiset(r) == multiset(L) ==> r == RadixSort(L, 0)
    ensures |L| <= 1 ==> RadixSort(L, 0) == L
  {
    RadixSortPermutes(L, 0);
    RadixSortOrders(L, 0, "");
    forall r | Sorted(r) && multiset(r) == multiset(L) ensures r == RadixSort(L, 0) {
      SortedUnique(r, RadixSort(L, 0));
    }
  }
}
