/**
 * Collecting the entries a walk over a sequence of keys produces: `entry(k)`
 * is the name reported for key `k`, or nothing.  The multiset of collected
 * names depends only on the multiset of keys visited, not on their order.
 */
module Collecting {
  import opened Wrappers

  /** The entries for `keys`, in visiting order, with the skipped keys dropped. */
  function Collect<K, N>(entry: K -> Option<N>, keys: seq<K>): seq<N> {
    if keys == [] then []
    else Emit(entry(keys[0])) + Collect(entry, keys[1..])
  }

  /** The names one entry contributes. */
  function Emit<N>(e: Option<N>): seq<N> {
    if e.Some? then [e.value] else []
  }

  /** A single key contributes its entry, if any. */
  lemma CollectOne<K, N>(entry: K -> Option<N>, key: K)
    ensures Collect(entry, [key]) == Emit(entry(key))
  {
    assert [key][1..] == [];
  }

  /** Two keys contribute their entries in order. */
  lemma CollectPair<K, N>(entry: K -> Option<N>, a: K, b: K)
    ensures Collect(entry, [a, b]) == Emit(entry(a)) + Emit(entry(b))
  {
    assert [a, b][1..] == [b];
    CollectOne(entry, b);
  }

  /** Collecting distributes over concatenation of visiting orders. */
  lemma {:induction false} CollectConcat<K, N>(entry: K -> Option<N>, a: seq<K>, b: seq<K>)
    ensures Collect(entry, a + b) == Collect(entry, a) + Collect(entry, b)
  {
    if a == [] {
      assert a + b == b;
    } else {
      var ab := a + b;
      assert ab[0] == a[0];
      assert ab[1..] == a[1..] + b;
      CollectConcat(entry, a[1..], b);
      calc {
        Collect(entry, ab);
        Emit(entry(a[0])) + Collect(entry, a[1..] + b);
        Emit(entry(a[0])) + (Collect(entry, a[1..]) + Collect(entry, b));
        (Emit(entry(a[0])) + Collect(entry, a[1..])) + Collect(entry, b);
      }
    }
  }

  /** The elements of `front + [x] + back` are `x` and those of `front + back`. */
  lemma MultisetAround<K>(front: seq<K>, x: K, back: seq<K>)
    ensures multiset(front + [x] + back) == multiset{x} + multiset(front + back)
  {
    assert multiset(front + [x] + back) == multiset(front) + multiset{x} + multiset(back);
  }

  /** Taking the same element out of two equal multisets leaves equal multisets. */
  lemma CancelOne<K>(x: K, m: multiset<K>, n: multiset<K>)
    requires multiset{x} + m == multiset{x} + n
    ensures m == n
  {
    forall y ensures m[y] == n[y] {
      assert (multiset{x} + m)[y] == (multiset{x} + n)[y];
    }
  }

  /** A permutation of `a` has `a[0]` somewhere, with a permutation of the rest of `a` around it. */
  lemma SplitAtOccurrence<K>(a: seq<K>, b: seq<K>) returns (front: seq<K>, back: seq<K>)
    requires a != [] && multiset(a) == multiset(b)
    ensures b == front + [a[0]] + back
    ensures multiset(a[1..]) == multiset(front + back)
  {
    var x := a[0];
    assert x in multiset(b);
    var j :| 0 <= j < |b| && b[j] == x;
    front, back := b[..j], b[j + 1..];
    assert b == front + [x] + back;
    assert a == [] + [x] + a[1..];
    MultisetAround([], x, a[1..]);
    MultisetAround(front, x, back);
    CancelOne(x, multiset([] + a[1..]), multiset(front + back));
    assert [] + a[1..] == a[1..];
  }

  /** The names collected around a key `x`: those for `x`, and those for the keys around it. */
  lemma CollectAround<K, N>(entry: K -> Option<N>, front: seq<K>, x: K, back: seq<K>)
    ensures multiset(Collect(entry, front + [x] + back)) == multiset(Collect(entry, [x])) + multiset(Collect(entry, front + back))
  {
    CollectConcat(entry, front + [x], back);
    CollectConcat(entry, front, [x]);
    CollectConcat(entry, front, back);
  }

  /** The visiting order changes the order of the collected names, never which names (with their multiplicity). */
  lemma {:induction false} CollectPermute<K, N>(entry: K -> Option<N>, a: seq<K>, b: seq<K>)
    requires multiset(a) == multiset(b)
    ensures multiset(Collect(entry, a)) == multiset(Collect(entry, b))
    decreases |a|
  {
    if a == [] {
      assert |b| == |multiset(b)|;
    } else {
      var front, back := SplitAtOccurrence(a, b);
      CollectPermute(entry, a[1..], front + back);
      CollectAround(entry, front, a[0], back);
      CollectAround(entry, [], a[0], a[1..]);
      assert [] + [a[0]] + a[1..] == a;
      assert [] + a[1..] == a[1..];
    }
  }
}
