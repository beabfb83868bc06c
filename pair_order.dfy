/** Integer pairs as Python compares tuples, and the value of `sorted(set(w))`. */
module PairOrder {

  /** A coset representative `(u, v)`: a Python tuple of two integers. */
  type Pair = (int, int)

  /** Python's `<` on two-element tuples of integers: lexicographic. */
  predicate Less(p: Pair, q: Pair) {
    p.0 < q.0 || (p.0 == q.0 && p.1 < q.1)
  }

  predicate StrictlyIncreasing(s: seq<Pair>) {
    forall i, j | 0 <= i < j < |s| :: Less(s[i], s[j])
  }

  predicate NoDuplicates<T(==)>(s: seq<T>) {
    forall i, j | 0 <= i < j < |s| :: s[i] != s[j]
  }

  /** The elements of a sequence, as Python's `set(w)` sees them. */
  ghost function Elements<T>(s: seq<T>): set<T> {
    set x | x in s
  }

  /** Adds `x` to a strictly increasing sequence, keeping it strictly increasing. */
  function Insert(x: Pair, s: seq<Pair>): (r: seq<Pair>)
    requires StrictlyIncreasing(s)
    ensures StrictlyIncreasing(r)
    ensures forall p :: p in r <==> p == x || p in s
  {
    if s == [] then [x]
    else if x == s[0] then s
    else if Less(x, s[0]) then [x] + s
    else
      var tail := Insert(x, s[1..]);
      assert forall p | p in tail :: Less(s[0], p);
      [s[0]] + tail
  }

  /** `sorted(set(w))`: the distinct elements of `w` in increasing order. */
  function SortedSet(w: seq<Pair>): (r: seq<Pair>)
    ensures StrictlyIncreasing(r)
    ensures forall p :: p in r <==> p in w
  {
    if w == [] then [] else Insert(w[0], SortedSet(w[1..]))
  }

  /** A strictly increasing sequence repeats nothing. */
  lemma StrictlyIncreasingHasNoDuplicates(s: seq<Pair>)
    requires StrictlyIncreasing(s)
    ensures NoDuplicates(s)
  {
  }

  /** There is only one strictly increasing sequence with a given set of elements. */
  lemma {:induction false} StrictlyIncreasingUnique(a: seq<Pair>, b: seq<Pair>)
    requires StrictlyIncreasing(a) && StrictlyIncreasing(b)
    requires forall p :: p in a <==> p in b
    ensures a == b
  {
    if a != [] {
      assert a[0] in a;
    }
    if b != [] {
      assert b[0] in b;
    }
    if a != [] && b != [] {
      var i :| 0 <= i < |b| && b[i] == a[0];
      var j :| 0 <= j < |a| && a[j] == b[0];
      var x, y := a[0], b[0];
      assert i == 0 || Less(y, x);
      assert j == 0 || Less(x, y);
      assert a == [a[0]] + a[1..] && b == [b[0]] + b[1..];
      forall p ensures p in a[1..] <==> p in b[1..] {
        if p in a[1..] {
          var k :| 0 <= k < |a[1..]| && a[1..][k] == p;
          assert Less(a[0], a[k + 1]);
          assert p in b && p != b[0];
        }
        if p in b[1..] {
          var k :| 0 <= k < |b[1..]| && b[1..][k] == p;
          assert Less(b[0], b[k + 1]);
          assert p in a && p != a[0];
        }
      }
      StrictlyIncreasingUnique(a[1..], b[1..]);
    }
  }

  /**
   * `sorted(set(w))` depends only on which pairs `w` holds, not on their order
   * or repetition: the order in which Python iterates a set cannot change it.
   */
  lemma SortedSetCanonical(w1: seq<Pair>, w2: seq<Pair>)
    requires forall p :: p in w1 <==> p in w2
    ensures SortedSet(w1) == SortedSet(w2)
  {
    StrictlyIncreasingUnique(SortedSet(w1), SortedSet(w2));
  }

  /** A sequence without repeats has as many elements as its set. */
  lemma {:induction false} NoDuplicatesCardinality<T>(s: seq<T>)
    requires NoDuplicates(s)
    ensures |Elements(s)| == |s|
  {
    if s != [] {
      NoDuplicatesCardinality(s[1..]);
      assert Elements(s) == {s[0]} + Elements(s[1..]);
      assert s[0] !in Elements(s[1..]);
    }
  }

  /** `len(sorted(set(w)))` is the number of distinct pairs in `w`. */
  lemma SortedSetCardinality(w: seq<Pair>)
    ensures |SortedSet(w)| == |Elements(w)|
  {
    var r := SortedSet(w);
    StrictlyIncreasingHasNoDuplicates(r);
    NoDuplicatesCardinality(r);
    assert Elements(r) == Elements(w);
  }
}
