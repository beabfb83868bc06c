/**
 * The list of coset representatives of a congruence subgroup Gamma_H(N) in
 * SL_2(Z), built once from the group and then only queried.
 *
 * The group's own arithmetic is not part of this model. What the list needs
 * of it is carried as data: the level, the first part of the coset-reduction
 * data, and the reduction map as a total function. The enumeration of
 * P^1(Z/NZ) is passed in as a function of the level, and the ordering on
 * groups that comparison delegates to as a function of two groups and an
 * operator. Nothing about these is assumed by the operations; the lemmas that
 * need more of them name what they need in their requires clauses.
 */
module Ghlist {
  import opened PairOrder

  /** One entry `(a, b, _)` of the coset-reduction data; the third part is never read. */
  datatype ReductionEntry = ReductionEntry(a: int, b: int, rest: int)

  /** What GHlist uses of the group Gamma_H(N). */
  datatype Group = Group(
    level: int,
    cosetReductionData: seq<ReductionEntry>,
    reduceCoset: (int, int) -> Pair)

  /** The function N |-> P1List(N).list(). */
  type P1Enumeration = int -> seq<Pair>

  /** The two private fields, both set once at construction. */
  datatype GHlist = GHlist(group: Group, reps: seq<Pair>)

  /** Result of `L[i]`: the pair, or Python's IndexError. */
  datatype Lookup = Found(pair: Pair) | IndexError

  /** Python's comparison operators, as passed to `__richcmp__`. */
  datatype CmpOp = Lt | Le | Eq | Ne | Gt | Ge

  /** The right-hand operand of a comparison: a GHlist or any other object. */
  datatype Operand = AGHlist(list: GHlist) | OtherObject

  /** What `__richcmp__` returns: `NotImplemented` or a truth value. */
  datatype RichCmpResult = NotImplemented | Answer(holds: bool)

  // ---------------------------------------------------------------------
  // Reference definitions

  /** The seed values: first components `a` of entries whose `b` is 1. */
  ghost function SeedSet(data: seq<ReductionEntry>): set<int> {
    set e | e in data && e.b == 1 :: e.a
  }

  /** The pairs `reduce(x*u, x*v)` for a seed `x` and `(u, v)` in P1List(N). */
  ghost function ImageSet(group: Group, p1: P1Enumeration): set<Pair> {
    set x, q | x in SeedSet(group.cosetReductionData) && q in p1(group.level)
      :: group.reduceCoset(x * q.0, x * q.1)
  }

  /** The reduction map returns each of its own outputs unchanged. */
  ghost predicate Idempotent(reduce: (int, int) -> Pair) {
    forall u, v :: reduce(reduce(u, v).0, reduce(u, v).1) == reduce(u, v)
  }

  function Abs(n: int): nat {
    if n < 0 then -n else n
  }

  function Gcd(a: nat, b: nat): nat
    decreases b
  {
    if b == 0 then a else Gcd(b, a % b)
  }

  /** `gcd(u, v, N) == 1`. */
  predicate Primitive(u: int, v: int, n: int) {
    Gcd(Gcd(Abs(u), Abs(v)), Abs(n)) == 1
  }

  /**
   * The group and the enumeration together reach every class: each pair with
   * `gcd(u, v, N) == 1` reduces to the image of a seed times a P^1 element.
   * This is the group-theoretic promise the list relies on; it is assumed
   * where used, never proved.
   */
  ghost predicate ReductionComplete(group: Group, p1: P1Enumeration) {
    forall u, v | Primitive(u, v, group.level) ::
      group.reduceCoset(u, v) in ImageSet(group, p1)
  }

  // ---------------------------------------------------------------------
  // Construction

  /** `set([a for a, b, _ in data if b == 1])`, as a sequence without repeats. */
  function Seeds(data: seq<ReductionEntry>): (r: seq<int>)
    ensures NoDuplicates(r)
    ensures forall a :: a in r <==> a in SeedSet(data)
  {
    if data == [] then []
    else
      var rest := Seeds(data[1..]);
      assert SeedSet(data) == SeedSet(data[1..]) + (if data[0].b == 1 then {data[0].a} else {});
      if data[0].b == 1 && data[0].a !in rest then [data[0].a] + rest else rest
  }

  /** The reductions `reduce(x*u, x*v)` for one seed `x`, in the order of `pairs`. */
  function Row(reduce: (int, int) -> Pair, x: int, pairs: seq<Pair>): (row: seq<Pair>)
    ensures |row| == |pairs|
    ensures forall p :: p in row <==> exists q :: q in pairs && p == reduce(x * q.0, x * q.1)
  {
    if pairs == [] then []
    else [reduce(x * pairs[0].0, x * pairs[0].1)] + Row(reduce, x, pairs[1..])
  }

  /** The list comprehension over every seed and every element of P1List(N). */
  function ReducedPairs(reduce: (int, int) -> Pair, seeds: seq<int>, pairs: seq<Pair>): (w: seq<Pair>)
    ensures |w| == |seeds| * |pairs|
    ensures forall p :: p in w <==>
      exists x, q :: x in seeds && q in pairs && p == reduce(x * q.0, x * q.1)
  {
    if seeds == [] then []
    else
      var row := Row(reduce, seeds[0], pairs);
      var rest := ReducedPairs(reduce, seeds[1..], pairs);
      assert forall p :: p in row + rest <==>
        exists x, q :: x in seeds && q in pairs && p == reduce(x * q.0, x * q.1)
      by {
        forall p | p in row
          ensures exists x, q :: x in seeds && q in pairs && p == reduce(x * q.0, x * q.1)
        {
          var q :| q in pairs && p == reduce(seeds[0] * q.0, seeds[0] * q.1);
          assert seeds[0] in seeds;
        }
        forall p | p in rest
          ensures exists x, q :: x in seeds && q in pairs && p == reduce(x * q.0, x * q.1)
        {
          var x, q :| x in seeds[1..] && q in pairs && p == reduce(x * q.0, x * q.1);
          assert x in seeds;
        }
        forall p | exists x, q :: x in seeds && q in pairs && p == reduce(x * q.0, x * q.1)
          ensures p in row + rest
        {
          var x, q :| x in seeds && q in pairs && p == reduce(x * q.0, x * q.1);
          if x != seeds[0] {
            assert x in seeds[1..];
          }
        }
      }
      assert |seeds| * |pairs| == |pairs| + (|seeds| - 1) * |pairs|;
      row + rest
  }

  /** `GHlist(group)`: the sorted distinct reductions of seed multiples of P^1 elements. */
  function New(group: Group, p1: P1Enumeration): (L: GHlist)
    ensures L.group == group
    ensures StrictlyIncreasing(L.reps)
    ensures forall p :: p in L.reps <==> p in ImageSet(group, p1)
  {
    // `GHlist.__init__` calls `group.level()` twice and reuses the name `v` for
    // the loop variable; the seeds are fixed before the comprehension, so
    // neither matters.
    var n := group.level;
    var cosetReps := Seeds(group.cosetReductionData);
    var w := ReducedPairs(group.reduceCoset, cosetReps, p1(n));
    GHlist(group, SortedSet(w))
  }

  /** `L` is what the constructor built from its own group. */
  ghost predicate Built(L: GHlist, p1: P1Enumeration) {
    L.reps == New(L.group, p1).reps
  }

  // ---------------------------------------------------------------------
  // Queries

  /** `len(L)`: exactly the positions `-n <= i < n` can be indexed. */
  function Length(L: GHlist): (n: nat)
    ensures forall i :: GetItem(L, i).Found? <==> 0 <= i + n && i < n
  {
    |L.reps|
  }

  /** `L[i]` with Python's list indexing: negative `i` counts from the end. */
  function GetItem(L: GHlist, i: int): (r: Lookup)
    ensures r.Found? <==> -|L.reps| <= i < |L.reps|
    ensures r.Found? ==> r.pair in L.reps
    ensures r.Found? && 0 <= i ==> r.pair == L.reps[i]
    ensures r.Found? && i < 0 ==> r.pair == L.reps[|L.reps| + i]
  {
    if 0 <= i < |L.reps| then Found(L.reps[i])
    else if -|L.reps| <= i < 0 then Found(L.reps[|L.reps| + i])
    else IndexError
  }

  /** `L.list()`: the stored sequence, position for position what indexing returns. */
  function List(L: GHlist): (r: seq<Pair>)
    ensures |r| == Length(L)
    ensures forall i | 0 <= i < |r| :: GetItem(L, i) == Found(r[i])
  {
    L.reps
  }

  /** `L.normalize(u, v)`: the group's reduction, without looking at the list. */
  function Normalize(L: GHlist, u: int, v: int): (r: Pair)
    ensures r == L.group.reduceCoset(u, v)
  {
    L.group.reduceCoset(u, v)
  }

  /** `L.__richcmp__(other, op)`: delegated to the two groups. */
  function RichCmp(L: GHlist, other: Operand, op: CmpOp,
                   groupCmp: (Group, Group, CmpOp) -> bool): (r: RichCmpResult)
    ensures r.NotImplemented? <==> other.OtherObject?
    ensures other.AGHlist? ==> r == Answer(groupCmp(L.group, other.list.group, op))
  {
    match other
    case OtherObject => NotImplemented
    case AGHlist(M) => Answer(groupCmp(L.group, M.group, op))
  }

  // ---------------------------------------------------------------------
  // Properties of the constructed list

  /** Every seed is the `a` of an entry with `b == 1`, and every such `a` is a seed. */
  lemma SeedsAreFirstComponents(data: seq<ReductionEntry>, a: int)
    ensures a in Seeds(data) <==> exists e :: e in data && e.b == 1 && e.a == a
  {
    if a in Seeds(data) {
      assert a in SeedSet(data);
    } else {
      forall e | e in data && e.b == 1 ensures e.a != a {
        assert e.a in SeedSet(data);
      }
    }
  }

  /** No pair is lost and none invented: membership is exactly the image set. */
  lemma {:induction false} MembershipIsImage(group: Group, p1: P1Enumeration, p: Pair)
    ensures p in New(group, p1).reps <==>
      exists x, q :: x in SeedSet(group.cosetReductionData) && q in p1(group.level)
        && p == group.reduceCoset(x * q.0, x * q.1)
  {
    var L := New(group, p1);
    if p in L.reps {
      assert p in ImageSet(group, p1);
    } else {
      forall x, q | x in SeedSet(group.cosetReductionData) && q in p1(group.level)
        ensures p != group.reduceCoset(x * q.0, x * q.1)
      {
        assert group.reduceCoset(x * q.0, x * q.1) in ImageSet(group, p1);
      }
    }
  }

  /** The list is in increasing tuple order and so repeats nothing. */
  lemma BuiltIsSortedWithoutDuplicates(L: GHlist, p1: P1Enumeration)
    requires Built(L, p1)
    ensures StrictlyIncreasing(List(L))
    ensures NoDuplicates(List(L))
  {
    StrictlyIncreasingHasNoDuplicates(L.reps);
  }

  /** `len(L)` is the number of distinct reduced pairs. */
  lemma LengthIsImageCardinality(L: GHlist, p1: P1Enumeration)
    requires Built(L, p1)
    ensures Length(L) == |ImageSet(L.group, p1)|
  {
    StrictlyIncreasingHasNoDuplicates(L.reps);
    NoDuplicatesCardinality(L.reps);
    assert Elements(L.reps) == ImageSet(L.group, p1);
  }

  /**
   * The list depends only on the group and the enumeration's set of pairs:
   * the iteration order of the seed set and of P1List(N) cannot change it.
   */
  lemma {:induction false} NewDependsOnlyOnImage(g1: Group, g2: Group, p1: P1Enumeration, p2: P1Enumeration)
    requires ImageSet(g1, p1) == ImageSet(g2, p2)
    ensures New(g1, p1).reps == New(g2, p2).reps
  {
    StrictlyIncreasingUnique(New(g1, p1).reps, New(g2, p2).reps);
  }

  /** Indexing in range is in the list and in the image; out of range is an IndexError. */
  lemma GetItemInImage(L: GHlist, p1: P1Enumeration, i: int)
    requires Built(L, p1)
    ensures GetItem(L, i).Found? ==> GetItem(L, i).pair in ImageSet(L.group, p1)
    ensures i >= Length(L) || i + Length(L) < 0 ==> GetItem(L, i) == IndexError
  {
    var r := GetItem(L, i);
    if r.Found? {
      assert r.pair in New(L.group, p1).reps;
    }
  }

  /** Increasing positions give increasing pairs. */
  lemma GetItemIncreasing(L: GHlist, p1: P1Enumeration, i: int, j: int)
    requires Built(L, p1)
    requires 0 <= i < j < Length(L)
    ensures Less(GetItem(L, i).pair, GetItem(L, j).pair)
  {
  }

  /** A negative index names the same element as the index `len(L)` above it. */
  lemma GetItemNegative(L: GHlist, i: int)
    requires i < 0 <= i + Length(L)
    ensures GetItem(L, i) == GetItem(L, i + Length(L))
  {
  }

  /**
   * If the reduction reaches every class, normalising a pair with
   * `gcd(u, v, N) == 1` lands in the list.
   */
  lemma NormalizeInList(L: GHlist, p1: P1Enumeration, u: int, v: int)
    requires Built(L, p1)
    requires ReductionComplete(L.group, p1)
    requires Primitive(u, v, L.group.level)
    ensures Normalize(L, u, v) in List(L)
  {
    assert L.group.reduceCoset(u, v) in ImageSet(L.group, p1);
  }

  /** If the reduction is idempotent, every listed pair normalises to itself. */
  lemma ListedPairsAreFixedPoints(L: GHlist, p1: P1Enumeration, p: Pair)
    requires Built(L, p1)
    requires Idempotent(L.group.reduceCoset)
    requires p in List(L)
    ensures Normalize(L, p.0, p.1) == p
  {
    MembershipIsImage(L.group, p1, p);
    var x, q :| x in SeedSet(L.group.cosetReductionData) && q in p1(L.group.level)
      && p == L.group.reduceCoset(x * q.0, x * q.1);
  }

  /**
   * The pair `normalize` returns is the only listed pair equivalent to the
   * input: if the reduction is idempotent, a listed pair with the same
   * reduction as `(u, v)` is `normalize(u, v)` itself.
   */
  lemma NormalizeUnique(L: GHlist, p1: P1Enumeration, p: Pair, u: int, v: int)
    requires Built(L, p1)
    requires Idempotent(L.group.reduceCoset)
    requires p in List(L)
    requires Normalize(L, p.0, p.1) == Normalize(L, u, v)
    ensures p == Normalize(L, u, v)
  {
    ListedPairsAreFixedPoints(L, p1, p);
  }

  /** Normalising never consults the stored list. */
  lemma NormalizeIgnoresList(L: GHlist, M: GHlist, u: int, v: int)
    requires L.group == M.group
    ensures Normalize(L, u, v) == Normalize(M, u, v)
  {
  }

  /** `__richcmp__` with anything but a GHlist returns `NotImplemented`. */
  lemma RichCmpOtherIsNotImplemented(L: GHlist, op: CmpOp, groupCmp: (Group, Group, CmpOp) -> bool)
    ensures RichCmp(L, OtherObject, op, groupCmp) == NotImplemented
    ensures RichCmp(L, OtherObject, op, groupCmp) != Answer(false)
  {
  }

  /** Two GHlists compare as their groups do, whatever their lists hold. */
  lemma RichCmpIgnoresLists(L: GHlist, M: GHlist, L': GHlist, M': GHlist, op: CmpOp,
                            groupCmp: (Group, Group, CmpOp) -> bool)
    requires L.group == L'.group && M.group == M'.group
    ensures RichCmp(L, AGHlist(M), op, groupCmp) == RichCmp(L', AGHlist(M'), op, groupCmp)
  {
  }
}
