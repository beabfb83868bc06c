# Coset representatives for Gamma_H(N)

A model of `GHlist`, the list of coset representatives of a congruence
subgroup Gamma_H(N) in SL_2(Z) used by Sage's modular-symbols code.

Construction reads the first part of the group's coset-reduction data, keeps
as seeds the `a` of every triple `(a, b, _)` with `b == 1` (without repeats),
reduces `(x*u, x*v)` through the group for every seed `x` and every `(u, v)`
in `P1List(N).list()`, and stores `sorted(set(...))` of the results. After
that the object only answers queries: `L[i]`, `len(L)`, `L.list()`,
`L.normalize(u, v)` and comparison.

- `pair_order.dfy` (module `PairOrder`): pairs ordered as Python orders
  two-element tuples, and `SortedSet`, the value of `sorted(set(w))`, built by
  insertion into a strictly increasing sequence. `StrictlyIncreasingUnique`
  shows there is only one strictly increasing sequence with a given set of
  elements, so any sorting algorithm (and any set iteration order) gives the
  same list.
- `ghlist.dfy` (module `Ghlist`): the group as the data the list uses, the
  construction, the queries and their properties.

The group's arithmetic is not modelled. `Group` carries the level, the
coset-reduction triples and the reduction map `_reduce_coset` as a total
function; `P1List(N).list()` is a parameter `p1` of type `int -> seq<Pair>`;
the ordering on groups that comparison delegates to is a parameter
`groupCmp`. The group-theoretic promises are predicates that lemmas assume
in `requires` and never prove: `ReductionComplete` (every pair with
`gcd(u, v, N) = 1` reduces into the image set) and `Idempotent` (the reduction
maps its own outputs to themselves).

Indexing is Python list indexing: `-len <= i < 0` counts from the end, and
only positions outside `[-len, len)` raise `IndexError`.

## Model

| member | source | states |
|---|---|---|
| `Ghlist.Seeds` | src/sage/modular/modsym/ghlist.py:49-51 | the seeds hold no repeats and are exactly the first components `a` of the reduction triples whose `b` is 1 |
| `Ghlist.SeedsAreFirstComponents` | src/sage/modular/modsym/ghlist.py:51 | `a` is a seed if and only if some triple `(a, 1, _)` is in the data |
| `Ghlist.Row` | src/sage/modular/modsym/ghlist.py:52 | the comprehension's inner loop for one seed `x` yields one pair per P^1 element, and exactly the pairs `reduce(x*u, x*v)` |
| `Ghlist.ReducedPairs` | src/sage/modular/modsym/ghlist.py:52 | the comprehension has `seeds * pairs` entries and a pair occurs in it if and only if it is `reduce(x*u, x*v)` for a seed `x` and a P^1 element `(u, v)` |
| `PairOrder.Insert` | src/sage/modular/modsym/ghlist.py:53 | adding one pair keeps the sequence strictly increasing and adds exactly that pair |
| `PairOrder.SortedSet` | src/sage/modular/modsym/ghlist.py:53 | `sorted(set(w))` is strictly increasing in tuple order and holds exactly the pairs of `w` |
| `PairOrder.StrictlyIncreasingUnique` | src/sage/modular/modsym/ghlist.py:53 | two strictly increasing sequences with the same elements are equal, so `sorted(set(w))` is determined by the set alone |
| `PairOrder.SortedSetCanonical` | src/sage/modular/modsym/ghlist.py:53 | lists with the same elements, in any order and with any repeats, give the same `sorted(set(w))` |
| `PairOrder.NoDuplicatesCardinality` | src/sage/modular/modsym/ghlist.py:53 | a sequence without repeats is as long as its set of elements |
| `PairOrder.SortedSetCardinality` | src/sage/modular/modsym/ghlist.py:53 | the length of `sorted(set(w))` is the number of distinct pairs in `w` |
| `Ghlist.New` | src/sage/modular/modsym/ghlist.py:40-54 | the constructor keeps the group, and stores a strictly increasing list whose members are exactly the image set |
| `Ghlist.MembershipIsImage` | src/sage/modular/modsym/ghlist.py:49-54 | a pair is stored if and only if it is `reduce(x*u, x*v)` for a seed `x` and `(u, v)` in `P1List(N).list()`: nothing lost, nothing invented |
| `Ghlist.NewDependsOnlyOnImage` | src/sage/modular/modsym/ghlist.py:51-53 | the stored list depends only on the image set, so the iteration order of the seed set and of `P1List(N)` cannot change it |
| `Ghlist.BuiltIsSortedWithoutDuplicates` | src/sage/modular/modsym/ghlist.py:53-54 | the list a GHlist holds is strictly increasing and repeats no pair |
| `Ghlist.LengthIsImageCardinality` | src/sage/modular/modsym/ghlist.py:83-92 | `len(L)` is the number of distinct reduced pairs |
| `Ghlist.Length` | src/sage/modular/modsym/ghlist.py:83-92 | `len(L)` is the `n` for which exactly the positions `-n <= i < n` can be indexed (`L[i]` does not raise `IndexError`) |
| `Ghlist.GetItem` | src/sage/modular/modsym/ghlist.py:56-63 | `L[i]` succeeds if and only if `-len <= i < len`, returns the `i`-th pair for `i >= 0` and the `(len + i)`-th for `i < 0`, and otherwise is an `IndexError` |
| `Ghlist.GetItemInImage` | src/sage/modular/modsym/ghlist.py:56-63 | every pair indexing returns is in the image set; positions outside `[-len, len)` are an `IndexError` |
| `Ghlist.GetItemIncreasing` | src/sage/modular/modsym/ghlist.py:53-63 | a larger non-negative position gives a larger pair |
| `Ghlist.GetItemNegative` | src/sage/modular/modsym/ghlist.py:56-63 | a negative position names the same pair as that position plus `len` |
| `Ghlist.List` | src/sage/modular/modsym/ghlist.py:105-115 | `L.list()` is as long as `len(L)` and holds at each position what `L[i]` returns |
| `Ghlist.NormalizeInList` | src/sage/modular/modsym/ghlist.py:117-135 | if the reduction reaches every class, `normalize(u, v)` with `gcd(u, v, N) = 1` is an element of `L.list()` |
| `Ghlist.ListedPairsAreFixedPoints` | src/sage/modular/modsym/ghlist.py:117-135 | if the reduction is idempotent, every listed pair normalises to itself |
| `Ghlist.Normalize` | src/sage/modular/modsym/ghlist.py:117-135 | returns the group's reduction of `(u, v)` unchanged |
| `Ghlist.NormalizeUnique` | src/sage/modular/modsym/ghlist.py:119-121 | if the reduction is idempotent, the listed pair equivalent to `(u, v)` is unique: it is `normalize(u, v)` |
| `Ghlist.NormalizeIgnoresList` | src/sage/modular/modsym/ghlist.py:135 | `normalize` depends on the group only, not on the stored list |
| `Ghlist.RichCmp` | src/sage/modular/modsym/ghlist.py:65-81 | the result is `NotImplemented` exactly when the other operand is not a GHlist; otherwise it is the groups' comparison under the same operator |
| `Ghlist.RichCmpOtherIsNotImplemented` | src/sage/modular/modsym/ghlist.py:78-79 | `__richcmp__` with a non-GHlist operand returns `NotImplemented` |
| `Ghlist.RichCmpIgnoresLists` | src/sage/modular/modsym/ghlist.py:80-81 | two GHlists compare as their groups do, whatever their lists contain |

## Left out

- The group's arithmetic (`_coset_reduction_data`, `_reduce_coset`, `level`), the ordering on groups and `P1List`: their code is not part of this model; they enter as data and parameters.
- Completeness of the list and fixed points: these follow from the group's promises, which the model states as `ReductionComplete` and `Idempotent` and assumes where used.
- `len(L)` equal to the group's index (ghlist.py:85): the index is not modelled; `LengthIsImageCardinality` proves only `len(L) == |ImageSet|`.
- The third component of each coset-reduction triple: it is never read, and is modelled as an integer.
- `__repr__`: it only formats the group's string form, which is not modelled.
- `_GHlist_old_pickle` and `register_unpickle_override`: compatibility code for old serialized objects that reassigns the class and attribute dictionary at run time.
- The concrete values in the doctests (twelve pairs at level 4, length 192, the three `normalize(17, 6)` results, `L1 > L2`): they depend on the group's arithmetic.
- The package command-line tool in `build/sage_bootstrap/app.py`: file-system, network and printing glue, outside this component.
- Python object identity and the "do not change the returned list" warning on `list()`: values in the model are immutable, so aliasing is not represented.
- Ghlist.RichCmp: models what `__richcmp__` returns; the interpreter's fallback after `NotImplemented` (the reflected comparison, then identity for `==` and `!=`, so `L1 == QQ` is `False`) is not modelled.
- Ghlist.GetItem: integer positions only; slices (which return a sub-list and never raise `IndexError`) and the `TypeError` for other index types are not modelled.
