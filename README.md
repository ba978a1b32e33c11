# Orlik-Terao algebra of a matroid: a Dafny model

This project models the algebra-specific core of `OrlikTeraoAlgebra`
(`src/sage/algebras/orlik_terao.py`). The Orlik-Terao algebra of a matroid
M is the quotient of the free algebra on the ground set by the ideal that the
circuits generate. Its basis is indexed by the NBC ("no broken circuit") sets
of M. The model covers four things:

- **the ordering of the ground set**: the default sorted order, and the rank
  map built from the ordering (`ordering.dfy`, modules `Ordering` and
  `LabelRanks`);
- **the broken-circuit table**: the dict that `__init__` fills. Every circuit
  is sorted by rank, and its least element is recorded under the key of its
  other elements. Modules `BrokenCircuits` (`broken_circuits.dfy`) and
  `OrlikTerao` (the class constructor) hold this part;
- **the subset reduction `subset_image(S)`**: the expansion of e_S in the NBC
  basis by the Orlik-Terao relation of the first broken circuit contained in
  S. The recursive specification is in module `Reduction`; the loop
  implementation is in module `OrlikTerao`;
- **the basis hooks**: `product_on_basis`, `one_basis`, `degree_on_basis` and
  `_sort_key` (module `Basis`).

## Representation choices

- **Ground elements** are their ranks 0..n-1 under the algebra's ordering, so
  "sorted by rank" is ascending order. Module `Ordering` models labels as
  integers and builds the label-to-rank map. `LabelRanks.LabelCircuitByRank`
  links the two views: sorting a circuit of labels by rank picks the same
  least element and broken circuit as the rank-based table does on the
  circuit's ranks.
- **Algebra elements** are maps from basis index (`set<nat>`) to a nonzero
  coefficient. Coefficients are `real`, a field of characteristic 0. Over a
  base ring of positive characteristic (the source also uses `GF(3)['t']`),
  coefficients cancel modulo p, and the model does not capture that.
  Module `FreeModule` supplies addition, scaling and finite sums of such
  maps.
- **The broken-circuit dict** is a Python dict, so it iterates in insertion
  order. Re-assigning a key keeps its place. The model therefore stores it as
  `Table(order, minOf)`: the key sequence in insertion order, plus the value
  map.
- **chi** (`_chi`) is a parameter of type `set<nat> -> real`. It is required
  to be nonzero on every recorded broken circuit. Those sets are independent,
  and the source divides by chi of them.
- **The matroid** enters only through its circuits: a sequence of nonempty
  subsets of the ground set, in the order the matroid lists them.

## Structure of the reduction

- **Termination.** The recursive call is on (S + {i}) - {j}, where i is the
  recorded minimum and j is an element of the broken circuit. That set has
  the size of S and a strictly smaller sum of ranks. `Reduction.RankSum` is
  the termination measure.
- **The class.** `OrlikTerao.OrlikTeraoAlgebra` holds n, chi and the table.
  Its constructor runs the loop of `__init__` over the circuits and fills the
  table fields in place.
- **The loops.** `subset_image` only reads the object. Its scan loop and its
  accumulation loop are therefore methods over the table, chi and n:
  `ComputeSubsetImage`, `RewriteByCircuit` and `AddRelationTerm`, the last
  being one pass of the `r += ...` loop. The class's `SubsetImage` passes
  them its own fields. Each method is proved equal to the recursive
  specification.

## Model

| member | source | states |
|---|---|---|
| Ordering.SortedLabels | src/sage/algebras/orlik_terao.py:118 | `sorted(M.groundset())` is sorted and has exactly the labels of the ground set, each as often as it occurs |
| Ordering.NormaliseOrdering | src/sage/algebras/orlik_terao.py:117-119 | a given ordering is kept as is; with none, the ordering is the sorted ground set (sorted, same multiset of labels) |
| Ordering.SortedUnique | src/sage/algebras/orlik_terao.py:117-119 | a sorted sequence is determined by its multiset of elements, so the default ordering is unique |
| Ordering.DefaultOrderingIsSorted | src/sage/algebras/orlik_terao.py:117-119 | passing the sorted ground set explicitly yields the same ordering as passing none |
| Ordering.RankMap | src/sage/algebras/orlik_terao.py:152 | the rank map `{x: i for i, x in enumerate(ordering)}` has exactly the labels of the ordering as keys, maps each to a position holding it, and no later position holds it (last occurrence wins) |
| Ordering.RankOfPosition | src/sage/algebras/orlik_terao.py:152 | with no repeated label, the label at position a has rank a |
| Ordering.DefaultRanksMonotone | src/sage/algebras/orlik_terao.py:152 | under the default ordering, x < y implies rank(x) < rank(y) |
| LabelRanks.LabelCircuitByRank | src/sage/algebras/orlik_terao.py:152-158 | for a circuit of labels listed in the ordering, `L[0]` of `sorted(c, key=rank)` is the label at the least of the circuit's ranks and ranks at or below every label of c, and the ranks of the other labels form the broken circuit of the circuit's ranks |
| BrokenCircuits.Ascending | src/sage/algebras/orlik_terao.py:157 | `sorted(c, key=rank)` is strictly increasing and has exactly the elements of c |
| BrokenCircuits.Least | src/sage/algebras/orlik_terao.py:157-158 | `L[0]` is an element of the circuit ranked at or below all of its elements |
| BrokenCircuits.Broken | src/sage/algebras/orlik_terao.py:158 | `frozenset(L[1:])` is the circuit with its least element removed |
| BrokenCircuits.RecordCircuit | src/sage/algebras/orlik_terao.py:157-158 | after one circuit is processed, its broken circuit plus the recorded value is the circuit itself, and the value ranks below every element of the key; every other entry is unchanged, and a valid table stays valid |
| BrokenCircuits.BuildTable | src/sage/algebras/orlik_terao.py:155-158 | the loop over the circuits adds at most one key per circuit |
| BrokenCircuits.BuildTableKeys | src/sage/algebras/orlik_terao.py:155-158 | the keys of the built table are exactly the broken circuits of the circuits |
| BrokenCircuits.BuildTableOrder | src/sage/algebras/orlik_terao.py:155-158 | the dict's key order is the order in which broken circuits first occur among the circuits: every key first occurs somewhere, and an earlier key first occurs at an earlier circuit |
| BrokenCircuits.Put | src/sage/algebras/orlik_terao.py:158 | dict assignment: the value is replaced; a new key is appended to the insertion order, an existing key keeps its place |
| BrokenCircuits.BuildTableValid | src/sage/algebras/orlik_terao.py:155-158 | the built table lists each key once, and each value is in the ground set, outside its key and ranked below every element of the key |
| BrokenCircuits.BuildTableHasEveryBrokenCircuit | src/sage/algebras/orlik_terao.py:156-158 | the broken circuit of every circuit is a key of the table |
| BrokenCircuits.BuildTableEntries | src/sage/algebras/orlik_terao.py:156-158 | every entry's value is the least element of the last circuit having that key as its broken circuit |
| BrokenCircuits.LastCircuitWins | src/sage/algebras/orlik_terao.py:156-158 | under duplicate broken circuits, the last circuit processed determines the recorded value |
| BrokenCircuits.TableEntriesAreCircuits | src/sage/algebras/orlik_terao.py:156-158 | for each entry bc -> i: i is not in bc, bc + {i} is one of the circuits, and i ranks strictly below every element of bc |
| OrlikTerao.BuiltTableChiNonzero | src/sage/algebras/orlik_terao.py:156-158 | if chi is nonzero on every broken circuit, the built table is valid and chi is nonzero on all of its keys (the divisor `lc` of the reduction) |
| OrlikTerao.OrlikTeraoAlgebra.constructor | src/sage/algebras/orlik_terao.py:151-158 | the loop over the circuits fills the table fields so that they equal the specification BuildTable, and the object satisfies its validity invariant |
| Reduction.RewriteDecreases | src/sage/algebras/orlik_terao.py:463-469 | replacing j in S by a lower-ranked i outside S keeps the size and the ground set, and strictly lowers the rank sum |
| Reduction.StepDecreases | src/sage/algebras/orlik_terao.py:463-469 | every recursive argument `Si.difference({j})` is a subset of the ground set of the size of S with a strictly smaller rank sum, so the recursion terminates |
| Reduction.FirstMatch | src/sage/algebras/orlik_terao.py:454-455 | the scan finds no key exactly when no key is a subset of S; otherwise it finds the first key in insertion order that is a subset of S |
| Reduction.SubsetImage | src/sage/algebras/orlik_terao.py:450-472 | every key of e_S's expansion is an NBC set, in the ground set and of the size of S, and no coefficient is zero |
| Reduction.RelationFactor | src/sage/algebras/orlik_terao.py:469 | the scalar `mone**ind * R(coeff / lc)` times lc is (-1)^ind coeff, and it is zero exactly when coeff is |
| Reduction.Term | src/sage/algebras/orlik_terao.py:466-469 | a term of the relation is a combination of NBC sets of the size of S |
| Reduction.Reduce | src/sage/algebras/orlik_terao.py:461-470 | the sum accumulated after any prefix of bc is a combination of NBC sets of the size of S |
| Reduction.MonomialIffNbc | src/sage/algebras/orlik_terao.py:454-472 | e_S comes back as the single monomial S exactly when S contains no recorded broken circuit |
| Reduction.ZeroWhenCircuitContained | src/sage/algebras/orlik_terao.py:454-460 | if the first matching broken circuit's recorded minimum is also in S, e_S is zero |
| Reduction.EmptySetImage | src/sage/algebras/orlik_terao.py:450-472 | e_{} is the monomial on the empty set unless the table has the empty key (the matroid has a loop); then it is zero |
| Reduction.ZeroTermVanishes | src/sage/algebras/orlik_terao.py:467-469 | a term whose chi coefficient is zero is zero, so skipping it changes nothing |
| Reduction.ReduceIsRelationSum | src/sage/algebras/orlik_terao.py:461-470 | the accumulated result equals the full sum of the relation's terms over the processed elements, skipped terms included |
| Reduction.ExpansionByRelation | src/sage/algebras/orlik_terao.py:454-470 | when the first matching broken circuit's minimum i is outside S, e_S is the sum over j in bc, in rank order, of (-1)^ind chi(C - {j}) / chi(bc) e_{(S + {i}) - {j}} |
| OrlikTerao.ComputeSubsetImage | src/sage/algebras/orlik_terao.py:450-472 | the scan loop with early return computes exactly the specification Reduction.SubsetImage |
| OrlikTerao.RewriteByCircuit | src/sage/algebras/orlik_terao.py:461-470 | the accumulation loop over bc in rank order computes the full accumulated sum of the specification |
| OrlikTerao.AddRelationTerm | src/sage/algebras/orlik_terao.py:466-469 | one pass of the loop takes the sum over the first ind elements of bc to the sum over the first ind + 1 |
| OrlikTerao.OrlikTeraoAlgebra.SubsetImage | src/sage/algebras/orlik_terao.py:450-472 | `subset_image(S)` on the object returns the specification's expansion for the object's own table, chi and ground set |
| OrlikTerao.OrlikTeraoAlgebra.ProductOnBasis | src/sage/algebras/orlik_terao.py:336-345 | `product_on_basis` on the object returns the specification Basis.ProductOnBasis for its own table and chi |
| Basis.OneBasis | src/sage/algebras/orlik_terao.py:242 | the unit's index has degree 0 and is contained in every basis index |
| Basis.OneBasisIsNbc | src/sage/algebras/orlik_terao.py:242 | the unit's index is an NBC set exactly when the table has no empty key, that is, when the matroid has no loop |
| Basis.DegreeOnBasis | src/sage/algebras/orlik_terao.py:287 | the degree of a basis index is zero exactly for the empty set |
| Basis.DegreeOfDisjointUnion | src/sage/algebras/orlik_terao.py:287 | the degree of a disjoint union is the sum of the degrees, the grading that `product_on_basis` respects |
| Basis.SortKey | src/sage/algebras/orlik_terao.py:181 | the key is minus the degree, followed by the elements of x in strictly increasing order |
| Basis.SortKeyInjective | src/sage/algebras/orlik_terao.py:181 | distinct basis indices have distinct sort keys |
| Basis.ProductOnBasis | src/sage/algebras/orlik_terao.py:336-345 | the product of two basis elements is a combination of sets of degree deg(a) + deg(b) in the ground set, and of NBC sets when a and b are NBC |
| Basis.ProductIsReduction | src/sage/algebras/orlik_terao.py:336-345 | for NBC a and b, the product is the reduction of a + b when they are disjoint and zero otherwise, the empty-factor shortcuts included |
| Basis.ProductCommutes | src/sage/algebras/orlik_terao.py:336-345 | the product of basis elements is symmetric in a and b |
| Basis.OneBasisIsUnit | src/sage/algebras/orlik_terao.py:242 | `one_basis()` has degree 0 and its basis element is a two-sided unit of `product_on_basis` |
| Basis.GeneratorSquareIsZero | src/sage/algebras/orlik_terao.py:341-342 | e_x times e_x is zero |

## Left out

- `_chi` and `_flat_module`: determinants and echelon coordinates over a fraction field, computed with the matrix library. chi is an abstract parameter, nonzero on the recorded broken circuits.
- The matroid itself (circuits, closure, independence, NBC enumeration, representation vectors): circuits are input data, and they are not checked to be the circuits of a matroid.
- The framework: the free module and category scaffolding, the unique-representation caching of `__classcall__`, and the `Family` of `algebra_generators`.
- The printing hooks `_repr_term`, `_latex_term` and `_repr_`.
- `@cached_method` memoisation: a pure result is cached, so the model computes without a cache.
- The identity that a product of generators equals `subset_image(F)` in any order. It depends on the real chi and the full algebra theory, not on an abstract chi.
- The `ValueError` that `subset_image` raises on an argument that is not a frozenset. In the typed model every argument is a set.
- The coercion `R(coeff / lc)` back into the base ring: coefficients stay in the exact field `real`.
- Positive characteristic: coefficients are modelled in characteristic 0. Over a base ring such as `GF(3)['t']`, `r += ...` cancels coefficients modulo 3 and drops the resulting zeros. `FreeModule.Add` over `real` does not: three equal terms of +1 give 3, not 0.
- Ordering.NormaliseOrdering: the ordering is not checked to be a permutation of the ground set. A repeated label passes silently and keeps its last position (`Ordering.RankMap`). An ordering that leaves out a label makes `sorted(c, key=self._sorting.__getitem__)` raise `KeyError` for every circuit containing that label. The model cannot express that error: the table works on ranks below n, and `LabelRanks.LabelCircuitByRank` requires every label of the circuit to be in the ordering.
- Basis.SortKey: sorts ranks, while `_sort_key` sorts the labels themselves. The two agree under the default ordering (`Ordering.DefaultRanksMonotone`) but may differ under a custom one.
- Reduction.ZeroWhenCircuitContained: proves e_S = 0 only when S contains the first matching broken circuit together with its recorded minimum. The general law, that e_S = 0 whenever S contains any circuit, relies on the matroid axioms (for example, NBC sets are independent). The model does not assume them, because circuits are arbitrary input. For instance, the circuits {0,2} and {1,2,3} with n = 4 give the keys {2} -> 0 and {2,3} -> 1. For S = {1,2,3}, which is one of the circuits, the first matching key is {2}. Its minimum 0 is outside S, so S is rewritten by the relation of {0,2} rather than sent to 0. Such a family of circuits does not come from a matroid.
- Reduction.SubsetImage: chi is required nonzero on the recorded broken circuits only. The source relies on the matroid's representation for this.

## Notes on the code and its description

- The unit law (e_{} is the unit) holds only when no circuit is a single element. With a loop x, the table has the empty key with value x. `subset_image({})` then finds that key, x is not in {}, and the relation yields a sum with no terms: zero (`Reduction.EmptySetImage`). `product_on_basis` with an empty factor still returns the other factor unchanged (`Basis.OneBasisIsUnit`).
- The recorded minimum of a broken circuit is the least element of the last circuit processed with that broken circuit. This happens with parallel elements (`BrokenCircuits.LastCircuitWins`).
