/**
 * The subset reduction `subset_image(S)` of orlik_terao.py as a recursive
 * specification: the expansion of e_S in the NBC basis, obtained by rewriting
 * S with the Orlik-Terao relation of the first broken circuit (in table order)
 * that S contains.
 *
 * The coefficient function chi is a parameter: it stands for the determinant
 * of representation vectors in flat coordinates and is only assumed to be
 * nonzero on recorded broken circuits (they are independent sets, and the
 * source divides by chi of them).
 */
module Reduction {
  import opened Wrappers
  import opened FreeModule
  import opened BrokenCircuits

  type Chi = Subset -> real

  /** chi does not vanish on any recorded broken circuit, so dividing by it is defined. */
  predicate ChiNonzero(t: Table, chi: Chi)
  {
    forall k :: k in t.minOf ==> chi(k) != 0.0
  }

  /** `s` contains no recorded broken circuit: it indexes a basis element. */
  predicate IsNbc(t: Table, s: Subset)
  {
    forall k :: k in t.minOf ==> !(k <= s)
  }

  // ---------------------------------------------------------------------------
  // The termination measure: the sum of the ranks of a subset.

  /** The sum of the ranks of the elements of `s` that are below `bound`. */
  function RankSum(s: Subset, bound: nat): nat
  {
    if bound == 0 then 0
    else RankSum(s, bound - 1) + (if bound - 1 in s then bound - 1 else 0)
  }

  lemma {:induction false} RankSumInsert(s: Subset, x: nat, bound: nat)
    requires x !in s
    ensures RankSum(s + {x}, bound) == RankSum(s, bound) + (if x < bound then x else 0)
  {
    if bound > 0 {
      RankSumInsert(s, x, bound - 1);
    }
  }

  lemma {:induction false} RankSumRemove(s: Subset, x: nat, bound: nat)
    requires x in s
    ensures RankSum(s - {x}, bound) + (if x < bound then x else 0) == RankSum(s, bound)
  {
    if bound > 0 {
      RankSumRemove(s, x, bound - 1);
    }
  }

  /**
   * One rewriting step replaces S by (S + {i}) - {j} with i not in S, j in S
   * and i ranked below j: the new set has the same size and a strictly smaller
   * sum of ranks, so the reduction terminates.
   */
  lemma RewriteDecreases(s: Subset, i: nat, j: nat, n: nat)
    requires InGround(s, n) && i < n
    requires i !in s && j in s && i < j
    ensures |(s + {i}) - {j}| == |s|
    ensures InGround((s + {i}) - {j}, n)
    ensures RankSum((s + {i}) - {j}, n) < RankSum(s, n)
  {
    RankSumInsert(s, i, n);
    RankSumRemove(s + {i}, j, n);
  }

  /**
   * In a rewriting step by bc (recorded minimum i) on S, each j of bc yields a
   * set (S + {i}) - {j} on which the reduction may be called again, of the same
   * size as S and smaller in the termination measure.
   */
  lemma StepDecreases(n: nat, t: Table, chi: Chi, s: Subset, bc: Subset, i: nat, j: nat)
    requires StepContext(n, t, chi, s, bc, i)
    requires j in bc
    ensures Context(n, t, chi, (s + {i}) - {j})
    ensures |(s + {i}) - {j}| == |s|
    ensures RankSum((s + {i}) - {j}, n) < RankSum(s, n)
  {
    assert i < j && j in s && i < n && i !in s;
    RewriteDecreases(s, i, j, n);
  }

  // ---------------------------------------------------------------------------
  // The scan of the table in insertion order.

  function FirstMatchFrom(order: seq<Subset>, s: Subset, from: nat): (r: Option<nat>)
    requires from <= |order|
    ensures r.None? <==> forall q :: from <= q < |order| ==> !(order[q] <= s)
    ensures r.Some? ==> from <= r.value < |order| && order[r.value] <= s
                        && forall q :: from <= q < r.value ==> !(order[q] <= s)
    decreases |order| - from
  {
    if from == |order| then None
    else if order[from] <= s then Some(from)
    else FirstMatchFrom(order, s, from + 1)
  }

  /** The position of the first key, in insertion order, that is a subset of `s`. */
  function FirstMatch(order: seq<Subset>, s: Subset): (r: Option<nat>)
    ensures r.None? <==> forall q :: 0 <= q < |order| ==> !(order[q] <= s)
    ensures r.Some? ==> r.value < |order| && order[r.value] <= s
                        && forall q :: 0 <= q < r.value ==> !(order[q] <= s)
  {
    FirstMatchFrom(order, s, 0)
  }

  // ---------------------------------------------------------------------------
  // The reduction itself.

  /** The hypotheses of every call: a valid table, chi usable, S in the ground set. */
  predicate Context(n: nat, t: Table, chi: Chi, s: Subset)
  {
    ValidTable(t, n) && ChiNonzero(t, chi) && InGround(s, n)
  }

  /** The hypotheses of a rewriting step of S by the broken circuit bc with recorded minimum i. */
  predicate StepContext(n: nat, t: Table, chi: Chi, s: Subset, bc: Subset, i: nat)
  {
    Context(n, t, chi, s) && bc in t.minOf && i == t.minOf[bc] && bc <= s && i !in s
  }

  /**
   * e_S in the NBC basis. Every term of the result is indexed by an NBC set of
   * the same size as S (the algebra is graded by size), inside the ground set.
   */
  function SubsetImage(n: nat, t: Table, chi: Chi, s: Subset): (r: Element)
    requires Context(n, t, chi, s)
    ensures NoZeros(r)
    ensures forall k :: k in r ==> IsNbc(t, k) && |k| == |s| && InGround(k, n)
    decreases RankSum(s, n), 1, 0
  {
    match FirstMatch(t.order, s)
    case None => Monomial(s)
    case Some(p) =>
      var bc := t.order[p];
      var i := t.minOf[bc];
      if i in s then Zero()
      else Reduce(n, t, chi, s, bc, i, |Ascending(bc, n)|)
  }

  /** `mone**ind * R(coeff / lc)`: the scalar of the ind-th term of the relation. */
  function RelationFactor(coeff: real, lc: real, ind: nat): (f: real)
    requires lc != 0.0
    ensures f * lc == Sign(ind) * coeff
    ensures f == 0.0 <==> coeff == 0.0
  {
    Sign(ind) * (coeff / lc)
  }

  /**
   * The ind-th term of the relation of the circuit C = bc + {i}: with j the
   * ind-th element of bc in rank order, (-1)^ind * chi(C - {j}) / chi(bc)
   * times the expansion of (S + {i}) - {j}.
   */
  function Term(n: nat, t: Table, chi: Chi, s: Subset, bc: Subset, i: nat, ind: nat): (r: Element)
    requires StepContext(n, t, chi, s, bc, i)
    requires ind < |Ascending(bc, n)|
    ensures NoZeros(r)
    ensures forall key :: key in r ==> IsNbc(t, key) && |key| == |s| && InGround(key, n)
    decreases RankSum(s, n), 0, ind
  {
    var j := Ascending(bc, n)[ind];
    assert j in bc;
    StepDecreases(n, t, chi, s, bc, i, j);
    Scale(RelationFactor(chi((bc + {i}) - {j}), chi(bc), ind), SubsetImage(n, t, chi, (s + {i}) - {j}))
  }

  /**
   * The accumulated sum `r` after the first `k` elements j of bc, in rank order,
   * have been processed: each term is added unless chi(C - {j}) is zero.
   */
  function Reduce(n: nat, t: Table, chi: Chi, s: Subset, bc: Subset, i: nat, k: nat): (r: Element)
    requires StepContext(n, t, chi, s, bc, i)
    requires k <= |Ascending(bc, n)|
    ensures NoZeros(r)
    ensures forall key :: key in r ==> IsNbc(t, key) && |key| == |s| && InGround(key, n)
    decreases RankSum(s, n), 0, k
  {
    if k == 0 then Zero()
    else if chi((bc + {i}) - {Ascending(bc, n)[k - 1]}) != 0.0 then
      Add(Reduce(n, t, chi, s, bc, i, k - 1), Term(n, t, chi, s, bc, i, k - 1))
    else Reduce(n, t, chi, s, bc, i, k - 1)
  }

  /** One more element of bc: its term is added unless its chi coefficient vanishes. */
  lemma ReduceNext(n: nat, t: Table, chi: Chi, s: Subset, bc: Subset, i: nat, k: nat)
    requires StepContext(n, t, chi, s, bc, i)
    requires k < |Ascending(bc, n)|
    ensures Reduce(n, t, chi, s, bc, i, k + 1)
         == if chi((bc + {i}) - {Ascending(bc, n)[k]}) != 0.0
            then Add(Reduce(n, t, chi, s, bc, i, k), Term(n, t, chi, s, bc, i, k))
            else Reduce(n, t, chi, s, bc, i, k)
  {
  }

  // ---------------------------------------------------------------------------
  // What the reduction computes.

  /**
   * S is returned as the single monomial e_S exactly when it contains no
   * recorded broken circuit; any other S is rewritten into NBC terms, none of
   * which is S itself.
   */
  lemma MonomialIffNbc(n: nat, t: Table, chi: Chi, s: Subset)
    requires Context(n, t, chi, s)
    ensures SubsetImage(n, t, chi, s) == Monomial(s) <==> IsNbc(t, s)
  {
    if IsNbc(t, s) {
      forall q | 0 <= q < |t.order| ensures !(t.order[q] <= s) {
        assert t.order[q] in t.minOf;
      }
    } else {
      assert s !in SubsetImage(n, t, chi, s);
      assert s in Monomial(s);
    }
  }

  /**
   * When the first broken circuit bc (in table order) contained in S has its
   * recorded minimum in S too, S contains the whole circuit bc + {i} and e_S is zero.
   */
  lemma ZeroWhenCircuitContained(n: nat, t: Table, chi: Chi, s: Subset, p: nat)
    requires Context(n, t, chi, s)
    requires p < |t.order| && t.order[p] <= s
    requires forall q :: 0 <= q < p ==> !(t.order[q] <= s)
    requires t.order[p] + {t.minOf[t.order[p]]} <= s
    ensures SubsetImage(n, t, chi, s) == Zero()
  {
    var m := FirstMatch(t.order, s);
    assert m.Some? && m.value == p;
  }

  /**
   * e_{} is the unit e_{} unless some circuit is a single element (a loop, whose
   * broken circuit is empty): then the relation of that loop makes e_{} zero.
   */
  lemma EmptySetImage(n: nat, t: Table, chi: Chi)
    requires ValidTable(t, n) && ChiNonzero(t, chi)
    ensures SubsetImage(n, t, chi, {}) == if {} in t.minOf then Zero() else Monomial({})
  {
    if {} in t.minOf {
      var m := FirstMatch(t.order, {});
      assert {} in t.order;
      assert m.Some?;
      var bc := t.order[m.value];
      assert bc == {};
    } else {
      forall k | k in t.minOf ensures !(k <= {}) {
        assert k != {};
      }
      MonomialIffNbc(n, t, chi, {});
    }
  }

  // ---------------------------------------------------------------------------
  // The reduction as the Orlik-Terao relation, summed term by term.

  /** The first k terms of the relation, in rank order of the element j removed. */
  function RelationTerms(n: nat, t: Table, chi: Chi, s: Subset, bc: Subset, i: nat, k: nat): (r: seq<Element>)
    requires StepContext(n, t, chi, s, bc, i)
    requires k <= |Ascending(bc, n)|
    ensures |r| == k
  {
    if k == 0 then [] else RelationTerms(n, t, chi, s, bc, i, k - 1) + [Term(n, t, chi, s, bc, i, k - 1)]
  }

  /** The term of an element j with chi(C - {j}) zero is zero, so the source may skip it. */
  lemma ZeroTermVanishes(n: nat, t: Table, chi: Chi, s: Subset, bc: Subset, i: nat, ind: nat)
    requires StepContext(n, t, chi, s, bc, i)
    requires ind < |Ascending(bc, n)|
    requires chi((bc + {i}) - {Ascending(bc, n)[ind]}) == 0.0
    ensures Term(n, t, chi, s, bc, i, ind) == Zero()
  {
    assert RelationFactor(chi((bc + {i}) - {Ascending(bc, n)[ind]}), chi(bc), ind) == 0.0;
  }

  /**
   * The accumulated result is the full sum of the relation's terms: skipping
   * the terms whose chi coefficient is zero loses nothing.
   */
  lemma {:induction false} ReduceIsRelationSum(n: nat, t: Table, chi: Chi, s: Subset, bc: Subset, i: nat, k: nat)
    requires StepContext(n, t, chi, s, bc, i)
    requires k <= |Ascending(bc, n)|
    ensures Reduce(n, t, chi, s, bc, i, k) == Sum(RelationTerms(n, t, chi, s, bc, i, k))
  {
    if k > 0 {
      ReduceIsRelationSum(n, t, chi, s, bc, i, k - 1);
      SumAppend(RelationTerms(n, t, chi, s, bc, i, k - 1), Term(n, t, chi, s, bc, i, k - 1));
      if chi((bc + {i}) - {Ascending(bc, n)[k - 1]}) == 0.0 {
        ZeroTermVanishes(n, t, chi, s, bc, i, k - 1);
        AddZero(Reduce(n, t, chi, s, bc, i, k - 1));
      }
    }
  }

  /**
   * When the first broken circuit bc in S (table order) has its minimum i
   * outside S, e_S is the sum over the elements j of bc, in rank order, of
   * (-1)^ind * chi(C - {j}) / chi(bc) times e_{(S + {i}) - {j}}.
   */
  lemma ExpansionByRelation(n: nat, t: Table, chi: Chi, s: Subset, p: nat)
    requires Context(n, t, chi, s)
    requires p < |t.order| && t.order[p] <= s
    requires forall q :: 0 <= q < p ==> !(t.order[q] <= s)
    requires t.minOf[t.order[p]] !in s
    ensures StepContext(n, t, chi, s, t.order[p], t.minOf[t.order[p]])
    ensures SubsetImage(n, t, chi, s)
         == Sum(RelationTerms(n, t, chi, s, t.order[p], t.minOf[t.order[p]], |Ascending(t.order[p], n)|))
  {
    var bc := t.order[p];
    var m := FirstMatch(t.order, s);
    assert m.Some? && m.value == p;
    ReduceIsRelationSum(n, t, chi, s, bc, t.minOf[bc], |Ascending(bc, n)|);
  }
}
