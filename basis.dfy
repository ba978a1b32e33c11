/**
 * The basis-level hooks of the Orlik-Terao algebra (orlik_terao.py): the index
 * of the unit, the grading, the sort key of terms and the product of two basis
 * elements. Basis elements are indexed by the NBC sets of the matroid.
 */
module Basis {
  import opened FreeModule
  import opened BrokenCircuits
  import opened Reduction

  /** `one_basis`: the index of the unit, the empty set. */
  function OneBasis(): (b: Subset)
    ensures DegreeOnBasis(b) == 0
    ensures forall s: Subset :: b <= s
  {
    {}
  }

  /** `degree_on_basis`: e_m has degree |m|; the algebra is graded by size. */
  function DegreeOnBasis(m: Subset): (d: nat)
    ensures d == 0 <==> m == {}
  {
    |m|
  }

  /** The degree is additive on disjoint basis indices, the grading the product respects. */
  lemma DegreeOfDisjointUnion(a: Subset, b: Subset)
    requires a * b == {}
    ensures DegreeOnBasis(a + b) == DegreeOnBasis(a) + DegreeOnBasis(b)
  {
    assert |a + b| + |a * b| == |a| + |b|;
  }

  /** The unit index is a basis index (an NBC set) exactly when the matroid has no loop. */
  lemma OneBasisIsNbc(t: Table)
    ensures IsNbc(t, OneBasis()) <==> {} !in t.minOf
  {
    if {} in t.minOf {
      assert {} <= OneBasis();
    } else {
      forall k | k in t.minOf ensures !(k <= OneBasis()) {
        assert k != {};
        var x :| x in k;
      }
    }
  }

  /**
   * `_sort_key`: terms are listed by decreasing degree, then by their elements
   * in increasing order.
   */
  function SortKey(x: Subset, n: nat): (key: (int, seq<nat>))
    requires InGround(x, n)
    ensures key.0 == -(DegreeOnBasis(x) as int)
    ensures StrictlyIncreasing(key.1)
    ensures forall y :: y in key.1 <==> y in x
  {
    (-|x|, Ascending(x, n))
  }

  /** Distinct basis indices have distinct sort keys, so the key orders the terms totally. */
  lemma SortKeyInjective(x: Subset, y: Subset, n: nat)
    requires InGround(x, n) && InGround(y, n)
    requires SortKey(x, n) == SortKey(y, n)
    ensures x == y
  {
    var l := SortKey(x, n).1;
    forall z ensures z in x <==> z in y {
      assert z in x <==> z in l;
    }
  }

  /**
   * `product_on_basis(a, b)`: an empty factor is the unit, overlapping factors
   * multiply to zero (e_x * e_x = 0), and otherwise the product is e_{b + a}
   * expanded in the NBC basis.
   */
  function ProductOnBasis(n: nat, t: Table, chi: Chi, a: Subset, b: Subset): (r: Element)
    requires ValidTable(t, n) && ChiNonzero(t, chi)
    requires InGround(a, n) && InGround(b, n)
    ensures NoZeros(r)
    ensures forall k :: k in r ==> DegreeOnBasis(k) == DegreeOnBasis(a) + DegreeOnBasis(b) && InGround(k, n)
    ensures IsNbc(t, a) && IsNbc(t, b) ==> forall k :: k in r ==> IsNbc(t, k)
  {
    if a == {} then Monomial(b)
    else if b == {} then Monomial(a)
    else if a * b != {} then Zero()
    else
      assert |b + a| == |a| + |b| by {
        assert b * a == {};
      }
      SubsetImage(n, t, chi, b + a)
  }

  /**
   * On basis elements the product is the reduction of the union when the
   * factors are disjoint and zero otherwise; the empty-factor shortcuts agree
   * with this.
   */
  lemma ProductIsReduction(n: nat, t: Table, chi: Chi, a: Subset, b: Subset)
    requires ValidTable(t, n) && ChiNonzero(t, chi)
    requires InGround(a, n) && InGround(b, n)
    requires IsNbc(t, a) && IsNbc(t, b)
    ensures ProductOnBasis(n, t, chi, a, b)
         == if a * b == {} then SubsetImage(n, t, chi, a + b) else Zero()
  {
    if a == {} {
      assert a + b == b;
      MonomialIffNbc(n, t, chi, b);
    } else if b == {} {
      assert a + b == a;
      MonomialIffNbc(n, t, chi, a);
    } else if a * b == {} {
      assert b + a == a + b;
    }
  }

  /** The product of basis elements is commutative. */
  lemma ProductCommutes(n: nat, t: Table, chi: Chi, a: Subset, b: Subset)
    requires ValidTable(t, n) && ChiNonzero(t, chi)
    requires InGround(a, n) && InGround(b, n)
    ensures ProductOnBasis(n, t, chi, a, b) == ProductOnBasis(n, t, chi, b, a)
  {
    if a != {} && b != {} && a * b == {} {
      assert b + a == a + b;
      assert b * a == {};
    }
  }

  /** e_{one_basis} is a two-sided unit of degree 0 for the basis product. */
  lemma OneBasisIsUnit(n: nat, t: Table, chi: Chi, b: Subset)
    requires ValidTable(t, n) && ChiNonzero(t, chi)
    requires InGround(b, n)
    ensures DegreeOnBasis(OneBasis()) == 0
    ensures ProductOnBasis(n, t, chi, OneBasis(), b) == Monomial(b)
    ensures ProductOnBasis(n, t, chi, b, OneBasis()) == Monomial(b)
  {
  }

  /** e_x * e_x = 0 for every generator x. */
  lemma GeneratorSquareIsZero(n: nat, t: Table, chi: Chi, x: nat)
    requires ValidTable(t, n) && ChiNonzero(t, chi)
    requires x < n
    ensures ProductOnBasis(n, t, chi, {x}, {x}) == Zero()
  {
    assert x in {x} * {x};
  }
}
