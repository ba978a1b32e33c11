/**
 * The algebra object of orlik_terao.py: `__init__` fills the broken-circuit
 * dict in place, one circuit at a time, and `subset_image` scans that dict and
 * accumulates the expansion of e_S term by term. Both are proved against the
 * specifications BuildTable and Reduction.SubsetImage.
 *
 * `subset_image` only reads the object (its table, chi and ground set), so its
 * scan and accumulation loops are methods over those values, and the class's
 * own SubsetImage hands them its fields.
 *
 * The matroid enters through its circuits (over ranks 0..n-1, in the order the
 * matroid lists them) and through chi, which is given with the algebra.
 */
module OrlikTerao {
  import opened Wrappers
  import opened FreeModule
  import opened BrokenCircuits
  import opened Reduction
  import Basis

  /** chi is nonzero on the broken circuit of every circuit: those are independent sets. */
  predicate ChiNonzeroOnBrokenCircuits(circuits: seq<Subset>, n: nat, chi: Chi)
    requires CircuitsWellFormed(circuits, n)
  {
    forall p :: 0 <= p < |circuits| ==> chi(Broken(circuits[p], n)) != 0.0
  }

  /** Every key of the built table is the broken circuit of some circuit, so chi does not vanish on it. */
  lemma BuiltTableChiNonzero(circuits: seq<Subset>, n: nat, chi: Chi)
    requires CircuitsWellFormed(circuits, n)
    requires ChiNonzeroOnBrokenCircuits(circuits, n, chi)
    ensures ValidTable(BuildTable(circuits, n), n)
    ensures ChiNonzero(BuildTable(circuits, n), chi)
  {
    BuildTableValid(circuits, n);
    BuildTableEntries(circuits, n);
    var t := BuildTable(circuits, n);
    forall k | k in t.minOf ensures chi(k) != 0.0 {
      var p :| IsLastFor(circuits, n, p, k) && t.minOf[k] == Least(circuits[p], n);
      assert Broken(circuits[p], n) == k;
    }
  }

  /**
   * `subset_image(S)` on the table t: the first key of t (in insertion order)
   * that is a subset of S decides. If its recorded minimum i is in S too, S
   * holds a circuit and the result is zero; otherwise e_S is rewritten by the
   * Orlik-Terao relation of that circuit, recursively. With no such key, S is
   * an NBC set and the result is the monomial e_S.
   */
  method ComputeSubsetImage(n: nat, t: Table, chi: Chi, s: Subset) returns (r: Element)
    requires Context(n, t, chi, s)
    ensures r == SubsetImage(n, t, chi, s)
    decreases RankSum(s, n), 2
  {
    var p := 0;
    while p < |t.order|
      invariant 0 <= p <= |t.order|
      invariant forall q :: 0 <= q < p ==> !(t.order[q] <= s)
    {
      var bc := t.order[p];
      if bc <= s {
        assert FirstMatch(t.order, s) == Some(p);
        var i := t.minOf[bc];
        if i in s {
          return Zero();
        }
        r := RewriteByCircuit(n, t, chi, s, bc, i);
        return;
      }
      p := p + 1;
    }
    assert FirstMatch(t.order, s).None?;
    r := Monomial(s);
  }

  /**
   * The second half of `subset_image(S)` once the broken circuit bc (recorded
   * minimum i, not in S) is found: starting from zero, the loop over the
   * elements of bc in rank order adds one term of the Orlik-Terao relation of
   * the circuit C = bc + {i} per element.
   */
  method RewriteByCircuit(n: nat, t: Table, chi: Chi, s: Subset, bc: Subset, i: nat) returns (r: Element)
    requires StepContext(n, t, chi, s, bc, i)
    ensures r == Reduce(n, t, chi, s, bc, i, |Ascending(bc, n)|)
    decreases RankSum(s, n), 1
  {
    r := Zero();
    var sorted := Ascending(bc, n);
    var ind := 0;
    while ind < |sorted|
      invariant ind <= |sorted|
      invariant r == Reduce(n, t, chi, s, bc, i, ind)
    {
      r := AddRelationTerm(n, t, chi, s, bc, i, ind, r);
      ind := ind + 1;
    }
  }

  /**
   * One pass of the loop over bc: with j its ind-th element in rank order and
   * coeff = chi(C - {j}), a nonzero coeff adds
   * `(-1)^ind * coeff / chi(bc) * subset_image((S + {i}) - {j})` to the sum
   * accumulated so far.
   */
  method AddRelationTerm(n: nat, t: Table, chi: Chi, s: Subset, bc: Subset, i: nat, ind: nat, acc: Element) returns (r: Element)
    requires StepContext(n, t, chi, s, bc, i)
    requires ind < |Ascending(bc, n)|
    requires acc == Reduce(n, t, chi, s, bc, i, ind)
    ensures r == Reduce(n, t, chi, s, bc, i, ind + 1)
    decreases RankSum(s, n), 0
  {
    var j := Ascending(bc, n)[ind];
    var coeff := chi((bc + {i}) - {j});
    ReduceNext(n, t, chi, s, bc, i, ind);
    r := acc;
    if coeff != 0.0 {
      assert j in bc;
      StepDecreases(n, t, chi, s, bc, i, j);
      var sub := ComputeSubsetImage(n, t, chi, (s + {i}) - {j});
      r := Add(r, Scale(RelationFactor(coeff, chi(bc), ind), sub));
    }
  }

  class OrlikTeraoAlgebra {
    /** The size of the ground set; elements are their ranks 0..n-1. */
    const n: nat
    /** `_chi`, the determinant attached to an independent set. */
    const chi: Chi
    /** The circuits of the matroid, in the order `M.circuits()` lists them. */
    ghost const circuits: seq<Subset>
    /** `_broken_circuits`: its keys in insertion order, and its values. */
    var bcOrder: seq<Subset>
    var bcMin: map<Subset, nat>

    function BrokenCircuitTable(): Table
      reads this
    {
      Table(bcOrder, bcMin)
    }

    ghost predicate Valid()
      reads this
    {
      && CircuitsWellFormed(circuits, n)
      && BrokenCircuitTable() == BuildTable(circuits, n)
      && ValidTable(BrokenCircuitTable(), n)
      && ChiNonzero(BrokenCircuitTable(), chi)
    }

    /**
     * `__init__`: for each circuit in turn, sort it by rank and record its
     * least element under the key of its other elements; a later circuit with
     * the same broken circuit overwrites the value but keeps the key's place.
     */
    constructor (n: nat, chi: Chi, circuits: seq<Subset>)
      requires CircuitsWellFormed(circuits, n)
      requires ChiNonzeroOnBrokenCircuits(circuits, n, chi)
      ensures this.n == n && this.chi == chi && this.circuits == circuits
      ensures BrokenCircuitTable() == BuildTable(circuits, n)
      ensures Valid()
    {
      this.n := n;
      this.chi := chi;
      this.circuits := circuits;
      bcOrder := [];
      bcMin := map[];
      new;
      for k := 0 to |circuits|
        invariant CircuitsWellFormed(circuits[..k], n)
        invariant BrokenCircuitTable() == BuildTable(circuits[..k], n)
      {
        var c := circuits[k];
        var l := Ascending(c, n);
        assert l != [] && l[0] == Least(c, n) by {
          assert Least(c, n) in l;
        }
        var key := set x | x in l[1..];
        assert key == Broken(c, n);
        if key !in bcMin {
          bcOrder := bcOrder + [key];
        }
        bcMin := bcMin[key := l[0]];
        assert circuits[..k + 1][..k] == circuits[..k];
      }
      assert circuits[..|circuits|] == circuits;
      BuiltTableChiNonzero(circuits, n, chi);
    }

    /**
     * `subset_image(S)`: the expansion of e_S in the NBC basis, computed from
     * this algebra's broken-circuit table, chi and ground set.
     */
    method SubsetImage(s: Subset) returns (r: Element)
      requires Valid()
      requires InGround(s, n)
      ensures r == Reduction.SubsetImage(n, BrokenCircuitTable(), chi, s)
    {
      r := ComputeSubsetImage(n, BrokenCircuitTable(), chi, s);
    }

    /**
     * `product_on_basis(a, b)`: the unit shortcuts, zero on overlapping
     * factors, and otherwise `subset_image(b + a)`.
     */
    method ProductOnBasis(a: Subset, b: Subset) returns (r: Element)
      requires Valid()
      requires InGround(a, n) && InGround(b, n)
      ensures r == Basis.ProductOnBasis(n, BrokenCircuitTable(), chi, a, b)
    {
      if a == {} {
        return Monomial(b);
      }
      if b == {} {
        return Monomial(a);
      }
      if a * b != {} {
        return Zero();
      }
      r := SubsetImage(b + a);
    }
  }
}
