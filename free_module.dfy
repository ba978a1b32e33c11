/**
 * Elements of the Orlik-Terao algebra as elements of the free module over the
 * subsets of the ground set: a finite map from basis index to a nonzero exact
 * coefficient. The ground set is identified with its ranks 0..n-1, so a basis
 * index is a `set<nat>`. Coefficients are exact (`real` stands for the fraction
 * field of the base ring).
 */
module FreeModule {

  type Subset = set<nat>
  type Element = map<Subset, real>

  /** The coefficient of the basis element indexed by `k` (zero when absent). */
  function Coef(e: Element, k: Subset): real
  {
    if k in e then e[k] else 0.0
  }

  /** Zero coefficients are never stored. */
  predicate NoZeros(e: Element)
  {
    forall k :: k in e ==> e[k] != 0.0
  }

  /** The zero element of the module. */
  function Zero(): (r: Element)
    ensures NoZeros(r)
    ensures forall k :: Coef(r, k) == 0.0
  {
    map[]
  }

  /** The basis element e_S, that is, the monomial S with coefficient 1. */
  function Monomial(s: Subset): (r: Element)
    ensures NoZeros(r)
    ensures r.Keys == {s}
    ensures forall k :: Coef(r, k) == if k == s then 1.0 else 0.0
  {
    map[s := 1.0]
  }

  /** Module addition: coefficients add, and cancelled terms disappear. */
  function Add(a: Element, b: Element): (r: Element)
    ensures NoZeros(r)
    ensures r.Keys <= a.Keys + b.Keys
    ensures forall k :: Coef(r, k) == Coef(a, k) + Coef(b, k)
  {
    map k | k in a.Keys + b.Keys && Coef(a, k) + Coef(b, k) != 0.0 :: Coef(a, k) + Coef(b, k)
  }

  /** Scalar multiplication by an exact coefficient. */
  function Scale(c: real, a: Element): (r: Element)
    ensures NoZeros(r)
    ensures r.Keys <= a.Keys
    ensures forall k :: Coef(r, k) == c * Coef(a, k)
    ensures c == 0.0 ==> r == Zero()
  {
    map k | k in a.Keys && c * a[k] != 0.0 :: c * a[k]
  }

  /** (-1)^ind, the sign of the ind-th term of the Orlik-Terao relation. */
  function Sign(ind: nat): (r: real)
    ensures r == 1.0 || r == -1.0
  {
    if ind % 2 == 0 then 1.0 else -1.0
  }

  /** Two elements with no zero entries are equal exactly when all their coefficients are. */
  lemma CoefExtensionality(a: Element, b: Element)
    requires NoZeros(a) && NoZeros(b)
    requires forall k :: Coef(a, k) == Coef(b, k)
    ensures a == b
  {
    forall k | k in a ensures k in b && a[k] == b[k] {
      assert Coef(a, k) == Coef(b, k);
    }
    forall k | k in b ensures k in a {
      assert Coef(a, k) == Coef(b, k);
    }
  }

  /** Zero is the identity of module addition. */
  lemma AddZero(a: Element)
    requires NoZeros(a)
    ensures Add(a, Zero()) == a && Add(Zero(), a) == a
  {
    CoefExtensionality(Add(a, Zero()), a);
    CoefExtensionality(Add(Zero(), a), a);
  }

  /** Module addition is associative. */
  lemma AddAssociative(a: Element, b: Element, c: Element)
    ensures Add(Add(a, b), c) == Add(a, Add(b, c))
  {
    CoefExtensionality(Add(Add(a, b), c), Add(a, Add(b, c)));
  }

  /** The sum of a finite sequence of elements. */
  function Sum(es: seq<Element>): (r: Element)
    ensures NoZeros(r)
    ensures forall k :: (forall a :: 0 <= a < |es| ==> Coef(es[a], k) == 0.0) ==> Coef(r, k) == 0.0
  {
    if |es| == 0 then Zero() else Add(es[0], Sum(es[1..]))
  }

  /** Summing one more element adds it to the sum. */
  lemma {:induction false} SumAppend(es: seq<Element>, x: Element)
    requires NoZeros(x)
    ensures Sum(es + [x]) == Add(Sum(es), x)
  {
    if |es| == 0 {
      assert Sum([x]) == Add(x, Sum([]));
      AddZero(x);
    } else {
      assert (es + [x])[1..] == es[1..] + [x];
      SumAppend(es[1..], x);
      AddAssociative(es[0], Sum(es[1..]), x);
    }
  }
}
