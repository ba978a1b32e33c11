/**
 * The broken-circuit table of an Orlik-Terao algebra (orlik_terao.py, __init__).
 * Ground elements are identified with their ranks 0..n-1 under the algebra's
 * ordering, so "sorted by rank" is ascending order of the elements.
 *
 * The source stores the table in a Python dict, whose iteration order is the
 * order in which keys were first inserted; re-assigning an existing key keeps
 * its position and replaces its value. The table is therefore modelled as the
 * key sequence `order` plus the value map `minOf`.
 */
module BrokenCircuits {
  import opened FreeModule

  /** Every element of `s` lies in the ground set {0, ..., n-1}. */
  predicate InGround(s: Subset, n: nat)
  {
    forall x :: x in s ==> x < n
  }

  predicate StrictlyIncreasing(xs: seq<nat>)
  {
    forall a, b :: 0 <= a < b < |xs| ==> xs[a] < xs[b]
  }

  /** The elements of `s` in [lo, n), listed in ascending order. */
  function AscendingFrom(s: Subset, lo: nat, n: nat): (r: seq<nat>)
    ensures StrictlyIncreasing(r)
    ensures forall x :: x in r <==> x in s && lo <= x < n
    decreases n - lo
  {
    if lo >= n then []
    else
      var rest := AscendingFrom(s, lo + 1, n);
      if lo in s then
        assert forall b :: 0 <= b < |rest| ==> lo < rest[b] by {
          forall b | 0 <= b < |rest| ensures lo < rest[b] {
            assert rest[b] in rest;
          }
        }
        [lo] + rest
      else rest
  }

  /** `sorted(s, key=rank)`: the elements of a subset of the ground set in rank order. */
  function Ascending(s: Subset, n: nat): (r: seq<nat>)
    requires InGround(s, n)
    ensures StrictlyIncreasing(r)
    ensures forall x :: x in r <==> x in s
  {
    AscendingFrom(s, 0, n)
  }

  /** `L[0]` for `L = sorted(c, key=rank)`: the rank-least element of a circuit. */
  function Least(c: Subset, n: nat): (m: nat)
    requires c != {} && InGround(c, n)
    ensures m in c
    ensures forall x :: x in c ==> m <= x
  {
    var l := Ascending(c, n);
    assert l != [] by {
      var x :| x in c;
      assert x in l;
    }
    forall x | x in c ensures l[0] <= x {
      var p :| 0 <= p < |l| && l[p] == x;
    }
    l[0]
  }

  /** `frozenset(L[1:])`: the broken circuit of a circuit, i.e. the circuit without its least element. */
  function Broken(c: Subset, n: nat): (bc: Subset)
    requires c != {} && InGround(c, n)
    ensures bc == c - {Least(c, n)}
  {
    var l := Ascending(c, n);
    var bc := set x | x in l[1..];
    assert l != [] && l[0] == Least(c, n) by {
      var x :| x in c;
      assert x in l;
    }
    forall x | x in c - {l[0]} ensures x in bc {
      var p :| 0 <= p < |l| && l[p] == x;
      assert l[1..][p - 1] == x;
    }
    bc
  }

  /** The table: keys in dict insertion order, and the recorded minimum of each key. */
  datatype Table = Table(order: seq<Subset>, minOf: map<Subset, nat>)

  /** The empty dict. */
  function EmptyTable(): Table
  {
    Table([], map[])
  }

  /** `d[k] = v` on an insertion-ordered dict. */
  function Put(t: Table, k: Subset, v: nat): (r: Table)
    ensures r.minOf == t.minOf[k := v]
    ensures k in t.minOf ==> r.order == t.order
    ensures k !in t.minOf ==> r.order == t.order + [k]
  {
    Table(if k in t.minOf then t.order else t.order + [k], t.minOf[k := v])
  }

  /** The loop body of `__init__` for one circuit. */
  function Record(t: Table, c: Subset, n: nat): Table
    requires c != {} && InGround(c, n)
  {
    Put(t, Broken(c, n), Least(c, n))
  }

  /**
   * After one circuit is recorded, its broken circuit plus the recorded value
   * is the circuit itself, with the value ranked below the key; every other
   * entry is untouched, and a valid table stays valid.
   */
  lemma RecordCircuit(t: Table, c: Subset, n: nat)
    requires c != {} && InGround(c, n)
    ensures var r := Record(t, c, n);
            && Broken(c, n) in r.minOf
            && Broken(c, n) + {r.minOf[Broken(c, n)]} == c
            && (forall j :: j in Broken(c, n) ==> r.minOf[Broken(c, n)] < j)
            && (forall k :: k in t.minOf && k != Broken(c, n) ==> k in r.minOf && r.minOf[k] == t.minOf[k])
            && (ValidTable(t, n) ==> ValidTable(r, n))
  {
    BrokenPlusLeast(c, n);
  }

  /** Circuits as the matroid supplies them: nonempty subsets of the ground set. */
  predicate CircuitsWellFormed(circuits: seq<Subset>, n: nat)
  {
    forall p :: 0 <= p < |circuits| ==> circuits[p] != {} && InGround(circuits[p], n)
  }

  /**
   * The table that `__init__` builds by processing `circuits` in order: each
   * circuit adds at most one key.
   */
  function BuildTable(circuits: seq<Subset>, n: nat): (t: Table)
    requires CircuitsWellFormed(circuits, n)
    ensures |t.order| <= |circuits|
  {
    if circuits == [] then EmptyTable()
    else Record(BuildTable(circuits[..|circuits| - 1], n), circuits[|circuits| - 1], n)
  }

  /**
   * The invariant the reduction relies on: the key sequence lists each key of
   * the map once, and every entry (bc -> i) has i below every element of bc
   * (so i is not in bc) and lies, with bc, in the ground set.
   */
  predicate ValidTable(t: Table, n: nat)
  {
    && (forall k :: k in t.minOf ==> k in t.order)
    && (forall a :: 0 <= a < |t.order| ==> t.order[a] in t.minOf)
    && (forall a, b :: 0 <= a < b < |t.order| ==> t.order[a] != t.order[b])
    && (forall k :: k in t.minOf ==>
          && t.minOf[k] < n
          && t.minOf[k] !in k
          && InGround(k, n)
          && (forall j :: j in k ==> t.minOf[k] < j))
  }

  /** The last position at which a circuit with broken circuit `k` occurs. */
  predicate IsLastFor(circuits: seq<Subset>, n: nat, p: int, k: Subset)
    requires CircuitsWellFormed(circuits, n)
  {
    && 0 <= p < |circuits|
    && Broken(circuits[p], n) == k
    && forall q :: p < q < |circuits| ==> Broken(circuits[q], n) != k
  }

  /** Building the table from well-formed circuits yields a valid table. */
  lemma {:induction false} BuildTableValid(circuits: seq<Subset>, n: nat)
    requires CircuitsWellFormed(circuits, n)
    ensures ValidTable(BuildTable(circuits, n), n)
  {
    if circuits != [] {
      var init := circuits[..|circuits| - 1];
      assert CircuitsWellFormed(init, n);
      BuildTableValid(init, n);
      RecordCircuit(BuildTable(init, n), circuits[|circuits| - 1], n);
    }
  }

  /** Every circuit's broken circuit becomes a key of the table. */
  lemma {:induction false} BuildTableHasEveryBrokenCircuit(circuits: seq<Subset>, n: nat)
    requires CircuitsWellFormed(circuits, n)
    ensures forall p :: 0 <= p < |circuits| ==> Broken(circuits[p], n) in BuildTable(circuits, n).minOf
  {
    if circuits != [] {
      var last := |circuits| - 1;
      var init := circuits[..last];
      assert CircuitsWellFormed(init, n);
      BuildTableHasEveryBrokenCircuit(init, n);
      var t0 := BuildTable(init, n);
      var t := BuildTable(circuits, n);
      RecordCircuit(t0, circuits[last], n);
      forall p | 0 <= p < |circuits| ensures Broken(circuits[p], n) in t.minOf {
        if p < last {
          assert init[p] == circuits[p];
        }
      }
    }
  }

  /** The keys of the built table are exactly the broken circuits of the circuits. */
  lemma BuildTableKeys(circuits: seq<Subset>, n: nat, k: Subset)
    requires CircuitsWellFormed(circuits, n)
    ensures k in BuildTable(circuits, n).minOf <==> exists p :: 0 <= p < |circuits| && Broken(circuits[p], n) == k
  {
    BuildTableHasEveryBrokenCircuit(circuits, n);
    if k in BuildTable(circuits, n).minOf {
      BuildTableEntries(circuits, n);
      var p :| IsLastFor(circuits, n, p, k) && BuildTable(circuits, n).minOf[k] == Least(circuits[p], n);
    }
  }

  /** A last occurrence in all but the final circuit stays last when the final circuit has another broken circuit. */
  lemma LastForExtends(circuits: seq<Subset>, n: nat, p: int, k: Subset)
    requires CircuitsWellFormed(circuits, n) && circuits != []
    requires CircuitsWellFormed(circuits[..|circuits| - 1], n)
    requires IsLastFor(circuits[..|circuits| - 1], n, p, k)
    requires Broken(circuits[|circuits| - 1], n) != k
    ensures IsLastFor(circuits, n, p, k)
    ensures Least(circuits[..|circuits| - 1][p], n) == Least(circuits[p], n)
  {
    var init := circuits[..|circuits| - 1];
    assert init[p] == circuits[p];
    forall q | p < q < |circuits| ensures Broken(circuits[q], n) != k {
      if q < |circuits| - 1 {
        assert init[q] == circuits[q];
      }
    }
  }

  /**
   * Every entry of the table comes from the last circuit with that broken
   * circuit: its value is that circuit's least element.
   */
  lemma {:induction false} BuildTableEntries(circuits: seq<Subset>, n: nat)
    requires CircuitsWellFormed(circuits, n)
    ensures forall k :: k in BuildTable(circuits, n).minOf ==>
              exists p :: IsLastFor(circuits, n, p, k) && BuildTable(circuits, n).minOf[k] == Least(circuits[p], n)
  {
    if circuits != [] {
      var last := |circuits| - 1;
      var init := circuits[..last];
      assert CircuitsWellFormed(init, n);
      BuildTableEntries(init, n);
      var t0 := BuildTable(init, n);
      var t := BuildTable(circuits, n);
      var k0 := Broken(circuits[last], n);
      assert t.minOf == t0.minOf[k0 := Least(circuits[last], n)];
      forall k | k in t.minOf
        ensures exists p :: IsLastFor(circuits, n, p, k) && t.minOf[k] == Least(circuits[p], n)
      {
        if k == k0 {
          assert IsLastFor(circuits, n, last, k);
        } else {
          assert k in t0.minOf;
          var p :| IsLastFor(init, n, p, k) && t0.minOf[k] == Least(init[p], n);
          LastForExtends(circuits, n, p, k);
        }
      }
    }
  }

  /** Under duplicate broken circuits, the last circuit processed determines the recorded minimum. */
  lemma LastCircuitWins(circuits: seq<Subset>, n: nat, p: nat)
    requires CircuitsWellFormed(circuits, n)
    requires p < |circuits| && IsLastFor(circuits, n, p, Broken(circuits[p], n))
    ensures Broken(circuits[p], n) in BuildTable(circuits, n).minOf
    ensures BuildTable(circuits, n).minOf[Broken(circuits[p], n)] == Least(circuits[p], n)
  {
    BuildTableHasEveryBrokenCircuit(circuits, n);
    BuildTableEntries(circuits, n);
    var k := Broken(circuits[p], n);
    var q :| IsLastFor(circuits, n, q, k) && BuildTable(circuits, n).minOf[k] == Least(circuits[q], n);
    assert q == p;
  }

  /** The first position at which a circuit with broken circuit `k` occurs. */
  predicate IsFirstFor(circuits: seq<Subset>, n: nat, p: int, k: Subset)
    requires CircuitsWellFormed(circuits, n)
  {
    && 0 <= p < |circuits|
    && Broken(circuits[p], n) == k
    && forall q :: 0 <= q < p ==> Broken(circuits[q], n) != k
  }

  /** A first occurrence in all but the final circuit is still first in all of them. */
  lemma FirstForExtends(circuits: seq<Subset>, n: nat, p: int, k: Subset)
    requires CircuitsWellFormed(circuits, n) && circuits != []
    requires CircuitsWellFormed(circuits[..|circuits| - 1], n)
    requires IsFirstFor(circuits[..|circuits| - 1], n, p, k)
    ensures IsFirstFor(circuits, n, p, k)
  {
    var init := circuits[..|circuits| - 1];
    assert init[p] == circuits[p];
    forall q | 0 <= q < p ensures Broken(circuits[q], n) != k {
      assert init[q] == circuits[q];
    }
  }

  lemma FirstForUnique(circuits: seq<Subset>, n: nat, p: int, q: int, k: Subset)
    requires CircuitsWellFormed(circuits, n)
    requires IsFirstFor(circuits, n, p, k) && IsFirstFor(circuits, n, q, k)
    ensures p == q
  {
  }

  /** Some circuit has `k` as its broken circuit, so `k` has a first occurrence. */
  ghost predicate Occurs(circuits: seq<Subset>, n: nat, k: Subset)
    requires CircuitsWellFormed(circuits, n)
  {
    exists p :: IsFirstFor(circuits, n, p, k)
  }

  /** Every key of `order` is the broken circuit of some circuit. */
  ghost predicate HasFirstOccurrences(circuits: seq<Subset>, n: nat, order: seq<Subset>)
    requires CircuitsWellFormed(circuits, n)
  {
    forall a :: 0 <= a < |order| ==> Occurs(circuits, n, order[a])
  }

  /** An earlier key of `order` first occurs at an earlier circuit. */
  ghost predicate FirstOccurrencesIncrease(circuits: seq<Subset>, n: nat, order: seq<Subset>)
    requires CircuitsWellFormed(circuits, n)
  {
    forall a, b, pa, pb ::
      && 0 <= a < b < |order|
      && IsFirstFor(circuits, n, pa, order[a])
      && IsFirstFor(circuits, n, pb, order[b])
      ==> pa < pb
  }

  /** `order` lists broken circuits in the order of their first occurrence among the circuits. */
  ghost predicate FirstOccurrenceOrder(circuits: seq<Subset>, n: nat, order: seq<Subset>)
    requires CircuitsWellFormed(circuits, n)
  {
    HasFirstOccurrences(circuits, n, order) && FirstOccurrencesIncrease(circuits, n, order)
  }

  /** The premises of one step: `order` is `order0` after recording the final circuit. */
  ghost predicate OrderStep(circuits: seq<Subset>, n: nat, order0: seq<Subset>, order: seq<Subset>)
    requires CircuitsWellFormed(circuits, n) && circuits != []
  {
    && CircuitsWellFormed(circuits[..|circuits| - 1], n)
    && (forall q :: 0 <= q < |circuits| - 1 ==> Broken(circuits[q], n) in order0)
    && var k0 := Broken(circuits[|circuits| - 1], n);
       order == if k0 in order0 then order0 else order0 + [k0]
  }

  /** A broken circuit new to the table first occurs at the final circuit. */
  lemma NewKeyFirst(circuits: seq<Subset>, n: nat, order0: seq<Subset>, order: seq<Subset>)
    requires CircuitsWellFormed(circuits, n) && circuits != []
    requires OrderStep(circuits, n, order0, order)
    requires Broken(circuits[|circuits| - 1], n) !in order0
    ensures IsFirstFor(circuits, n, |circuits| - 1, Broken(circuits[|circuits| - 1], n))
  {
  }

  /** A key already in the table first occurs before the final circuit. */
  lemma OldKeyFirst(circuits: seq<Subset>, n: nat, order0: seq<Subset>, a: nat)
    requires CircuitsWellFormed(circuits, n) && circuits != []
    requires CircuitsWellFormed(circuits[..|circuits| - 1], n)
    requires HasFirstOccurrences(circuits[..|circuits| - 1], n, order0)
    requires a < |order0|
    ensures exists p :: p < |circuits| - 1 && IsFirstFor(circuits, n, p, order0[a])
  {
    assert Occurs(circuits[..|circuits| - 1], n, order0[a]);
    var p :| IsFirstFor(circuits[..|circuits| - 1], n, p, order0[a]);
    FirstForExtends(circuits, n, p, order0[a]);
  }

  lemma HasFirstOccurrencesStep(circuits: seq<Subset>, n: nat, order0: seq<Subset>, order: seq<Subset>)
    requires CircuitsWellFormed(circuits, n) && circuits != []
    requires OrderStep(circuits, n, order0, order)
    requires HasFirstOccurrences(circuits[..|circuits| - 1], n, order0)
    ensures HasFirstOccurrences(circuits, n, order)
  {
    forall a | 0 <= a < |order| ensures Occurs(circuits, n, order[a]) {
      if a < |order0| {
        OldKeyFirst(circuits, n, order0, a);
        assert order[a] == order0[a];
      } else {
        NewKeyFirst(circuits, n, order0, order);
        assert IsFirstFor(circuits, n, |circuits| - 1, order[a]);
      }
    }
  }

  lemma FirstOccurrencesIncreaseStep(circuits: seq<Subset>, n: nat, order0: seq<Subset>, order: seq<Subset>)
    requires CircuitsWellFormed(circuits, n) && circuits != []
    requires OrderStep(circuits, n, order0, order)
    requires FirstOccurrenceOrder(circuits[..|circuits| - 1], n, order0)
    ensures FirstOccurrencesIncrease(circuits, n, order)
  {
    var last := |circuits| - 1;
    var init := circuits[..last];
    forall a, b, pa, pb |
      && 0 <= a < b < |order|
      && IsFirstFor(circuits, n, pa, order[a])
      && IsFirstFor(circuits, n, pb, order[b])
      ensures pa < pb
    {
      assert order[a] == order0[a];
      assert Occurs(init, n, order0[a]);
      var qa :| IsFirstFor(init, n, qa, order0[a]);
      FirstForExtends(circuits, n, qa, order0[a]);
      FirstForUnique(circuits, n, pa, qa, order[a]);
      if b == |order0| {
        NewKeyFirst(circuits, n, order0, order);
        FirstForUnique(circuits, n, pb, last, order[b]);
      } else {
        assert order[b] == order0[b];
        assert Occurs(init, n, order0[b]);
        var qb :| IsFirstFor(init, n, qb, order0[b]);
        FirstForExtends(circuits, n, qb, order0[b]);
        FirstForUnique(circuits, n, pb, qb, order[b]);
      }
    }
  }

  /**
   * The key sequence of the built table is the order in which broken circuits
   * first occur among the circuits. This is the order in which
   * `subset_image` scans the dict.
   */
  lemma {:induction false} BuildTableOrder(circuits: seq<Subset>, n: nat)
    requires CircuitsWellFormed(circuits, n)
    ensures FirstOccurrenceOrder(circuits, n, BuildTable(circuits, n).order)
  {
    if circuits != [] {
      var last := |circuits| - 1;
      var init := circuits[..last];
      assert CircuitsWellFormed(init, n);
      BuildTableOrder(init, n);
      BuildTableValid(init, n);
      BuildTableHasEveryBrokenCircuit(init, n);
      var t0 := BuildTable(init, n);
      forall q | 0 <= q < last ensures Broken(circuits[q], n) in t0.order {
        assert init[q] == circuits[q];
      }
      var order := BuildTable(circuits, n).order;
      assert OrderStep(circuits, n, t0.order, order);
      HasFirstOccurrencesStep(circuits, n, t0.order, order);
      FirstOccurrencesIncreaseStep(circuits, n, t0.order, order);
    }
  }

  /**
   * The three facts about each entry (bc -> i): i is not in bc, bc + {i} is one
   * of the circuits, and i ranks strictly below every element of bc.
   */
  lemma TableEntriesAreCircuits(circuits: seq<Subset>, n: nat, k: Subset)
    requires CircuitsWellFormed(circuits, n)
    requires k in BuildTable(circuits, n).minOf
    ensures BuildTable(circuits, n).minOf[k] !in k
    ensures k + {BuildTable(circuits, n).minOf[k]} in circuits
    ensures forall j :: j in k ==> BuildTable(circuits, n).minOf[k] < j
  {
    BuildTableEntries(circuits, n);
    var t := BuildTable(circuits, n);
    var p :| IsLastFor(circuits, n, p, k) && t.minOf[k] == Least(circuits[p], n);
    BrokenPlusLeast(circuits[p], n);
  }

  /** A circuit is its broken circuit plus its least element, which lies below the rest. */
  lemma BrokenPlusLeast(c: Subset, n: nat)
    requires c != {} && InGround(c, n)
    ensures Least(c, n) !in Broken(c, n)
    ensures Broken(c, n) + {Least(c, n)} == c
    ensures forall j :: j in Broken(c, n) ==> Least(c, n) < j
  {
  }
}
