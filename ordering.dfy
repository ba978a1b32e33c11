/**
 * The ordering of the ground set (orlik_terao.py, __classcall_private__ and
 * the rank map built at the start of __init__). Ground-set labels are modelled
 * as integers, and the ground set by the sequence of its labels in the order
 * the matroid lists them. An ordering is a sequence of labels; when none is
 * given, the sorted ground set is used. The rank of a label is its position in
 * the ordering, built by a dict comprehension over `enumerate(ordering)`, so a
 * label listed twice keeps its last position.
 */
module Ordering {
  import opened Wrappers

  predicate Sorted(xs: seq<int>)
  {
    forall a, b :: 0 <= a < b < |xs| ==> xs[a] <= xs[b]
  }

  /** Every element of a sequence with the elements of xs and y is at least v, when they all are. */
  lemma BoundedBelow(v: int, xs: seq<int>, y: int, r: seq<int>)
    requires forall c :: 0 <= c < |xs| ==> v <= xs[c]
    requires v <= y
    requires multiset(r) == multiset(xs) + multiset{y}
    ensures forall b :: 0 <= b < |r| ==> v <= r[b]
  {
    forall b | 0 <= b < |r| ensures v <= r[b] {
      assert r[b] in multiset(r);
      if r[b] != y {
        assert r[b] in multiset(xs);
        var c :| 0 <= c < |xs| && xs[c] == r[b];
      }
    }
  }

  /** Inserts x into a sorted sequence at its place. */
  function Insert(x: int, xs: seq<int>): (r: seq<int>)
    requires Sorted(xs)
    ensures Sorted(r)
    ensures multiset(r) == multiset(xs) + multiset{x}
  {
    if xs == [] then [x]
    else if x <= xs[0] then [x] + xs
    else
      var tail := xs[1..];
      var rest := Insert(x, tail);
      assert xs == [xs[0]] + tail;
      BoundedBelow(xs[0], tail, x, rest);
      [xs[0]] + rest
  }

  /** `sorted(ground)`: the labels in increasing order, each as often as it occurs. */
  function SortedLabels(ground: seq<int>): (r: seq<int>)
    ensures Sorted(r)
    ensures multiset(r) == multiset(ground)
  {
    if ground == [] then []
    else
      assert ground == [ground[0]] + ground[1..];
      Insert(ground[0], SortedLabels(ground[1..]))
  }

  /** The head of a nonempty sorted sequence is at most each of its elements. */
  lemma HeadIsLeast(xs: seq<int>, y: int)
    requires Sorted(xs) && xs != []
    requires y in multiset(xs)
    ensures xs[0] <= y
  {
    var a :| 0 <= a < |xs| && xs[a] == y;
  }

  /** Dropping the head keeps the sequence sorted and removes one copy of the head from the multiset. */
  lemma DropHead(xs: seq<int>)
    requires Sorted(xs) && xs != []
    ensures Sorted(xs[1..])
    ensures multiset(xs[1..]) == multiset(xs) - multiset{xs[0]}
  {
    assert xs == [xs[0]] + xs[1..];
  }

  /** A sorted sequence is determined by the multiset of its elements. */
  lemma {:induction false} SortedUnique(xs: seq<int>, ys: seq<int>)
    requires Sorted(xs) && Sorted(ys)
    requires multiset(xs) == multiset(ys)
    ensures xs == ys
    decreases |xs|
  {
    assert |xs| == |multiset(xs)| == |multiset(ys)| == |ys|;
    if xs != [] {
      HeadIsLeast(xs, ys[0]);
      HeadIsLeast(ys, xs[0]);
      assert xs[0] == ys[0];
      DropHead(xs);
      DropHead(ys);
      SortedUnique(xs[1..], ys[1..]);
      assert xs == [xs[0]] + xs[1..] && ys == [ys[0]] + ys[1..];
    }
  }

  /**
   * `ordering = sorted(M.groundset())` when no ordering is given, then
   * `tuple(ordering)`: the ordering that the algebra is built with.
   */
  function NormaliseOrdering(ground: seq<int>, ordering: Option<seq<int>>): (r: seq<int>)
    ensures ordering.Some? ==> r == ordering.value
    ensures ordering.None? ==> Sorted(r) && multiset(r) == multiset(ground)
  {
    match ordering
    case None => SortedLabels(ground)
    case Some(o) => o
  }

  /**
   * Passing the sorted ground set explicitly gives the same ordering, hence the
   * same algebra, as passing no ordering at all.
   */
  lemma DefaultOrderingIsSorted(ground: seq<int>, o: seq<int>)
    requires Sorted(o)
    requires multiset(o) == multiset(ground)
    ensures NormaliseOrdering(ground, Some(o)) == NormaliseOrdering(ground, None)
  {
    SortedUnique(o, SortedLabels(ground));
  }

  /** `{x: i for i, x in enumerate(ordering)}`: the rank map of an ordering. */
  function RankMap(o: seq<int>): (r: map<int, nat>)
    ensures forall x :: x in r <==> x in o
    ensures forall x :: x in r ==> r[x] < |o| && o[r[x]] == x
    ensures forall x, j :: x in r && r[x] < j < |o| ==> o[j] != x
  {
    if |o| == 0 then map[]
    else
      var r := RankMap(o[..|o| - 1]);
      RankMapStep(o, o[..|o| - 1], r);
      r[o[|o| - 1] := |o| - 1]
  }

  /** The last position of `o` extends the rank map of the rest: the comprehension's last write wins. */
  lemma RankMapStep(o: seq<int>, prefix: seq<int>, r: map<int, nat>)
    requires o != [] && prefix == o[..|o| - 1]
    requires forall x :: x in r <==> x in prefix
    requires forall x :: x in r ==> r[x] < |prefix| && prefix[r[x]] == x
    requires forall x, j :: x in r && r[x] < j < |prefix| ==> prefix[j] != x
    ensures var r' := r[o[|o| - 1] := |o| - 1];
            && (forall x :: x in r' <==> x in o)
            && (forall x :: x in r' ==> r'[x] < |o| && o[r'[x]] == x)
            && (forall x, j :: x in r' && r'[x] < j < |o| ==> o[j] != x)
  {
    var last := |o| - 1;
    forall x | x in o ensures x in prefix || x == o[last] {
      var a :| 0 <= a < |o| && o[a] == x;
      if a < last {
        assert prefix[a] == x;
      }
    }
  }

  predicate Distinct(o: seq<int>)
  {
    forall a, b :: 0 <= a < b < |o| ==> o[a] != o[b]
  }

  /** With no label repeated, the rank of the label at position a is a. */
  lemma RankOfPosition(o: seq<int>, a: nat)
    requires Distinct(o)
    requires a < |o|
    ensures o[a] in RankMap(o) && RankMap(o)[o[a]] == a
  {
    assert o[a] in o;
  }

  /** In a sorted sequence, a smaller value sits at an earlier position. */
  lemma SortedPositions(o: seq<int>, a: nat, b: nat)
    requires Sorted(o)
    requires a < |o| && b < |o|
    requires o[a] < o[b]
    ensures a < b
  {
  }

  /** For the default ordering, the rank order agrees with the order of the labels. */
  lemma DefaultRanksMonotone(ground: seq<int>, x: int, y: int)
    requires x in ground && y in ground
    requires x < y
    ensures x in RankMap(NormaliseOrdering(ground, None))
    ensures y in RankMap(NormaliseOrdering(ground, None))
    ensures RankMap(NormaliseOrdering(ground, None))[x] < RankMap(NormaliseOrdering(ground, None))[y]
  {
    var o := NormaliseOrdering(ground, None);
    assert x in multiset(o) && y in multiset(o);
    var r := RankMap(o);
    assert x in o && y in o;
    var a, b := r[x], r[y];
    assert o[a] == x && o[b] == y;
    SortedPositions(o, a, b);
  }
}

/**
 * The link between labels and ranks: a circuit of labels, sorted by the rank
 * map as `__init__` does, against the rank-based broken-circuit table.
 */
module LabelRanks {
  import opened FreeModule
  import opened BrokenCircuits
  import opened Ordering

  /** The ranks of a set of labels: how a label circuit is seen by the rank-based table. */
  function RankImage(c: set<int>, rank: map<int, nat>): (rc: Subset)
    requires forall x :: x in c ==> x in rank
    ensures forall x :: x in c ==> rank[x] in rc
    ensures forall r :: r in rc ==> exists x :: x in c && rank[x] == r
  {
    set x | x in c :: rank[x]
  }

  /**
   * Sorting a label circuit by `key=rank` agrees with the rank-based table:
   * the label `L[0]` is the label at the least rank of the circuit's ranks,
   * it ranks at or below every label of the circuit, and the ranks of the
   * remaining labels `L[1:]` are the broken circuit of the circuit's ranks.
   */
  lemma LabelCircuitByRank(o: seq<int>, c: set<int>)
    requires c != {} && forall x :: x in c ==> x in o
    ensures forall x :: x in c ==> x in RankMap(o)
    ensures InGround(RankImage(c, RankMap(o)), |o|) && RankImage(c, RankMap(o)) != {}
    ensures var m := Least(RankImage(c, RankMap(o)), |o|);
            && o[m] in c
            && RankMap(o)[o[m]] == m
            && (forall y :: y in c ==> RankMap(o)[o[m]] <= RankMap(o)[y])
            && RankImage(c - {o[m]}, RankMap(o)) == Broken(RankImage(c, RankMap(o)), |o|)
  {
    var rank := RankMap(o);
    assert forall x :: x in c ==> x in rank && rank[x] < |o| && o[rank[x]] == x;
    RanksOfCircuit(o, rank, c);
  }

  /** The same fact for any map that sends each label to a position holding it. */
  lemma RanksOfCircuit(o: seq<int>, rank: map<int, nat>, c: set<int>)
    requires c != {}
    requires forall x :: x in c ==> x in rank && rank[x] < |o| && o[rank[x]] == x
    ensures InGround(RankImage(c, rank), |o|) && RankImage(c, rank) != {}
    ensures var m := Least(RankImage(c, rank), |o|);
            && o[m] in c
            && rank[o[m]] == m
            && (forall y :: y in c ==> rank[o[m]] <= rank[y])
            && RankImage(c - {o[m]}, rank) == Broken(RankImage(c, rank), |o|)
  {
    var rc := RankImage(c, rank);
    var x0 :| x0 in c;
    assert rank[x0] in rc;
    var m := Least(rc, |o|);
    var x :| x in c && rank[x] == m;
    assert o[m] == x;
    var lhs := RankImage(c - {x}, rank);
    var rhs := Broken(rc, |o|);
    forall r | r in lhs ensures r in rhs {
      var y :| y in c - {x} && rank[y] == r;
      assert o[rank[y]] == y;
    }
    forall r | r in rhs ensures r in lhs {
      var y :| y in c && rank[y] == r;
      assert y in c - {x};
    }
  }
}
