/** The shape of the Huffman tree that the merge loop of `build_tree` leaves behind, and
    the bound it gives on every other code. */
module HuffTree {
  import opened Arith
  import opened Canonical
  import opened HuffMerge
  import opened HuffOptimal

  /** After `k` merges: `rem` lists the nodes taken off the heap, two by two, `act` those
      still on it. The sons `rem[2u]` and `rem[2u + 1]` have the father `elems + u`. */
  ghost predicate Forest(t: seq<CtData>, elems: nat, k: nat, rem: seq<nat>, act: set<nat>, leaves: set<nat>) {
    && |rem| == 2 * k && elems + k <= |t|
    && Partition(elems, k, rem, act, leaves) && ByFreq(t, rem, act)
    && Fathers(t, elems, rem) && FatherSums(t, elems, k, rem)
  }

  /** Sons point to their father, and a father leaves the heap after its sons. */
  ghost predicate Fathers(t: seq<CtData>, elems: nat, rem: seq<nat>) {
    forall j :: 0 <= j < |rem| ==>
      rem[j] < |t| && t[rem[j]].dl == elems + j / 2 && (elems <= rem[j] ==> 2 * (rem[j] - elems) + 1 < j)
  }

  ghost predicate FatherSums(t: seq<CtData>, elems: nat, k: nat, rem: seq<nat>) {
    && |rem| == 2 * k && elems + k <= |t| && (forall j :: 0 <= j < |rem| ==> rem[j] < |t|)
    && forall u :: 0 <= u < k ==> SonsSum(t, elems, rem, u)
  }

  ghost predicate SonsSum(t: seq<CtData>, elems: nat, rem: seq<nat>, u: nat)
    requires 2 * u + 1 < |rem| && elems + u < |t| && rem[2 * u] < |t| && rem[2 * u + 1] < |t|
  {
    t[elems + u].fc == t[rem[2 * u]].fc + t[rem[2 * u + 1]].fc
  }

  ghost predicate IsNode(elems: nat, k: nat, leaves: set<nat>, x: nat) {
    x in leaves || elems <= x < elems + k
  }

  /** Every node is on the heap or was taken off it, once. */
  ghost predicate Partition(elems: nat, k: nat, rem: seq<nat>, act: set<nat>, leaves: set<nat>) {
    && (forall x :: x in leaves ==> x < elems)
    && (forall j :: 0 <= j < |rem| ==> rem[j] !in act && IsNode(elems, k, leaves, rem[j]))
    && (forall x :: x in act ==> IsNode(elems, k, leaves, x))
    && (forall i, j :: 0 <= i < j < |rem| ==> rem[i] != rem[j])
    && (forall x :: IsNode(elems, k, leaves, x) ==> x in act || x in rem)
  }

  /** Nodes leave the heap in the order of their frequencies. */
  ghost predicate ByFreq(t: seq<CtData>, rem: seq<nat>, act: set<nat>) {
    && (forall j :: 0 <= j < |rem| ==> rem[j] < |t|)
    && (forall x :: x in act ==> x < |t|)
    && (forall i, j :: 0 <= i < j < |rem| ==> t[rem[i]].fc <= t[rem[j]].fc)
    && (forall j, x :: 0 <= j < |rem| && x in act ==> t[rem[j]].fc <= t[x].fc)
  }

  lemma PartitionStep(elems: nat, k: nat, rem: seq<nat>, act: set<nat>, leaves: set<nat>, n: nat, m: nat)
    requires Partition(elems, k, rem, act, leaves) && n in act && m in act && n != m
    ensures Partition(elems, k + 1, rem + [n, m], act - {n, m} + {elems + k}, leaves)
  {
    var r, a := rem + [n, m], act - {n, m} + {elems + k};
    assert !IsNode(elems, k, leaves, elems + k);
    assert r[|rem|] == n && r[|rem| + 1] == m;
    forall x | IsNode(elems, k + 1, leaves, x) ensures x in a || x in r {
      if x != elems + k {
        assert IsNode(elems, k, leaves, x);
        if x in rem {
          var j :| 0 <= j < |rem| && rem[j] == x;
          assert r[j] == x;
        }
      }
    }
    forall j | 0 <= j < |r| ensures r[j] !in a && IsNode(elems, k + 1, leaves, r[j]) {
      if j < |rem| { assert r[j] == rem[j] && IsNode(elems, k, leaves, rem[j]); }
    }
    forall x | x in a ensures IsNode(elems, k + 1, leaves, x) {
      if x in act { assert IsNode(elems, k, leaves, x); }
    }
  }

  lemma ByFreqStep(t0: seq<CtData>, d0: seq<nat>, t: seq<CtData>, rem: seq<nat>, act: set<nat>, n: nat, m: nat,
                   node: nat)
    requires ByFreq(t0, rem, act) && TwoLeast(t0, d0, act, n, m) && Linked(t0, t, n, m, node)
    requires node !in act && node !in rem
    ensures ByFreq(t, rem + [n, m], act - {n, m} + {node})
  {
    var r := rem + [n, m];
    assert forall x :: x in act || x in rem ==> x < |t| ==> t[x].fc == t0[x].fc;
    forall j | 0 <= j < |rem| ensures r[j] == rem[j] && rem[j] in rem {}
  }

  lemma FathersStep(t0: seq<CtData>, t: seq<CtData>, elems: nat, k: nat, rem: seq<nat>, n: nat, m: nat)
    requires Fathers(t0, elems, rem) && |rem| == 2 * k && Linked(t0, t, n, m, elems + k)
    requires n !in rem && m !in rem && elems + k !in rem && n < elems + k && m < elems + k
    ensures Fathers(t, elems, rem + [n, m])
  {
    var r := rem + [n, m];
    forall j | 0 <= j < |r|
      ensures r[j] < |t| && t[r[j]].dl == elems + j / 2 && (elems <= r[j] ==> 2 * (r[j] - elems) + 1 < j)
    {
      if j < |rem| { assert r[j] == rem[j] && rem[j] in rem; }
    }
  }

  lemma FatherSumsStep(t0: seq<CtData>, t: seq<CtData>, elems: nat, k: nat, rem: seq<nat>, n: nat, m: nat)
    requires FatherSums(t0, elems, k, rem) && Linked(t0, t, n, m, elems + k) && elems + k !in rem
    requires n < elems + k && m < elems + k
    ensures FatherSums(t, elems, k + 1, rem + [n, m])
  {
    var r, node := rem + [n, m], elems + k;
    assert forall x :: 0 <= x < |t| && x != node ==> t[x].fc == t0[x].fc;
    forall j | 0 <= j < |r| ensures r[j] < |t| {
      if j < |rem| { assert r[j] == rem[j]; }
    }
    forall u | 0 <= u < k + 1 ensures SonsSum(t, elems, r, u) {
      if u < k {
        assert SonsSum(t0, elems, rem, u);
        assert r[2 * u] == rem[2 * u] && r[2 * u + 1] == rem[2 * u + 1];
        assert rem[2 * u] in rem && rem[2 * u + 1] in rem;
      } else {
        assert r[2 * u] == n && r[2 * u + 1] == m;
      }
    }
  }

  lemma ForestStep(t0: seq<CtData>, d0: seq<nat>, t: seq<CtData>, elems: nat, k: nat, rem: seq<nat>, act: set<nat>,
                   leaves: set<nat>, n: nat, m: nat)
    requires Forest(t0, elems, k, rem, act, leaves) && TwoLeast(t0, d0, act, n, m) && elems + k < |t0|
    requires Linked(t0, t, n, m, elems + k)
    ensures Forest(t, elems, k + 1, rem + [n, m], act - {n, m} + {elems + k}, leaves)
  {
    var node := elems + k;
    assert !IsNode(elems, k, leaves, node);
    assert IsNode(elems, k, leaves, n) && IsNode(elems, k, leaves, m);
    assert node !in rem && n !in rem && m !in rem;
    PartitionStep(elems, k, rem, act, leaves, n, m);
    ByFreqStep(t0, d0, t, rem, act, n, m, node);
    FathersStep(t0, t, elems, k, rem, n, m);
    FatherSumsStep(t0, t, elems, k, rem, n, m);
  }

  // ----- weights and the lower bound -----

  ghost function Weights(t: seq<CtData>, act: set<nat>): (w: seq<nat>)
    ensures |w| == |t| && forall x :: 0 <= x < |w| ==> w[x] == if x in act then t[x].fc else 0
  {
    seq(|t|, x requires 0 <= x < |t| => if x in act then t[x].fc else 0)
  }

  /** The frequencies of the first `k` internal nodes, added up. */
  ghost function Merged(t: seq<CtData>, elems: nat, k: nat): (c: nat)
    requires elems + k <= |t|
  {
    if k == 0 then 0 else Merged(t, elems, k - 1) + t[elems + k - 1].fc
  }

  lemma {:induction false} MergedFrame(t0: seq<CtData>, t: seq<CtData>, elems: nat, k: nat)
    requires elems + k <= |t0| && elems + k <= |t|
    requires forall x :: elems <= x < elems + k ==> t[x].fc == t0[x].fc
    ensures Merged(t, elems, k) == Merged(t0, elems, k)
  {
    if k > 0 { MergedFrame(t0, t, elems, k - 1); }
  }

  lemma WeightsStep(t0: seq<CtData>, d0: seq<nat>, t: seq<CtData>, act: set<nat>, n: nat, m: nat, node: nat)
    requires TwoLeast(t0, d0, act, n, m) && Linked(t0, t, n, m, node) && node !in act
    ensures Weights(t, act - {n, m} + {node}) == MergedWeights(Weights(t0, act), n, m, node)
  {
    var w, v := Weights(t, act - {n, m} + {node}), Weights(t0, act);
    var r := MergedWeights(v, n, m, node);
    forall x | 0 <= x < |w| ensures w[x] == r[x] {
      if x != node && x != n && x != m { assert r[x] == v[x] && t[x] == t0[x]; }
    }
  }

  lemma MergedSum(w: seq<nat>, n: nat, m: nat, node: nat)
    requires n < |w| && m < |w| && node < |w| && n != m && node != n && node != m && w[node] == 0
    ensures Sum(MergedWeights(w, n, m, node)) == Sum(w)
  {
    hide Sum;
    var w1 := w[n := 0];
    var w2 := w1[m := 0];
    assert w1[m] == w[m] && w2[node] == 0;
    SumUpdate(w, n, 0);
    SumUpdate(w1, m, 0);
    SumUpdate(w2, node, w[n] + w[m]);
  }

  /** Merging moves weight, it does not create any. */
  lemma WeightStep(t0: seq<CtData>, d0: seq<nat>, t: seq<CtData>, act: set<nat>, n: nat, m: nat, node: nat)
    requires TwoLeast(t0, d0, act, n, m) && Linked(t0, t, n, m, node) && node !in act
    ensures Sum(Weights(t, act - {n, m} + {node})) == Sum(Weights(t0, act))
  {
    WeightsStep(t0, d0, t, act, n, m, node);
    MergedSum(Weights(t0, act), n, m, node);
  }

  /** No two nodes on the heap together overflow a 16-bit frequency. */
  lemma PairBound(t: seq<CtData>, act: set<nat>, x: nat, y: nat)
    requires x in act && y in act && x != y && x < |t| && y < |t|
    ensures t[x].fc + t[y].fc <= Sum(Weights(t, act))
  {
    var w := Weights(t, act);
    SumUpdate(w, x, 0);
    SumTerm(w[x := 0], y);
  }

  lemma {:induction false} MergedMono(t: seq<CtData>, elems: nat, i: nat, k: nat)
    requires i <= k && elems + k <= |t|
    ensures Merged(t, elems, i) <= Merged(t, elems, k)
    decreases k - i
  {
    if i < k { MergedMono(t, elems, i, k - 1); }
  }
}
