/** The bound that the merges give on every other code: on its cost, and on its longest code if it
    costs no more; and a code that meets the bound. */
module HuffBound {
  import opened Arith
  import opened Canonical
  import opened HuffHeap
  import opened HuffHeight
  import opened HuffOptimal
  import opened HuffTree

  /** The nodes on the heap after `i` of the merges recorded in `rem`. */
  ghost predicate OnHeap(elems: nat, i: nat, rem: seq<nat>, leaves: set<nat>, x: nat)
    requires 2 * i <= |rem|
  {
    IsNode(elems, i, leaves, x) && x !in rem[..2 * i]
  }

  ghost function HeapWeights(t: seq<CtData>, elems: nat, i: nat, rem: seq<nat>, leaves: set<nat>): (w: seq<nat>)
    requires 2 * i <= |rem|
    ensures |w| == |t| && forall x :: 0 <= x < |w| ==> w[x] == if OnHeap(elems, i, rem, leaves, x) then t[x].fc else 0
  {
    seq(|t|, x requires 0 <= x < |t| => if OnHeap(elems, i, rem, leaves, x) then t[x].fc else 0)
  }

  ghost function HeapUsed(size: nat, elems: nat, i: nat, rem: seq<nat>, leaves: set<nat>): (u: seq<bool>)
    requires 2 * i <= |rem|
    ensures |u| == size && forall x :: 0 <= x < size ==> u[x] == OnHeap(elems, i, rem, leaves, x)
  {
    seq(size, x requires 0 <= x < size => OnHeap(elems, i, rem, leaves, x))
  }

  /** A finished tree: its root is `elems + k - 1`. */
  ghost predicate Tree(t: seq<CtData>, h: seq<nat>, elems: nat, k: nat, rem: seq<nat>, leaves: set<nat>) {
    && k >= 1 && |h| == |t|
    && Forest(t, elems, k, rem, {elems + k - 1}, leaves) && Ranked(t, h, elems, k, rem, {elems + k - 1}, leaves)
  }

  lemma TreeSizes(t: seq<CtData>, h: seq<nat>, elems: nat, k: nat, rem: seq<nat>, leaves: set<nat>)
    requires Tree(t, h, elems, k, rem, leaves)
    ensures k >= 1 && |h| == |t| && |rem| == 2 * k && elems + k <= |t| && forall j :: 0 <= j < |rem| ==> rem[j] < |t|
  {
    hide Ranked, Partition, Fathers, ByFreq;
  }

  /** The sons of internal node `i`. */
  lemma SonsOf(t: seq<CtData>, h: seq<nat>, elems: nat, k: nat, rem: seq<nat>, leaves: set<nat>, i: nat)
    requires Tree(t, h, elems, k, rem, leaves) && i < k
    ensures |rem| == 2 * k && elems + k <= |t| == |h| && rem[2 * i] < |t| && rem[2 * i + 1] < |t|
    ensures t[elems + i].fc == t[rem[2 * i]].fc + t[rem[2 * i + 1]].fc
            && Above(h, rem[2 * i], rem[2 * i + 1], elems + i)
  {
    hide Partition, Fathers, ByFreq, ByRank, Heavy;
    assert SonsSum(t, elems, rem, i);
  }

  /** Who enters and who leaves the heap in merge `i`. */
  lemma OnHeapStep(t: seq<CtData>, h: seq<nat>, elems: nat, k: nat, rem: seq<nat>, leaves: set<nat>, i: nat, x: nat)
    requires Tree(t, h, elems, k, rem, leaves) && i < k && x < |t|
    ensures var n, m, node := rem[2 * i], rem[2 * i + 1], elems + i;
            && OnHeap(elems, i, rem, leaves, n) && OnHeap(elems, i, rem, leaves, m)
            && !OnHeap(elems, i, rem, leaves, node) && n != m && n != node && m != node && n < |t| && m < |t|
            && (OnHeap(elems, i + 1, rem, leaves, x) <==>
                  x == node || (OnHeap(elems, i, rem, leaves, x) && x != n && x != m))
  {
    hide Ranked;
    var n, m, node := rem[2 * i], rem[2 * i + 1], elems + i;
    assert IsNode(elems, k, leaves, n) && IsNode(elems, k, leaves, m);
    assert rem[..2 * (i + 1)] == rem[..2 * i] + [n, m];
    assert n !in rem[..2 * i] && m !in rem[..2 * i];
    var pre := rem[..2 * i + 2];
    forall j | 0 <= j < |pre| ensures pre[j] != node { assert rem[j] != node; }
  }

  /** The merged nodes are the two least on the heap. */
  lemma MergedAreLeast(t: seq<CtData>, h: seq<nat>, elems: nat, k: nat, rem: seq<nat>, leaves: set<nat>, i: nat)
    requires Tree(t, h, elems, k, rem, leaves) && i < k
    ensures Least(HeapWeights(t, elems, i, rem, leaves), h, HeapUsed(|t|, elems, i, rem, leaves), rem[2 * i],
                  rem[2 * i + 1])
  {
    hide Heavy, Heights, Fathers, FatherSums, ByFreq;
    var n, m, w := rem[2 * i], rem[2 * i + 1], HeapWeights(t, elems, i, rem, leaves);
    OnHeapStep(t, h, elems, k, rem, leaves, i, n);
    assert Smaller(t, h, n, m);
    forall x | 0 <= x < |t| && OnHeap(elems, i, rem, leaves, x) && x != n ensures Ranks(w, h, m, x) {
      assert IsNode(elems, k, leaves, x);
      if x != m {
        assert x in rem;
        var j :| 0 <= j < |rem| && rem[j] == x;
        assert forall g :: 0 <= g < 2 * i ==> rem[g] in rem[..2 * i];
        assert Smaller(t, h, m, rem[j]);
      }
    }
  }

  lemma HeapWeightsStep(t: seq<CtData>, h: seq<nat>, elems: nat, k: nat, rem: seq<nat>, leaves: set<nat>, i: nat)
    requires Tree(t, h, elems, k, rem, leaves) && i < k
    ensures HeapWeights(t, elems, i + 1, rem, leaves) ==
            MergedWeights(HeapWeights(t, elems, i, rem, leaves), rem[2 * i], rem[2 * i + 1], elems + i)
  {
    hide Tree, OnHeap;
    TreeSizes(t, h, elems, k, rem, leaves);
    SonsOf(t, h, elems, k, rem, leaves, i);
    var w := HeapWeights(t, elems, i + 1, rem, leaves);
    var v := MergedWeights(HeapWeights(t, elems, i, rem, leaves), rem[2 * i], rem[2 * i + 1], elems + i);
    forall x | 0 <= x < |t| ensures w[x] == v[x] {
      OnHeapStep(t, h, elems, k, rem, leaves, i, x);
    }
  }

  lemma HeapUsedStep(t: seq<CtData>, h: seq<nat>, elems: nat, k: nat, rem: seq<nat>, leaves: set<nat>, i: nat)
    requires Tree(t, h, elems, k, rem, leaves) && i < k
    ensures HeapUsed(|t|, elems, i + 1, rem, leaves) ==
            MergedUsed(HeapUsed(|t|, elems, i, rem, leaves), rem[2 * i], rem[2 * i + 1], elems + i)
  {
    hide Tree, OnHeap;
    TreeSizes(t, h, elems, k, rem, leaves);
    var u := HeapUsed(|t|, elems, i + 1, rem, leaves);
    var v := MergedUsed(HeapUsed(|t|, elems, i, rem, leaves), rem[2 * i], rem[2 * i + 1], elems + i);
    forall x | 0 <= x < |t| ensures u[x] == v[x] {
      OnHeapStep(t, h, elems, k, rem, leaves, i, x);
    }
  }

  lemma MergeBound(t: seq<CtData>, h: seq<nat>, elems: nat, k: nat, rem: seq<nat>, leaves: set<nat>, i: nat, c: nat,
                   top: nat)
    requires Tree(t, h, elems, k, rem, leaves) && i < k
    requires LowerBound(HeapWeights(t, elems, i + 1, rem, leaves), h, HeapUsed(|t|, elems, i + 1, rem, leaves), c, top)
    requires Reached(HeapWeights(t, elems, i + 1, rem, leaves), h, HeapUsed(|t|, elems, i + 1, rem, leaves), c, top)
    ensures LowerBound(HeapWeights(t, elems, i, rem, leaves), h, HeapUsed(|t|, elems, i, rem, leaves),
                       c + t[elems + i].fc, top)
    ensures Reached(HeapWeights(t, elems, i, rem, leaves), h, HeapUsed(|t|, elems, i, rem, leaves),
                    c + t[elems + i].fc, top)
  {
    hide LowerBound, Reached, Least, MergedWeights, MergedUsed, Tree, OnHeap, Above;
    TreeSizes(t, h, elems, k, rem, leaves);
    SonsOf(t, h, elems, k, rem, leaves, i);
    var n, m, node := rem[2 * i], rem[2 * i + 1], elems + i;
    var w, u := HeapWeights(t, elems, i, rem, leaves), HeapUsed(|t|, elems, i, rem, leaves);
    HeapWeightsStep(t, h, elems, k, rem, leaves, i);
    HeapUsedStep(t, h, elems, k, rem, leaves, i);
    MergedAreLeast(t, h, elems, k, rem, leaves, i);
    OnHeapStep(t, h, elems, k, rem, leaves, i, 0);
    assert t[node].fc == w[n] + w[m];
    MergeStep(w, h, u, n, m, node, HeapWeights(t, elems, i + 1, rem, leaves), HeapUsed(|t|, elems, i + 1, rem, leaves),
              c, top);
    SplitStep(w, h, u, n, m, node, HeapWeights(t, elems, i + 1, rem, leaves), HeapUsed(|t|, elems, i + 1, rem, leaves),
              c, top);
  }

  /** Only the root is left: nothing to pay, and the tree below it is as high as it is. */
  lemma RootBound(t: seq<CtData>, h: seq<nat>, elems: nat, k: nat, rem: seq<nat>, leaves: set<nat>)
    requires Tree(t, h, elems, k, rem, leaves)
    ensures var w, u, root := HeapWeights(t, elems, k, rem, leaves), HeapUsed(|t|, elems, k, rem, leaves),
              elems + k - 1; LowerBound(w, h, u, 0, h[root]) && Reached(w, h, u, 0, h[root])
  {
    hide Dot, Heavy, Heights, ByRank, Fathers, FatherSums, ByFreq;
    var w, u, root := HeapWeights(t, elems, k, rem, leaves), HeapUsed(|t|, elems, k, rem, leaves), elems + k - 1;
    assert rem[..2 * k] == rem;
    forall x: nat | x < |t| ensures u[x] == (x == root) {
      assert IsNode(elems, k, leaves, x) ==> x == root || x in rem;
      assert IsNode(elems, k, leaves, root);
    }
    var z: seq<nat> := seq(|t|, _ => 0);
    DotZero(w, z);
    OneCode(u, z, root);
    assert Feasible(u, z, 0) && Dot(w, z) == 0 && Under(h, u, z, h[root] + 1);
  }

  lemma {:induction false} OneCode(u: seq<bool>, z: seq<nat>, root: nat)
    requires |u| == |z| && root < |u| && (forall x :: 0 <= x < |u| ==> z[x] == 0 && u[x] == (x == root))
    ensures Kraft(u, z, 0) == 1
  {
    KraftDrop(u, z, 0, root);
    KraftNone(u[root := false], z, 0);
  }

  /** No code for the nodes on the heap after `i` merges beats the remaining merges, and one is as good. */
  lemma {:induction false} ForestBound(t: seq<CtData>, h: seq<nat>, elems: nat, k: nat, rem: seq<nat>,
                                       leaves: set<nat>, i: nat, c: nat)
    requires Tree(t, h, elems, k, rem, leaves) && i <= k && c + Merged(t, elems, i) == Merged(t, elems, k)
    ensures LowerBound(HeapWeights(t, elems, i, rem, leaves), h, HeapUsed(|t|, elems, i, rem, leaves), c,
                       h[elems + k - 1])
    ensures Reached(HeapWeights(t, elems, i, rem, leaves), h, HeapUsed(|t|, elems, i, rem, leaves), c, h[elems + k - 1])
    decreases k - i
  {
    hide LowerBound, Reached, Tree, OnHeap;
    TreeSizes(t, h, elems, k, rem, leaves);
    if i < k {
      MergedMono(t, elems, i + 1, k);
      var c' := Merged(t, elems, k) - Merged(t, elems, i + 1);
      ForestBound(t, h, elems, k, rem, leaves, i + 1, c');
      MergeBound(t, h, elems, k, rem, leaves, i, c', h[elems + k - 1]);
    } else {
      RootBound(t, h, elems, k, rem, leaves);
    }
  }
}
