/** `build_tree`: the Huffman tree of a set of frequencies, its code lengths and its codes. */
module BuildTree {
  import opened Arith
  import opened BitlenState
  import opened Canonical
  import opened GenBitlen
  import opened HuffBound
  import opened HuffHeap
  import opened HuffHeight
  import opened HuffInit
  import opened HuffLens
  import opened HuffMerge
  import opened HuffOptimal
  import opened HuffResult
  import opened HuffTree
  import opened Symbols

  lemma LeavesNodes(heap: seq<nat>, len: nat, act: set<nat>, tree: seq<CtData>, depth: seq<nat>, elems: nat)
    requires Lists(heap, len, act) && elems <= |tree| <= |depth| && forall x :: x in act ==> x < elems
    ensures Nodes(heap, len, tree, depth)
  {
    forall i | 1 <= i <= len ensures heap[i] < |tree| { ListsMember(heap, len, act, i); }
  }

  lemma HalfHeap(heap: seq<nat>, len: nat, tree: seq<CtData>, depth: seq<nat>)
    requires Nodes(heap, len, tree, depth)
    ensures HeapFrom(heap, len, tree, depth, len / 2 + 1)
  {
  }

  lemma ListsPermuted(h0: seq<nat>, h: seq<nat>, k: nat, len: nat, act: set<nat>)
    requires Lists(h0, len, act) && Permuted(h0, h, k, len + 1) && 1 <= k <= len
    ensures Lists(h, len, act)
  {
    PartPermuted(h0, h, 1, len + 1);
  }

  lemma ListsHeap(heap: seq<nat>, len: nat, tree: seq<CtData>, depth: seq<nat>, act: set<nat>)
    requires Lists(heap, len, act) && Nodes(heap, len, tree, depth) && HeapFrom(heap, len, tree, depth, 1)
    ensures HeapOf(heap, len, tree, depth, act)
  {
  }

  /** The elements of the heap are put in heap order, sub-heap by sub-heap. */
  method Heapify(heap: array<nat>, heapLen: nat, tree: array<CtData>, depth: array<nat>, ghost act: set<nat>)
    requires heap != depth && 2 <= heapLen
    requires Lists(heap[..], heapLen, act) && Nodes(heap[..], heapLen, tree[..], depth[..])
    modifies heap
    ensures HeapOf(heap[..], heapLen, tree[..], depth[..], act)
  {
    hide Lists, Nodes, HeapFrom, Permuted;
    ghost var tr, dp := tree[..], depth[..];
    HalfHeap(heap[..], heapLen, tr, dp);
    var n := heapLen / 2;
    while n >= 1
      invariant 0 <= n <= heapLen / 2
      invariant Lists(heap[..], heapLen, act) && Nodes(heap[..], heapLen, tr, dp)
      invariant HeapFrom(heap[..], heapLen, tr, dp, n + 1)
    {
      ghost var h := heap[..];
      PqDownHeap(heap, heapLen, tree, depth, n);
      ListsPermuted(h, heap[..], n, heapLen, act);
      n := n - 1;
    }
    ListsHeap(heap[..], heapLen, tr, dp, act);
  }

  /** The nodes taken off the heap stand at the end of the heap array, last first. */
  ghost predicate AtEnd(heap: seq<nat>, rem: seq<nat>) {
    |heap| == HEAP_SIZE && |rem| <= HEAP_SIZE && forall j :: 0 <= j < |rem| ==> heap[HEAP_SIZE - 1 - j] == rem[j]
  }

  lemma AtEndStep(h0: seq<nat>, h: seq<nat>, rem: seq<nat>, n: nat, m: nat)
    requires AtEnd(h0, rem) && |h| == |h0| && |rem| + 2 <= HEAP_SIZE
    requires forall i :: HEAP_SIZE - |rem| <= i < HEAP_SIZE ==> h[i] == h0[i]
    requires h[HEAP_SIZE - |rem| - 1] == n && h[HEAP_SIZE - |rem| - 2] == m
    ensures AtEnd(h, rem + [n, m])
  {
    var r := rem + [n, m];
    forall j | 0 <= j < |r| ensures h[HEAP_SIZE - 1 - j] == r[j] {
      if j < |rem| { assert r[j] == rem[j]; }
    }
  }

  /** What the merge loop keeps about the tree: its leaves, the total weight. */
  ghost predicate Kept(t0: seq<CtData>, t: seq<CtData>, elems: nat, leaves: set<nat>, act: set<nat>) {
    && |t0| == |t| && elems <= |t|
    && (forall x :: 0 <= x < elems ==> t[x].fc == t0[x].fc && (x !in leaves ==> t[x] == t0[x]))
    && Sum(Weights(t, act)) == Sum(Weights(t0, leaves))
  }

  lemma MergedNodes(t: seq<CtData>, elems: nat, k: nat, rem: seq<nat>, leaves: set<nat>, act: set<nat>, n: nat, m: nat)
    requires Forest(t, elems, k, rem, act, leaves) && n in act && m in act
    ensures elems + k !in act && (n in leaves || elems <= n < elems + k) && (m in leaves || elems <= m < elems + k)
  {
    assert !IsNode(elems, k, leaves, elems + k);
    assert IsNode(elems, k, leaves, n) && IsNode(elems, k, leaves, m);
  }

  lemma KeptStep(t0: seq<CtData>, t: seq<CtData>, d: seq<nat>, t': seq<CtData>, elems: nat, k: nat, rem: seq<nat>,
                 leaves: set<nat>, act: set<nat>, n: nat, m: nat)
    requires Kept(t0, t, elems, leaves, act) && Forest(t, elems, k, rem, act, leaves)
    requires TwoLeast(t, d, act, n, m) && Linked(t, t', n, m, elems + k)
    ensures Kept(t0, t', elems, leaves, act - {n, m} + {elems + k})
  {
    hide Sum, Forest, Weights;
    var node := elems + k;
    MergedNodes(t, elems, k, rem, leaves, act, n, m);
    WeightStep(t, d, t', act, n, m, node);
  }

  lemma ForestStart(t: seq<CtData>, elems: nat, leaves: set<nat>)
    requires elems <= |t| && forall x :: x in leaves ==> x < elems
    ensures Forest(t, elems, 0, [], leaves, leaves) && Kept(t, t, elems, leaves, leaves)
  {
    forall x | IsNode(elems, 0, leaves, x) ensures x in leaves {}
  }

  /** No father of two nodes on the heap overflows its 16-bit frequency. */
  lemma NoOverflow(t0: seq<CtData>, t: seq<CtData>, elems: nat, k: nat, rem: seq<nat>, leaves: set<nat>, act: set<nat>)
    requires Kept(t0, t, elems, leaves, act) && Forest(t, elems, k, rem, act, leaves)
    requires Sum(Weights(t0, leaves)) < 65536
    ensures elems + k !in act
    ensures Light(t, act) && forall x :: x in act ==> x < |t| && t[x].fc < 65536
  {
    assert !IsNode(elems, k, leaves, elems + k);
    forall x, y | x in act && y in act && x != y ensures x < |t| && y < |t| && t[x].fc + t[y].fc < 65536 {
      PairBound(t, act, x, y);
    }
    forall x | x in act ensures x < |t| && t[x].fc < 65536 { SumTerm(Weights(t, act), x); }
  }

  /** The merge loop of `build_tree`. */
  method MergeAll(heap: array<nat>, heapLen0: nat, tree: array<CtData>, depth: array<nat>, elems: nat,
                  ghost leaves: set<nat>)
    returns (heapMax: nat, ghost k: nat, ghost rem: seq<nat>)
    requires heap != depth && heap.Length == HEAP_SIZE && 2 <= heapLen0 <= elems <= L_CODES
             && 2 * elems <= tree.Length <= depth.Length
    requires HeapOf(heap[..], heapLen0, tree[..], depth[..], leaves) && forall x :: x in leaves ==> x < elems
    requires Sum(Weights(tree[..], leaves)) < 65536 && Grounded(depth[..], leaves)
             && forall x :: x in leaves ==> tree[x].fc >= 1
    modifies heap, tree, depth
    ensures k == heapLen0 - 1 && heapMax == HEAP_SIZE - 2 * k && AtEnd(heap[..], rem)
    ensures heap[1] == elems + k - 1
    ensures elems + k <= tree.Length && Forest(tree[..], elems, k, rem, {elems + k - 1}, leaves)
    ensures Kept(old(tree[..]), tree[..], elems, leaves, {elems + k - 1})
    ensures Ranked(tree[..], depth[..], elems, k, rem, {elems + k - 1}, leaves)
  {
    hide Forest, Kept, HeapOf, AtEnd, TwoLeast, Linked, Sum, Weights, Light, Ranked, Deepened;
    ghost var t0, act := tree[..], leaves;
    heapMax, k, rem := HEAP_SIZE, 0, [];
    var heapLen, node := heapLen0, elems;
    ForestStart(t0, elems, leaves);
    RankedStart(t0, depth[..], elems, leaves);
    AtEndEmpty(heap[..]);
    while heapLen >= 2
      invariant 1 <= heapLen && heapLen == heapLen0 - k && node == elems + k && heapMax == HEAP_SIZE - 2 * k
                && |rem| == 2 * k
      invariant HeapOf(heap[..], heapLen, tree[..], depth[..], act)
      invariant AtEnd(heap[..], rem) && Forest(tree[..], elems, k, rem, act, leaves)
                && Kept(t0, tree[..], elems, leaves, act)
      invariant Ranked(tree[..], depth[..], elems, k, rem, act, leaves)
      invariant k > 0 ==> elems + k - 1 in act
      decreases heapLen
    {
      ghost var t, h, d := tree[..], heap[..], depth[..];
      NoOverflow(t0, t, elems, k, rem, leaves, act);
      var n, m := MergeOne(heap, heapLen, heapMax, tree, depth, node, act);
      MergedIn(t, d, act, n, m);
      ForestStep(t, d, tree[..], elems, k, rem, act, leaves, n, m);
      RankedStep(t, d, tree[..], depth[..], elems, k, rem, act, leaves, n, m);
      KeptStep(t0, t, d, tree[..], elems, k, rem, leaves, act, n, m);
      AtEndStep(h, heap[..], rem, n, m);
      act := act - {n, m} + {node};
      rem, k := rem + [n, m], k + 1;
      heapLen, heapMax, node := heapLen - 1, heapMax - 2, node + 1;
    }
    LastNode(heap[..], tree[..], depth[..], act, elems + k - 1);
  }

  lemma MergedIn(t: seq<CtData>, d: seq<nat>, act: set<nat>, n: nat, m: nat)
    requires TwoLeast(t, d, act, n, m)
    ensures n in act && m in act
  {
  }

  lemma AtEndEmpty(heap: seq<nat>)
    requires |heap| == HEAP_SIZE
    ensures AtEnd(heap, [])
  {
  }

  lemma LastNode(heap: seq<nat>, tree: seq<CtData>, depth: seq<nat>, act: set<nat>, x: nat)
    requires HeapOf(heap, 1, tree, depth, act) && x in act
    ensures act == {x} && |heap| > 1 && heap[1] == x
  {
    HeapCount(heap, 1, tree, depth, act);
    assert act - {x} == {} by { assert |act - {x}| == 0; }
    HeapMember(heap, 1, tree, depth, act, 1);
  }

  /** From the frequencies to the first heap. */
  method FirstHeap(d: Desc, tree: array<CtData>, heap: array<nat>, depth: array<nat>)
    returns (heapLen: nat, maxCode: nat, opt: int, stat: int, ghost f1: seq<nat>, ghost hs: seq<nat>)
    requires NoExtra(d) && heap != depth && heap.Length == HEAP_SIZE && d.elems <= L_CODES
    requires d.elems <= tree.Length <= depth.Length && Sum(Freqs(tree[..], d.elems)) + 2 < 65536
    modifies tree, heap, depth
    ensures maxCode < d.elems && f1 == Freqs(tree[..], d.elems) && IsMax(LeafSet(f1, d.elems), maxCode)
    ensures 2 <= heapLen <= d.elems && Lists(hs, heapLen, LeafSet(f1, d.elems))
    ensures Forced(old(Freqs(tree[..], d.elems)), f1, d.stree, heapLen, opt, stat)
            && Completed(old(Freqs(tree[..], d.elems)), f1)
    ensures HeapOf(heap[..], heapLen, tree[..], depth[..], LeafSet(f1, d.elems))
    ensures Sum(Weights(tree[..], LeafSet(f1, d.elems))) < 65536
            && forall x :: x in LeafSet(f1, d.elems) ==> x < d.elems
    ensures forall s :: 0 <= s < d.elems && f1[s] == 0 ==> tree[s].dl == 0
    ensures Grounded(depth[..], LeafSet(f1, d.elems)) && Sum(Weights(tree[..], LeafSet(f1, d.elems))) == Sum(f1)
  {
    hide Lists, IsMax, LeafSet, Forced, HeapOf, Nodes, Sum, Freqs, Weights, Grounded, Completed;
    ghost var f0 := Freqs(tree[..], d.elems);
    var max;
    heapLen, max := CollectLeaves(tree, d.elems, heap, depth);
    ghost var t0 := tree[..];
    heapLen, max, opt, stat := ForceCodes(tree, d.elems, heap, depth, heapLen, max, d.stree);
    hs, f1 := heap[..], Freqs(tree[..], d.elems);
    StartFacts(f0, f1, d.stree, heapLen, opt, stat, tree[..], hs, max);
    UnusedCleared(f0, f1, d.stree, heapLen, opt, stat, t0, tree[..]);
    LeavesNodes(hs, heapLen, LeafSet(f1, d.elems), tree[..], depth[..], d.elems);
    Heapify(heap, heapLen, tree, depth, LeafSet(f1, d.elems));
    maxCode := max;
  }

  lemma UnusedCleared(f0: seq<nat>, f1: seq<nat>, stree: seq<nat>, heapLen: nat, opt: int, stat: int, t0: seq<CtData>,
                      t: seq<CtData>)
    requires Forced(f0, f1, stree, heapLen, opt, stat) && |f0| <= |t0| == |t| && f0 == Freqs(t0, |f0|)
    requires forall s :: 0 <= s < |f0| && t0[s].fc == 0 ==> t0[s].dl == 0
    requires forall s :: 0 <= s < |t| ==> t[s].dl == t0[s].dl
    ensures forall s :: 0 <= s < |f1| && f1[s] == 0 ==> t[s].dl == 0
  {
  }

  /** The first half of `build_tree`: from the frequencies to the merged tree. */
  method MakeTree(d: Desc, tree: array<CtData>, heap: array<nat>, depth: array<nat>)
    returns (maxCode: nat, opt: int, stat: int, heapMax: nat, ghost f1: seq<nat>, ghost heapLen: nat,
             ghost hs: seq<nat>,
             ghost k: nat, ghost rem: seq<nat>, ghost h: seq<nat>)
    requires NoExtra(d) && heap != depth && heap.Length == HEAP_SIZE && d.elems <= L_CODES
    requires 2 * d.elems <= tree.Length <= depth.Length && Sum(Freqs(tree[..], d.elems)) + 2 < 65536
    modifies tree, heap, depth
    ensures maxCode < d.elems && |f1| == d.elems && IsMax(LeafSet(f1, d.elems), maxCode)
    ensures heapLen >= 2 && Lists(hs, heapLen, LeafSet(f1, d.elems))
    ensures Forced(old(Freqs(tree[..], d.elems)), f1, d.stree, heapLen, opt, stat)
            && Completed(old(Freqs(tree[..], d.elems)), f1)
    ensures 1 <= k < d.elems && heapMax == HEAP_SIZE - 1 - 2 * k && AtEnd(heap[..], rem)
            && heap[heapMax] == d.elems + k - 1
    ensures d.elems + k <= tree.Length && Tree(tree[..], h, d.elems, k, rem, LeafSet(f1, d.elems))
    ensures tree[d.elems + k - 1].fc == Sum(f1)
    ensures forall s :: 0 <= s < d.elems ==> tree[s].fc == f1[s] && (f1[s] == 0 ==> tree[s] == CtData(0, 0))
  {
    hide Lists, IsMax, LeafSet, Forced, Forest, Kept, AtEnd, HeapOf, Sum, Weights, Ranked, Grounded, Tree, Completed;
    var len;
    len, maxCode, opt, stat, f1, hs := FirstHeap(d, tree, heap, depth);
    heapLen := len;
    ghost var t1 := tree[..];
    LeavesInUse(f1, d.elems);
    heapMax, k, rem := MergeAll(heap, len, tree, depth, d.elems, LeafSet(f1, d.elems));
    h := depth[..][..tree.Length];
    IsTree(tree[..], depth[..], d.elems, k, rem, LeafSet(f1, d.elems));
    RootWeight(t1, tree[..], d.elems, k, LeafSet(f1, d.elems));
    KeptFacts(t1, tree[..], f1, {d.elems + k - 1});
    AtEndLength(heap[..], tree[..], rem, d.elems, k, LeafSet(f1, d.elems));
    heapMax := heapMax - 1;
    ghost var hp := heap[..];
    heap[heapMax] := heap[1];
    AtEndKept(hp, heap[..], rem, heapMax);
  }

  lemma LeavesInUse(fs: seq<nat>, elems: nat)
    requires elems == |fs|
    ensures forall x :: x in LeafSet(fs, elems) ==> x < elems && fs[x] >= 1
  {
  }

  /** The depths of the nodes of the tree; those behind it do not matter. */
  lemma IsTree(t: seq<CtData>, depth: seq<nat>, elems: nat, k: nat, rem: seq<nat>, leaves: set<nat>)
    requires k >= 1 && |t| <= |depth| && Forest(t, elems, k, rem, {elems + k - 1}, leaves)
    requires Ranked(t, depth, elems, k, rem, {elems + k - 1}, leaves)
    ensures Tree(t, depth[..|t|], elems, k, rem, leaves)
  {
    hide Fathers, ByFreq;
    var h, act := depth[..|t|], {elems + k - 1};
    forall j | 0 <= j < |rem| ensures rem[j] < |t| {}
    forall u | 0 <= u < k ensures Above(h, rem[2 * u], rem[2 * u + 1], elems + u) {
      assert Above(depth, rem[2 * u], rem[2 * u + 1], elems + u);
    }
    forall i, j | 0 <= i < j < |rem| ensures Smaller(t, h, rem[i], rem[j]) { assert Smaller(t, depth, rem[i], rem[j]); }
    forall j, x | 0 <= j < |rem| && x in act ensures Smaller(t, h, rem[j], x) { assert Smaller(t, depth, rem[j], x); }
    forall x: nat | IsNode(elems, k, leaves, x) ensures x < |t| && HeavyAt(t, h, x) { assert HeavyAt(t, depth, x); }
  }

  lemma RootWeight(t0: seq<CtData>, t: seq<CtData>, elems: nat, k: nat, leaves: set<nat>)
    requires k >= 1 && elems + k <= |t| && Kept(t0, t, elems, leaves, {elems + k - 1})
    ensures t[elems + k - 1].fc == Sum(Weights(t0, leaves))
  {
    var w, root := Weights(t, {elems + k - 1}), elems + k - 1;
    SumUpdate(w, root, 0);
    SumZero(w[root := 0]);
  }

  lemma StartFacts(f0: seq<nat>, f1: seq<nat>, stree: seq<nat>, heapLen: nat, opt: int, stat: int, t: seq<CtData>,
                   heap: seq<nat>, maxCode: int)
    requires Forced(f0, f1, stree, heapLen, opt, stat) && Sum(f0) + 2 < 65536 && |f1| <= |t| && f1 == Freqs(t, |f1|)
    requires Lists(heap, heapLen, LeafSet(f1, |f1|)) && heapLen >= 2 && IsMax(LeafSet(f1, |f1|), maxCode)
    ensures 0 <= maxCode < |f1| && Sum(Weights(t, LeafSet(f1, |f1|))) == Sum(f1) < 65536
    ensures forall x :: x in LeafSet(f1, |f1|) ==> x < |f1|
  {
    assert Sum(f1) <= Sum(f0) + 2;
    WeightsSum(t, f1);
    ListsMember(heap, heapLen, LeafSet(f1, |f1|), 1);
  }

  lemma KeptFacts(t0: seq<CtData>, t: seq<CtData>, fs: seq<nat>, act: set<nat>)
    requires Kept(t0, t, |fs|, LeafSet(fs, |fs|), act) && |fs| <= |t0| && fs == Freqs(t0, |fs|)
    requires forall s :: 0 <= s < |fs| && fs[s] == 0 ==> t0[s].dl == 0
    ensures |t| == |t0| && forall s :: 0 <= s < |fs| ==> t[s].fc == fs[s] && (fs[s] == 0 ==> t[s] == CtData(0, 0))
  {
  }

  lemma AtEndLength(heap: seq<nat>, t: seq<CtData>, rem: seq<nat>, elems: nat, k: nat, leaves: set<nat>)
    requires k >= 1 && AtEnd(heap, rem) && Forest(t, elems, k, rem, {elems + k - 1}, leaves)
    ensures |rem| == 2 * k
  {
  }

  lemma AtEndKept(h0: seq<nat>, h: seq<nat>, rem: seq<nat>, i: nat)
    requires AtEnd(h0, rem) && |h| == |h0| && i < HEAP_SIZE - |rem|
    requires forall j :: 0 <= j < |h| && j != i ==> h[j] == h0[j]
    ensures AtEnd(h, rem)
  {
  }

  lemma ShapeFacts(t: seq<CtData>, heap: seq<nat>, elems: nat, k: nat, rem: seq<nat>, f1: seq<nat>, max: nat,
                   maxCode: nat, sh: Shape)
    requires k >= 1 && 1 <= max <= MAX_BITS && |f1| == elems
             && Forest(t, elems, k, rem, {elems + k - 1}, LeafSet(f1, elems))
    requires forall s :: 0 <= s < elems ==> t[s].fc == f1[s] && (f1[s] == 0 ==> t[s] == CtData(0, 0))
    requires AtEnd(heap, rem) && 2 * k + 1 <= HEAP_SIZE && heap[HEAP_SIZE - 1 - 2 * k] == elems + k - 1
    requires IsMax(LeafSet(f1, elems), maxCode)
    requires sh.elems == elems && sh.k == k && sh.rem == rem && sh.nf == NodeFreqs(t, rem)
    ensures InHeap(heap, sh) && |rem| == |sh.nf| == 2 * k
    ensures forall i :: 0 <= i < 2 * k ==> rem[i] < |t| && (rem[i] < elems ==> rem[i] <= maxCode && sh.nf[i] != 0)
    ensures forall i :: 0 <= i < 2 * k ==> t[rem[i]] == CtData(sh.nf[i], elems + i / 2)
    ensures forall s :: 0 <= s < elems && s !in rem ==> t[s] == CtData(0, 0)
  {
    hide ByFreq, FatherSums;
    forall i | 0 <= i < 2 * k ensures rem[i] < elems ==> rem[i] <= maxCode && sh.nf[i] != 0 {
      assert IsNode(elems, k, LeafSet(f1, elems), rem[i]);
    }
    forall s | 0 <= s < elems && s !in rem ensures t[s] == CtData(0, 0) {
      assert f1[s] != 0 ==> IsNode(elems, k, LeafSet(f1, elems), s);
    }
  }

  /** What the tree says about the lengths computed from it. */
  lemma TreeResult(d: Desc, t: seq<CtData>, h: seq<nat>, k: nat, rem: seq<nat>, f1: seq<nat>, lens: seq<nat>, sh: Shape,
                   blc: seq<nat>, t2: seq<CtData>, opt: int, stat: int)
    requires DescOk(d) && |f1| == d.elems && Tree(t, h, d.elems, k, rem, LeafSet(f1, d.elems))
    requires (forall s :: 0 <= s < d.elems ==> s < |t| && t[s].fc == f1[s]) && t[d.elems + k - 1].fc == Sum(f1)
    requires Ok(sh) && sh.elems == d.elems && sh.k == k && sh.rem == rem && sh.max == d.maxLength
             && sh.nf == NodeFreqs(t, rem)
    requires Lengths(d, t2, blc, lens, f1, opt, stat)
    requires (AllFit(sh) ==> Dot(f1, lens) == Sum(sh.nf)) && (!AllFit(sh) ==> Falling(rem, lens))
    ensures Monotone(f1, lens) && (Optimal(f1, lens) <==> OptimalFits(f1, d.maxLength))
    ensures Sum(f1) < Fib(d.maxLength + 3) ==> Optimal(f1, lens)
  {
    hide LowerBound, Reached, Sum, Dot, Fill, Pow2, Optimal, OptimalFits, Monotone, Feasible, Fib, AllFit, Falling, Ok,
      Billed, Tree, Forest, Heights, LeafSet;
    TreeSizes(t, h, d.elems, k, rem, LeafSet(f1, d.elems));
    TreeBound(t, h, d.elems, k, rem, f1);
    LeavesOnly(t, h, d.elems, k, rem, f1);
    FitsHeight(sh, h, LeafSet(f1, d.elems));
    IsFeasible(f1, lens, d.maxLength);
    BestCode(f1, lens, Sum(sh.nf), h[d.elems + k - 1], d.maxLength);
    if AllFit(sh) { OptimalMonotone(f1, lens, d.maxLength); } else { FallingMonotone(t, d.elems, k, rem, f1, lens); }
    HighIsHeavy(t, h, d.elems, k, rem, LeafSet(f1, d.elems), d.maxLength);
  }

  lemma LeavesOnly(t: seq<CtData>, h: seq<nat>, elems: nat, k: nat, rem: seq<nat>, f1: seq<nat>)
    requires |f1| == elems && Tree(t, h, elems, k, rem, LeafSet(f1, elems))
    ensures Forest(t, elems, k, rem, {elems + k - 1}, LeafSet(f1, elems)) && k >= 1
    ensures Heights(h, elems, k, rem, LeafSet(f1, elems)) && |rem| == 2 * k
    ensures forall x :: 0 <= x < 2 * k && rem[x] < elems ==> rem[x] in LeafSet(f1, elems)
  {
    hide ByFreq, Fathers, FatherSums, ByRank, Heavy;
    forall x | 0 <= x < 2 * k && rem[x] < elems ensures rem[x] in LeafSet(f1, elems) {
      assert IsNode(elems, k, LeafSet(f1, elems), rem[x]);
    }
  }

  /** A tree above the limit has as many symbols as the Fibonacci number says. */
  lemma HighIsHeavy(t: seq<CtData>, h: seq<nat>, elems: nat, k: nat, rem: seq<nat>, leaves: set<nat>, max: nat)
    requires Tree(t, h, elems, k, rem, leaves)
    ensures elems + k <= |t| == |h| && (t[elems + k - 1].fc < Fib(max + 3) ==> h[elems + k - 1] <= max)
  {
    hide Fib, ByFreq, Fathers, FatherSums, ByRank;
    assert IsNode(elems, k, leaves, elems + k - 1) && HeavyAt(t, h, elems + k - 1);
    if h[elems + k - 1] > max { FibMono(max + 3, h[elems + k - 1] + 2); }
  }

  /** `build_tree`: a complete code for the symbols in use and its exact cost. Where two symbols are in
      use, only these have a code, and it is optimal exactly if some optimal code is within the limit, and
      so whenever the frequencies add up to less than a Fibonacci number. Otherwise two symbols get one
      bit each. A more frequent symbol never has a longer code. */
  method BuildTree(d: Desc, tree: array<CtData>, heap: array<nat>, depth: array<nat>, blCount: array<nat>)
    returns (maxCode: nat, opt: int, stat: int, ghost lens: seq<nat>)
    requires NoExtra(d) && heap != depth && heap != blCount && depth != blCount
    requires heap.Length == HEAP_SIZE && d.elems <= L_CODES && blCount.Length == MAX_BITS + 1
    requires 2 * d.elems <= tree.Length <= depth.Length && Sum(Freqs(tree[..], d.elems)) + 2 < 65536
    modifies tree, heap, depth, blCount
    ensures Built(d, old(Freqs(tree[..], d.elems)), tree[..], maxCode, lens, opt, stat)
    ensures Best(old(Freqs(tree[..], d.elems)), lens, d.maxLength)
  {
    hide Lists, IsMax, LeafSet, Forced, Forest, AtEnd, Sum, Dot, Built, Optimal, OptimalFits, Monotone, Ok, InHeap,
      LensOk, CodesOk, Billed, Falling, Freqs, Lengths, Tree, Fib, AllFit, Completed, Best;
    ghost var f0 := Freqs(tree[..], d.elems);
    var opt1, stat1, heapMax;
    ghost var f1, heapLen, hs, k, rem, h;
    maxCode, opt1, stat1, heapMax, f1, heapLen, hs, k, rem, h := MakeTree(d, tree, heap, depth);
    ghost var t1 := tree[..];
    LeavesOnly(t1, h, d.elems, k, rem, f1);
    ghost var sh := ShapeOf(t1, d.elems, k, rem, LeafSet(f1, d.elems), d.maxLength);
    ShapeFacts(t1, heap[..], d.elems, k, rem, f1, d.maxLength, maxCode, sh);
    ghost var fs;
    opt, stat, lens, fs := GenBitlen.GenBitlen(heap, heapMax, tree, blCount, d, maxCode, sh);
    ghost var t2, blc := tree[..], blCount[..];
    LengthsFacts(d, t2, blc, lens, fs, opt, stat);
    assert fs == f1;
    TreeResult(d, t1, h, k, rem, f1, lens, sh, blc, t2, opt, stat);
    CodeLens(d, t2, blc, lens, f1, opt, stat, maxCode);
    GenCodes(tree, maxCode, blCount, lens[..maxCode + 1]);
    IsBest(d, f0, f1, t2, blc, lens, opt, stat);
    IsBuilt(d, f0, f1, t2, tree[..], blc, maxCode, lens, heapLen, hs, opt1, stat1, opt, stat);
    opt, stat := opt1 + opt, stat1 + stat;
  }

  /** What the lengths mean for the frequencies given. */
  lemma IsBest(d: Desc, f0: seq<nat>, f1: seq<nat>, t: seq<CtData>, blc: seq<nat>, lens: seq<nat>, opt: int, stat: int)
    requires DescOk(d) && 3 <= |f0| == d.elems && Completed(f0, f1) && Lengths(d, t, blc, lens, f1, opt, stat)
    requires Monotone(f1, lens) && (Optimal(f1, lens) <==> OptimalFits(f1, d.maxLength))
    requires Sum(f1) < Fib(d.maxLength + 3) ==> Optimal(f1, lens)
    ensures Best(f0, lens, d.maxLength)
  {
    hide Sum, Optimal, OptimalFits, Fib, Fill, Pow2, Billed, BlCount;
    forall u: nat | Only(f0, u) ensures lens == Pair(|f0|, u, Next(u)) { TwoOnes(lens, u, Next(u)); }
    if forall s :: 0 <= s < |f0| ==> f0[s] == 0 { TwoOnes(lens, 0, 1); }
  }

  lemma LengthsFacts(d: Desc, t: seq<CtData>, blc: seq<nat>, lens: seq<nat>, fs: seq<nat>, opt: int, stat: int)
    requires DescOk(d) && Lengths(d, t, blc, lens, fs, opt, stat)
    ensures |lens| == |fs| == d.elems
  {
  }
}
