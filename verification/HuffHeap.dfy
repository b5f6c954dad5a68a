/** The priority queue that gzip builds its Huffman trees with: an implicit binary heap
    in `heap[1..heap_len]`, ordered by frequency and then by subtree depth. */
module HuffHeap {
  import opened Canonical

  /** The `SMALLER` order on nodes. */
  predicate Smaller(tree: seq<CtData>, depth: seq<nat>, n: nat, m: nat)
    requires n < |tree| <= |depth| && m < |tree|
  {
    tree[n].fc < tree[m].fc || (tree[n].fc == tree[m].fc && depth[n] <= depth[m])
  }

  ghost predicate Nodes(heap: seq<nat>, len: nat, tree: seq<CtData>, depth: seq<nat>) {
    len < |heap| && |tree| <= |depth| && forall i :: 1 <= i <= len ==> heap[i] < |tree|
  }

  /** Every father from position `k` on is smaller than its sons. */
  ghost predicate HeapFrom(heap: seq<nat>, len: nat, tree: seq<CtData>, depth: seq<nat>, k: nat)
    requires Nodes(heap, len, tree, depth)
  {
    forall j :: 2 <= j <= len && k <= j / 2 ==> Smaller(tree, depth, heap[j / 2], heap[j])
  }

  /** The root of a heap is its smallest element. */
  lemma {:induction false} RootIsLeast(heap: seq<nat>, len: nat, tree: seq<CtData>, depth: seq<nat>, i: nat)
    requires Nodes(heap, len, tree, depth) && HeapFrom(heap, len, tree, depth, 1) && 1 <= i <= len
    ensures Smaller(tree, depth, heap[1], heap[i])
    decreases i
  {
    if i > 1 { RootIsLeast(heap, len, tree, depth, i / 2); }
  }

  /** The heap with `v` in the hole at `k` violates the order at most between `k` and its sons. */
  ghost predicate Sifting(s: seq<nat>, len: nat, tree: seq<CtData>, depth: seq<nat>, k0: nat, k: nat)
    requires Nodes(s, len, tree, depth) && 1 <= k0 <= k <= len
  {
    && (forall j :: 2 <= j <= len && k0 <= j / 2 && j / 2 != k ==> Smaller(tree, depth, s[j / 2], s[j]))
    && (k0 < k ==> k0 <= k / 2)
    && (k0 < k ==> forall j :: 2 <= j <= len && j / 2 == k ==> Smaller(tree, depth, s[k / 2], s[j]))
  }

  function Swap(s: seq<nat>, i: nat, j: nat): (r: seq<nat>)
    requires i < |s| && j < |s|
    ensures |r| == |s| && multiset(r) == multiset(s)
  {
    s[i := s[j]][j := s[i]]
  }

  /** Moving the smaller son up keeps the heap but for the new place of the hole. */
  lemma SiftStep(s: seq<nat>, len: nat, tree: seq<CtData>, depth: seq<nat>, k0: nat, k: nat, j: nat)
    requires 1 <= k0 <= k <= len && j <= len && j / 2 == k
    requires Nodes(s, len, tree, depth) && Sifting(s, len, tree, depth, k0, k)
    requires !Smaller(tree, depth, s[k], s[j])
    requires forall i :: 2 <= i <= len && i / 2 == k ==> Smaller(tree, depth, s[j], s[i])
    ensures var r := Swap(s, k, j); Nodes(r, len, tree, depth) && Sifting(r, len, tree, depth, k0, j)
  {
    var r := Swap(s, k, j);
    assert r[k] == s[j] && r[j] == s[k] && forall i :: 0 <= i < |s| && i != k && i != j ==> r[i] == s[i];
    forall i | 2 <= i <= len && k0 <= i / 2 && i / 2 != j
      ensures Smaller(tree, depth, r[i / 2], r[i])
    {
      if i / 2 == k {
      } else if i == k {
        assert r[i / 2] == s[k / 2];
        assert Smaller(tree, depth, s[k / 2], s[j]);
      } else {
        assert r[i] == s[i] && r[i / 2] == s[i / 2];
      }
    }
    forall i | 2 <= i <= len && i / 2 == j
      ensures Smaller(tree, depth, r[j / 2], r[i])
    {
      assert r[i] == s[i] && r[j / 2] == s[j];
      assert Smaller(tree, depth, s[i / 2], s[i]);
    }
  }

  /** `b` is `a` with the elements between `lo` and `hi` permuted. */
  ghost predicate Permuted(a: seq<nat>, b: seq<nat>, lo: nat, hi: nat) {
    && |a| == |b| && multiset(a) == multiset(b)
    && forall i :: 0 <= i < |a| && (i < lo || hi <= i) ==> a[i] == b[i]
  }

  lemma PartPermuted(a: seq<nat>, b: seq<nat>, lo: nat, hi: nat)
    requires Permuted(a, b, lo, hi) && lo <= hi <= |a|
    ensures multiset(a[lo..hi]) == multiset(b[lo..hi])
  {
    assert a[..lo] == b[..lo] && a[hi..] == b[hi..];
    Parts(a, lo, hi);
    Parts(b, lo, hi);
    Cancel(multiset(a[..lo]), multiset(a[lo..hi]), multiset(b[lo..hi]), multiset(a[hi..]));
  }

  lemma Parts(a: seq<nat>, lo: nat, hi: nat)
    requires lo <= hi <= |a|
    ensures multiset(a) == multiset(a[..lo]) + multiset(a[lo..hi]) + multiset(a[hi..])
  {
    assert a == a[..lo] + a[lo..hi] + a[hi..];
  }

  lemma Cancel(x: multiset<nat>, a: multiset<nat>, b: multiset<nat>, y: multiset<nat>)
    requires x + a + y == x + b + y
    ensures a == b
  {
    assert a == (x + a + y) - x - y && b == (x + b + y) - x - y;
  }

  lemma SiftStart(s: seq<nat>, len: nat, tree: seq<CtData>, depth: seq<nat>, k: nat)
    requires 1 <= k <= len && Nodes(s, len, tree, depth) && HeapFrom(s, len, tree, depth, k + 1)
    ensures Sifting(s, len, tree, depth, k, k) && Permuted(s, s, k, len + 1)
  {
  }

  /** The hole may be filled once its value is no larger than its smaller son. */
  lemma SiftDone(s: seq<nat>, len: nat, tree: seq<CtData>, depth: seq<nat>, k0: nat, k: nat)
    requires 1 <= k0 <= k <= len && Nodes(s, len, tree, depth) && Sifting(s, len, tree, depth, k0, k)
    requires forall i :: 2 <= i <= len && i / 2 == k ==> Smaller(tree, depth, s[k], s[i])
    ensures HeapFrom(s, len, tree, depth, k0)
  {
  }

  /** The smallest of the sons of `k`. */
  method SmallestSon(heap: array<nat>, heapLen: nat, tree: array<CtData>, depth: array<nat>, k: nat) returns (j: nat)
    requires 1 <= k && 2 * k <= heapLen && Nodes(heap[..], heapLen, tree[..], depth[..])
    ensures 2 * k <= j <= 2 * k + 1 && j <= heapLen
    ensures forall i ::
              2 * k <= i <= 2 * k + 1 && i <= heapLen ==> Smaller(tree[..], depth[..], heap[..][j], heap[..][i])
  {
    j := 2 * k;
    if j < heapLen {
      var n, m := heap[j + 1], heap[j];
      assert n == heap[..][j + 1] && m == heap[..][j];
      if Smaller(tree[..], depth[..], n, m) { j := j + 1; }
    }
  }

  /** `h` is the heap `s` but for the hole at `k`; `s` permutes `h0`. */
  ghost predicate HoleAt(h: seq<nat>, s: seq<nat>, h0: seq<nat>, k: nat, k0: nat, len: nat) {
    && |h| == |s| && k < |s| && Permuted(h0, s, k0, len + 1)
    && forall i :: 0 <= i < |s| && i != k ==> h[i] == s[i]
  }

  lemma HoleMoves(h: seq<nat>, s: seq<nat>, h0: seq<nat>, k: nat, j: nat, k0: nat, len: nat)
    requires HoleAt(h, s, h0, k, k0, len) && k0 <= k < j <= len < |s|
    ensures HoleAt(h[k := h[j]], Swap(s, k, j), h0, j, k0, len) && Swap(s, k, j)[j] == s[k]
  {
  }

  /** `pqdownheap`: restores the heap order from position `k0` down. */
  method PqDownHeap(heap: array<nat>, heapLen: nat, tree: array<CtData>, depth: array<nat>, k0: nat)
    requires heap != depth && 1 <= k0 <= heapLen
    requires Nodes(heap[..], heapLen, tree[..], depth[..])
    requires HeapFrom(heap[..], heapLen, tree[..], depth[..], k0 + 1)
    modifies heap
    ensures Nodes(heap[..], heapLen, tree[..], depth[..])
    ensures HeapFrom(heap[..], heapLen, tree[..], depth[..], k0)
    ensures Permuted(old(heap[..]), heap[..], k0, heapLen + 1)
  {
    hide Sifting, Permuted, Swap, HeapFrom;
    var v, k := heap[k0], k0;
    ghost var s, tr, dp, h0 := heap[..], tree[..], depth[..], heap[..];
    SiftStart(s, heapLen, tr, dp, k0);
    while 2 * k <= heapLen
      invariant k0 <= k <= heapLen && HoleAt(heap[..], s, h0, k, k0, heapLen) && s[k] == v
      invariant Nodes(s, heapLen, tr, dp) && Nodes(heap[..], heapLen, tr, dp)
      invariant Sifting(s, heapLen, tr, dp, k0, k)
      decreases heapLen - k
    {
      ghost var h := heap[..];
      var j := SmallestSon(heap, heapLen, tree, depth, k);
      var son := heap[j];
      assert tree[..] == tr && depth[..] == dp && heap[..] == h;
      forall i | 2 <= i <= heapLen && i / 2 == k ensures Smaller(tr, dp, s[j], s[i]) {
        assert Smaller(tr, dp, heap[..][j], heap[..][i]);
        assert heap[..][i] == s[i] && heap[..][j] == s[j];
      }
      if Smaller(tree[..], depth[..], v, son) { break; }
      SiftStep(s, heapLen, tr, dp, k0, k, j);
      HoleMoves(h, s, h0, k, j, k0, heapLen);
      heap[k] := son;
      assert heap[..] == h[k := h[j]];
      s := Swap(s, k, j);
      k := j;
    }
    SiftDone(s, heapLen, tr, dp, k0, k);
    heap[k] := v;
    assert heap[..] == s;
  }
}
