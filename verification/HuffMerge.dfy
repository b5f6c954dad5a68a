/** One round of the Huffman construction: the two least frequent nodes leave the heap
    and their father enters it. */
module HuffMerge {
  import opened Canonical
  import opened HuffHeap

  /** `heap[1..len]` holds exactly the nodes `act`, in heap order. */
  ghost predicate HeapOf(heap: seq<nat>, len: nat, tree: seq<CtData>, depth: seq<nat>, act: set<nat>) {
    && Nodes(heap, len, tree, depth) && HeapFrom(heap, len, tree, depth, 1)
    && multiset(heap[1 .. len + 1]) == multiset(act)
  }

  lemma HeapMember(heap: seq<nat>, len: nat, tree: seq<CtData>, depth: seq<nat>, act: set<nat>, i: nat)
    requires HeapOf(heap, len, tree, depth, act) && 1 <= i <= len
    ensures heap[i] in act
  {
    assert heap[1 .. len + 1][i - 1] == heap[i];
    assert heap[i] in multiset(heap[1 .. len + 1]);
  }

  /** The head of the heap is the least of its nodes. */
  lemma HeadIsLeast(heap: seq<nat>, len: nat, tree: seq<CtData>, depth: seq<nat>, act: set<nat>, x: nat)
    requires HeapOf(heap, len, tree, depth, act) && x in act
    ensures len >= 1 && heap[1] in act && heap[1] < |tree| <= |depth| && x < |tree| && Smaller(tree, depth, heap[1], x)
  {
    var part := heap[1 .. len + 1];
    assert x in multiset(part);
    var i :| 0 <= i < |part| && part[i] == x;
    HeapMember(heap, len, tree, depth, act, 1);
    RootIsLeast(heap, len, tree, depth, i + 1);
  }

  lemma HeapCount(heap: seq<nat>, len: nat, tree: seq<CtData>, depth: seq<nat>, act: set<nat>)
    requires HeapOf(heap, len, tree, depth, act)
    ensures |act| == len
  {
    assert |multiset(heap[1 .. len + 1])| == len;
    assert |multiset(act)| == |act|;
  }

  /** Only the frequencies and depths of the nodes in the heap matter. */
  lemma HeapFrame(heap: seq<nat>, len: nat, tree: seq<CtData>, depth: seq<nat>, act: set<nat>,
                  heap': seq<nat>, tree': seq<CtData>, depth': seq<nat>)
    requires HeapOf(heap, len, tree, depth, act)
    requires |tree'| == |tree| && |depth'| == |depth| && |heap'| == |heap|
    requires forall i :: 1 <= i <= len ==> heap'[i] == heap[i]
    requires forall x :: x in act && x < |tree| ==> tree'[x].fc == tree[x].fc && depth'[x] == depth[x]
    ensures HeapOf(heap', len, tree', depth', act)
  {
    forall i | 1 <= i <= len ensures heap[i] in act { HeapMember(heap, len, tree, depth, act, i); }
    assert heap'[1 .. len + 1] == heap[1 .. len + 1];
  }

  lemma Sifted(h0: seq<nat>, h: seq<nat>, len: nat, tree: seq<CtData>, depth: seq<nat>, act: set<nat>)
    requires 1 <= len < |h0| && Permuted(h0, h, 1, len + 1) && multiset(h0[1 .. len + 1]) == multiset(act)
    requires Nodes(h, len, tree, depth) && HeapFrom(h, len, tree, depth, 1)
    ensures HeapOf(h, len, tree, depth, act)
  {
    PartPermuted(h0, h, 1, len + 1);
  }

  /** Replacing the head of the heap by its last element. */
  lemma HeadReplaced(h: seq<nat>, len: nat, tree: seq<CtData>, depth: seq<nat>, act: set<nat>)
    requires HeapOf(h, len, tree, depth, act) && len >= 2
    ensures var h' := h[1 := h[len]];
            && multiset(h'[1 .. len]) == multiset(act - {h[1]}) && h[1] in act
            && Nodes(h', len - 1, tree, depth) && HeapFrom(h', len - 1, tree, depth, 2)
  {
    var h' := h[1 := h[len]];
    HeapMember(h, len, tree, depth, act, 1);
    var first, last := h[1], h[len];
    var part, mid := h[1 .. len + 1], h[2 .. len];
    assert part == [first] + mid + [last];
    assert h'[1 .. len] == [last] + mid;
    RotateOut(first, mid, last);
    assert multiset(act) - multiset{first} == multiset(act - {first});
  }

  lemma RotateOut(first: nat, mid: seq<nat>, last: nat)
    ensures multiset([last] + mid) == multiset([first] + mid + [last]) - multiset{first}
  {
    assert multiset([first] + mid + [last]) == multiset{first} + multiset(mid) + multiset{last};
    assert multiset([last] + mid) == multiset{last} + multiset(mid);
  }

  /** `PQREMOVE`: takes the least frequent node off the heap. */
  method PqRemove(heap: array<nat>, heapLen: nat, tree: array<CtData>, depth: array<nat>, ghost act: set<nat>)
    returns (top: nat)
    requires heap != depth && 2 <= heapLen && HeapOf(heap[..], heapLen, tree[..], depth[..], act)
    modifies heap
    ensures top in act && top < tree.Length && HeapOf(heap[..], heapLen - 1, tree[..], depth[..], act - {top})
    ensures tree.Length <= depth.Length
            && forall x :: x in act ==> x < tree.Length && Smaller(tree[..], depth[..], top, x)
    ensures forall i :: heapLen < i < heap.Length ==> heap[i] == old(heap[i])
  {
    ghost var h0, tr, dp := heap[..], tree[..], depth[..];
    top := heap[1];
    forall x | x in act ensures x < |tr| && Smaller(tr, dp, top, x) {
      HeadIsLeast(h0, heapLen, tr, dp, act, x);
    }
    HeadReplaced(h0, heapLen, tr, dp, act);
    heap[1] := heap[heapLen];
    ghost var h1 := heap[..];
    assert h1 == h0[1 := h0[heapLen]];
    PqDownHeap(heap, heapLen - 1, tree, depth, 1);
    Sifted(h1, heap[..], heapLen - 1, tr, dp, act - {top});
  }

  /** Replacing the head of the heap by a new node. */
  lemma HeadEntered(h: seq<nat>, len: nat, tree: seq<CtData>, depth: seq<nat>, act: set<nat>, node: nat)
    requires HeapOf(h, len, tree, depth, act) && len >= 1 && node !in act && node < |tree|
    ensures var h' := h[1 := node];
            && multiset(h'[1 .. len + 1]) == multiset(act - {h[1]} + {node}) && h[1] in act
            && Nodes(h', len, tree, depth) && HeapFrom(h', len, tree, depth, 2)
  {
    var h' := h[1 := node];
    HeapMember(h, len, tree, depth, act, 1);
    var part, tail := h[1 .. len + 1], h[2 .. len + 1];
    assert part == [h[1]] + tail && h'[1 .. len + 1] == [node] + tail;
    assert multiset(part) == multiset{h[1]} + multiset(tail);
    assert multiset(h'[1 .. len + 1]) == multiset(act) - multiset{h[1]} + multiset{node};
    assert multiset(act) - multiset{h[1]} == multiset(act - {h[1]});
    assert multiset(act - {h[1]}) + multiset{node} == multiset(act - {h[1]} + {node});
  }

  /** The new father: its frequency, its depth, and the links to it. */
  method LinkFather(tree: array<CtData>, depth: array<nat>, n: nat, m: nat, node: nat)
    requires n < tree.Length <= depth.Length && m < tree.Length && node < tree.Length
    requires n != m && node != n && node != m && tree[n].fc + tree[m].fc < 65536
    modifies tree, depth
    ensures tree[node] == CtData(old(tree[n].fc + tree[m].fc), old(tree[node].dl))
    ensures tree[n] == CtData(old(tree[n].fc), node) && tree[m] == CtData(old(tree[m].fc), node)
    ensures forall x :: 0 <= x < tree.Length && x != n && x != m && x != node ==> tree[x] == old(tree[x])
    ensures Deepened(old(depth[..]), depth[..], n, m, node)
  {
    tree[node] := tree[node].(fc := (tree[n].fc + tree[m].fc) % 65536);
    depth[node] := ((if depth[n] >= depth[m] then depth[n] else depth[m]) + 1) % 256;
    tree[n] := tree[n].(dl := node);
    tree[m] := tree[m].(dl := node);
  }

  /** The node `n` is the least of `act` and `m` is next. */
  ghost predicate TwoLeast(tree: seq<CtData>, depth: seq<nat>, act: set<nat>, n: nat, m: nat) {
    && n in act && m in act && n != m && |tree| <= |depth| && (forall x :: x in act ==> x < |tree|)
    && Smaller(tree, depth, n, m) && forall x :: x in act && x != n ==> Smaller(tree, depth, m, x)
  }

  /** The depths, which are kept in eight bits, after `n` and `m` got the father `node`. */
  ghost predicate Deepened(d0: seq<nat>, d: seq<nat>, n: nat, m: nat, node: nat) {
    n < |d0| && m < |d0| && node < |d0| && d == d0[node := ((if d0[n] >= d0[m] then d0[n] else d0[m]) + 1) % 256]
  }

  /** The tree after `n` and `m` got the father `node`. */
  ghost predicate Linked(t0: seq<CtData>, t: seq<CtData>, n: nat, m: nat, node: nat) {
    && |t| == |t0| && n < |t| && m < |t| && node < |t|
    && t[node].fc == t0[n].fc + t0[m].fc
    && t[n] == CtData(t0[n].fc, node) && t[m] == CtData(t0[m].fc, node)
    && forall x :: 0 <= x < |t| && x != n && x != m && x != node ==> t[x] == t0[x]
  }

  /** The two least frequent nodes go to the end of the heap array; the second one
      is still the head of the heap. */
  method TakeTwo(heap: array<nat>, heapLen: nat, heapMax: nat, tree: array<CtData>, depth: array<nat>,
                 ghost act: set<nat>)
    returns (n: nat, m: nat)
    requires heap != depth && 2 <= heapLen && heapLen + 2 <= heapMax - 1 < heap.Length
    requires HeapOf(heap[..], heapLen, tree[..], depth[..], act)
    modifies heap
    ensures TwoLeast(tree[..], depth[..], act, n, m)
    ensures HeapOf(heap[..], heapLen - 1, tree[..], depth[..], act - {n})
    ensures heap[1] == m && heap[heapMax - 1] == n && heap[heapMax - 2] == m
    ensures forall i :: heapMax <= i < heap.Length ==> heap[i] == old(heap[i])
  {
    hide HeapOf;
    n := PqRemove(heap, heapLen, tree, depth, act);
    m := heap[1];
    ghost var h, t, d := heap[..], tree[..], depth[..];
    ghost var act1 := act - {n};
    HeapMember(h, heapLen - 1, t, d, act1, 1);
    forall x | x in act1 ensures x < |t| && Smaller(t, d, m, x) {
      HeadIsLeast(h, heapLen - 1, t, d, act1, x);
    }
    heap[heapMax - 1] := n;
    heap[heapMax - 2] := m;
    HeapFrame(h, heapLen - 1, t, d, act1, heap[..], t, d);
  }

  /** The father takes the place of its second son at the head of the heap. */
  method EnterFather(heap: array<nat>, len: nat, tree: array<CtData>, depth: array<nat>,
                     n: nat, m: nat, node: nat, ghost act: set<nat>)
    requires heap != depth && 1 <= len && HeapOf(heap[..], len, tree[..], depth[..], act)
    requires heap[1] == m && n !in act && n < tree.Length && node < tree.Length && node !in act && node != n
    requires m < tree.Length && tree[n].fc + tree[m].fc < 65536
    modifies heap, tree, depth
    ensures Linked(old(tree[..]), tree[..], n, m, node) && Deepened(old(depth[..]), depth[..], n, m, node)
    ensures HeapOf(heap[..], len, tree[..], depth[..], act - {m} + {node})
    ensures forall i :: len < i < heap.Length ==> heap[i] == old(heap[i])
  {
    ghost var h0, t0, d0 := heap[..], tree[..], depth[..];
    HeapMember(h0, len, t0, d0, act, 1);
    LinkFather(tree, depth, n, m, node);
    ghost var t, d := tree[..], depth[..];
    HeapFrame(h0, len, t0, d0, act, h0, t, d);
    HeadEntered(h0, len, t, d, act, node);
    heap[1] := node;
    ghost var h := heap[..];
    assert h == h0[1 := node];
    PqDownHeap(heap, len, tree, depth, 1);
    Sifted(h, heap[..], len, t, d, act - {m} + {node});
  }

  /** The frequencies of any two nodes add up to a 16-bit number. */
  ghost predicate Light(tree: seq<CtData>, act: set<nat>) {
    forall x, y :: x in act && y in act && x != y ==> x < |tree| && y < |tree| && tree[x].fc + tree[y].fc < 65536
  }

  /** One iteration of the merge loop of `build_tree`. */
  method MergeOne(heap: array<nat>, heapLen: nat, heapMax: nat, tree: array<CtData>, depth: array<nat>,
                  node: nat, ghost act: set<nat>)
    returns (n: nat, m: nat)
    requires heap != depth && 2 <= heapLen && heapLen + 2 <= heapMax - 1 < heap.Length
    requires HeapOf(heap[..], heapLen, tree[..], depth[..], act)
    requires node < tree.Length && node !in act
    requires Light(tree[..], act)
    modifies heap, tree, depth
    ensures TwoLeast(old(tree[..]), old(depth[..]), act, n, m) && Linked(old(tree[..]), tree[..], n, m, node)
    ensures Deepened(old(depth[..]), depth[..], n, m, node)
    ensures HeapOf(heap[..], heapLen - 1, tree[..], depth[..], act - {n, m} + {node})
    ensures heap[heapMax - 1] == n && heap[heapMax - 2] == m
    ensures forall i :: heapMax <= i < heap.Length ==> heap[i] == old(heap[i])
  {
    hide HeapOf, Linked;
    n, m := TakeTwo(heap, heapLen, heapMax, tree, depth, act);
    EnterFather(heap, heapLen - 1, tree, depth, n, m, node, act - {n});
    assert act - {n} - {m} + {node} == act - {n, m} + {node};
  }
}
