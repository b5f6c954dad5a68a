/** The start of `build_tree`: the symbols in use form the first heap, and at least two
    symbols are forced to be in use. */
module HuffInit {
  import opened Arith
  import opened Canonical

  ghost function LeafSet(fs: seq<nat>, n: nat): (s: set<nat>)
    requires n <= |fs|
  {
    set s | 0 <= s < n && fs[s] != 0
  }

  ghost function Freqs(t: seq<CtData>, elems: nat): (fs: seq<nat>)
    requires elems <= |t|
    ensures |fs| == elems && forall s :: 0 <= s < elems ==> fs[s] == t[s].fc
  {
    seq(elems, s requires 0 <= s < elems => t[s].fc)
  }

  /** `heap[1..len]` lists the nodes `act`. */
  ghost predicate Lists(heap: seq<nat>, len: nat, act: set<nat>) {
    len < |heap| && multiset(heap[1 .. len + 1]) == multiset(act)
  }

  lemma ListsOne(heap: seq<nat>, len: nat, act: set<nat>, n: nat)
    requires Lists(heap, len, act) && len + 1 < |heap| && n !in act
    ensures Lists(heap[len + 1 := n], len + 1, act + {n})
  {
    var h := heap[len + 1 := n];
    assert h[1 .. len + 2] == heap[1 .. len + 1] + [n];
    assert multiset(act + {n}) == multiset(act) + multiset{n};
  }

  lemma ListsCount(heap: seq<nat>, len: nat, act: set<nat>)
    requires Lists(heap, len, act)
    ensures |act| == len
  {
    assert |multiset(heap[1 .. len + 1])| == len;
    assert |multiset(act)| == |act|;
  }

  lemma ListsMember(heap: seq<nat>, len: nat, act: set<nat>, i: nat)
    requires Lists(heap, len, act) && 1 <= i <= len
    ensures heap[i] in act
  {
    assert heap[1 .. len + 1][i - 1] == heap[i];
    assert heap[i] in multiset(heap[1 .. len + 1]);
  }

  ghost predicate IsMax(act: set<nat>, maxCode: int) {
    && -1 <= maxCode && (maxCode >= 0 ==> maxCode in act) && forall s :: s in act ==> s <= maxCode
  }

  lemma LeafStep(fs: seq<nat>, n: nat, maxCode: int)
    requires n < |fs| && IsMax(LeafSet(fs, n), maxCode)
    ensures n !in LeafSet(fs, n)
    ensures LeafSet(fs, n + 1) == if fs[n] != 0 then LeafSet(fs, n) + {n} else LeafSet(fs, n)
    ensures IsMax(LeafSet(fs, n + 1), if fs[n] != 0 then n else maxCode)
  {
  }

  /** A symbol in use enters the heap as a leaf. */
  method PushLeaf(heap: array<nat>, heapLen: nat, depth: array<nat>, n: nat)
    requires heap != depth && heapLen + 1 < heap.Length && n < depth.Length
    modifies heap, depth
    ensures heap[..] == old(heap[..])[heapLen + 1 := n] && depth[..] == old(depth[..])[n := 0]
  {
    heap[heapLen + 1] := n;
    depth[n] := 0;
  }

  /** The leaves have depth 0. */
  ghost predicate Grounded(depth: seq<nat>, act: set<nat>) {
    forall x :: x in act ==> x < |depth| && depth[x] == 0
  }

  lemma GroundedOne(depth: seq<nat>, act: set<nat>, n: nat)
    requires Grounded(depth, act) && n < |depth|
    ensures Grounded(depth[n := 0], act + {n})
  {
  }

  /** The first loop of `build_tree`. */
  method CollectLeaves(tree: array<CtData>, elems: nat, heap: array<nat>, depth: array<nat>)
    returns (heapLen: nat, maxCode: int)
    requires elems <= tree.Length <= depth.Length && heap != depth && elems < heap.Length
    modifies tree, heap, depth
    ensures heapLen <= elems && Lists(heap[..], heapLen, LeafSet(Freqs(tree[..], elems), elems))
    ensures IsMax(LeafSet(Freqs(tree[..], elems), elems), maxCode)
    ensures Freqs(tree[..], elems) == old(Freqs(tree[..], elems))
    ensures forall s :: 0 <= s < elems && tree[s].fc == 0 ==> tree[s].dl == 0
    ensures Grounded(depth[..], LeafSet(Freqs(tree[..], elems), elems))
  {
    hide Lists, IsMax, LeafSet, Freqs, Grounded;
    heapLen, maxCode := 0, -1;
    ghost var t0 := tree[..];
    ghost var fs := Freqs(t0, elems);
    NoneListed(heap[..], fs);
    var n: nat := 0;
    while n < elems
      invariant 0 <= n <= elems && heapLen <= n
      invariant Lists(heap[..], heapLen, LeafSet(fs, n)) && IsMax(LeafSet(fs, n), maxCode)
                && Grounded(depth[..], LeafSet(fs, n))
      invariant tree[..] == Cleared(t0, n)
    {
      LeafStep(fs, n, maxCode);
      ClearStep(t0, n);
      if tree[n].fc != 0 {
        ListsOne(heap[..], heapLen, LeafSet(fs, n), n);
        GroundedOne(depth[..], LeafSet(fs, n), n);
        PushLeaf(heap, heapLen, depth, n);
        heapLen := heapLen + 1;
        maxCode := n;
      } else {
        tree[n] := tree[n].(dl := 0);
      }
      n := n + 1;
    }
    ClearedFreqs(t0, elems);
  }

  lemma ClearedFreqs(t: seq<CtData>, elems: nat)
    requires elems <= |t|
    ensures Freqs(Cleared(t, elems), elems) == Freqs(t, elems)
  {
  }

  /** The unused symbols below `n` get length 0. */
  ghost function Cleared(t: seq<CtData>, n: nat): (r: seq<CtData>)
    requires n <= |t|
    ensures |r| == |t|
    ensures forall s :: 0 <= s < |t| ==> r[s] == if s < n && t[s].fc == 0 then CtData(0, 0) else t[s]
  {
    seq(|t|, s requires 0 <= s < |t| => if s < n && t[s].fc == 0 then CtData(0, 0) else t[s])
  }

  lemma ClearStep(t: seq<CtData>, n: nat)
    requires n < |t|
    ensures Cleared(t, n)[n] == t[n]
    ensures Cleared(t, n + 1) == if t[n].fc == 0 then Cleared(t, n)[n := CtData(0, 0)] else Cleared(t, n)
  {
  }

  lemma NoneListed(heap: seq<nat>, fs: seq<nat>)
    requires |heap| > 0
    ensures Lists(heap, 0, LeafSet(fs, 0)) && IsMax(LeafSet(fs, 0), -1)
            && forall depth :: Grounded(depth, LeafSet(fs, 0))
  {
    assert LeafSet(fs, 0) == {};
  }

  // ----- at least two codes -----

  lemma FreshCode(heap: seq<nat>, len: nat, act: set<nat>, maxCode: int)
    requires Lists(heap, len, act) && len < 2 && IsMax(act, maxCode)
    ensures (if maxCode < 2 then maxCode + 1 else 0) !in act
  {
    ListsCount(heap, len, act);
    if maxCode >= 2 && 0 in act {
      var two := {0, maxCode as nat};
      assert two <= act;
      SubsetSize(two, act);
      assert false;
    }
  }

  lemma ForcedSet(fs: seq<nat>, n: nat, maxCode: int, heap: seq<nat>, len: nat)
    requires n < |fs| && IsMax(LeafSet(fs, |fs|), maxCode) && Lists(heap, len, LeafSet(fs, |fs|)) && len < 2
    requires n == if maxCode < 2 then maxCode + 1 else 0
    ensures n !in LeafSet(fs, |fs|) && fs[n] == 0 && LeafSet(fs[n := 1], |fs|) == LeafSet(fs, |fs|) + {n}
    ensures IsMax(LeafSet(fs[n := 1], |fs|), if maxCode < 2 then maxCode + 1 else maxCode)
  {
    FreshCode(heap, len, LeafSet(fs, |fs|), maxCode);
  }

  /** Two symbols are in use. */
  ghost predicate Two(fs: seq<nat>) {
    exists a, b :: 0 <= a < b < |fs| && fs[a] != 0 && fs[b] != 0
  }

  ghost predicate Only(fs: seq<nat>, u: nat) {
    u < |fs| && fs[u] != 0 && forall s :: 0 <= s < |fs| && s != u ==> fs[s] == 0
  }

  /** Two symbols are in use, or one, or none. */
  lemma Kinds(fs: seq<nat>)
    ensures Two(fs) || (exists u: nat :: Only(fs, u)) || forall s :: 0 <= s < |fs| ==> fs[s] == 0
  {
    if u :| 0 <= u < |fs| && fs[u] != 0 {
      if !Two(fs) {
        forall s | 0 <= s < |fs| && s != u ensures fs[s] == 0 {
          if s < u { assert fs[s] == 0 || Two(fs); } else { assert fs[s] == 0 || Two(fs); }
        }
        assert Only(fs, u);
      }
    }
  }

  /** The symbol that is forced next to `u`. */
  function Next(u: int): (n: nat)
    requires u >= -1
  {
    if u < 2 then u + 1 else 0
  }

  /** The frequencies `f1` are `f0` where two symbols are in use; otherwise with another symbol next to
      the only one, or with the symbols 0 and 1. */
  ghost predicate Completed(f0: seq<nat>, f1: seq<nat>)
    requires |f0| >= 3
  {
    && (Two(f0) ==> f1 == f0)
    && (forall u: nat :: Only(f0, u) ==> f1 == f0[Next(u) := 1])
    && ((forall s :: 0 <= s < |f0| ==> f0[s] == 0) ==> f1 == f0[0 := 1][1 := 1])
  }

  /** The frequencies after some turns of the loop that began with `n0` symbols, the last of them `m0`. */
  ghost predicate Filling(f0: seq<nat>, fs: seq<nat>, n0: nat, m0: int, n: nat, m: int)
    requires |f0| >= 3 && m0 >= -1
  {
    && n >= n0 && (n > n0 ==> n <= 2)
    && (n == n0 ==> fs == f0 && m == m0)
    && (n0 == 1 && n == 2 ==> fs == f0[Next(m0) := 1])
    && (n0 == 0 && n == 1 ==> fs == f0[0 := 1] && m == 0)
    && (n0 == 0 && n == 2 ==> fs == f0[0 := 1][1 := 1])
  }

  lemma FillingOne(f0: seq<nat>, fs: seq<nat>, n0: nat, m0: int, n: nat, m: int)
    requires |f0| == |fs| >= 3 && m0 >= -1 && m >= -1 && (n0 == 0 ==> m0 == -1) && Filling(f0, fs, n0, m0, n, m)
             && n < 2
    ensures Filling(f0, fs[Next(m) := 1], n0, m0, n + 1, if m < 2 then m + 1 else m)
  {
  }

  lemma FillingNone(f0: seq<nat>, n: nat, m: int)
    requires |f0| >= 3 && m >= -1
    ensures Filling(f0, f0, n, m, n, m)
  {
  }

  lemma NoneUsed(heap: seq<nat>, n: nat, act: set<nat>, m: int)
    requires Lists(heap, n, act) && IsMax(act, m)
    ensures n == 0 ==> m == -1
  {
    ListsCount(heap, n, act);
  }

  lemma FillingEnd(f0: seq<nat>, fs: seq<nat>, heap: seq<nat>, n0: nat, m0: int, n: nat, m: int)
    requires |f0| >= 3 && m0 >= -1 && Filling(f0, fs, n0, m0, n, m) && n >= 2
    requires Lists(heap, n0, LeafSet(f0, |f0|)) && IsMax(LeafSet(f0, |f0|), m0)
    ensures Completed(f0, fs)
  {
    var act := LeafSet(f0, |f0|);
    ListsCount(heap, n0, act);
    if Two(f0) {
      var a, b :| 0 <= a < b < |f0| && f0[a] != 0 && f0[b] != 0;
      SubsetSize({a, b}, act);
    }
    forall u: nat | Only(f0, u) ensures fs == f0[Next(u) := 1] { assert act == {u}; }
    if forall s :: 0 <= s < |f0| ==> f0[s] == 0 { assert act == {}; }
  }

  /** The loop that forces codes on otherwise unused symbols. `opt_len` and `static_len` are
      lowered by what these symbols will be billed but never sent. */
  method ForceCodes(tree: array<CtData>, elems: nat, heap: array<nat>, depth: array<nat>, heapLen0: nat, maxCode0: int,
                    stree: seq<nat>)
    returns (heapLen: nat, maxCode: int, opt: int, stat: int)
    requires 3 <= elems <= tree.Length <= depth.Length && heap != depth && elems < heap.Length
             && (stree == [] || elems <= |stree|)
    requires heapLen0 <= elems && Lists(heap[..], heapLen0, LeafSet(Freqs(tree[..], elems), elems))
    requires IsMax(LeafSet(Freqs(tree[..], elems), elems), maxCode0)
             && Grounded(depth[..], LeafSet(Freqs(tree[..], elems), elems))
    modifies tree, heap, depth
    ensures Grounded(depth[..], LeafSet(Freqs(tree[..], elems), elems))
    ensures 2 <= heapLen <= elems && Lists(heap[..], heapLen, LeafSet(Freqs(tree[..], elems), elems))
    ensures IsMax(LeafSet(Freqs(tree[..], elems), elems), maxCode)
    ensures Forced(old(Freqs(tree[..], elems)), Freqs(tree[..], elems), stree, heapLen, opt, stat)
    ensures Completed(old(Freqs(tree[..], elems)), Freqs(tree[..], elems))
    ensures forall s :: 0 <= s < tree.Length ==> tree[s].dl == old(tree[s].dl)
    ensures forall s :: elems <= s < tree.Length ==> tree[s] == old(tree[s])
  {
    hide Lists, IsMax, LeafSet, Forced, Freqs, Grounded, Filling, Completed;
    heapLen, maxCode, opt, stat := heapLen0, maxCode0, 0, 0;
    ghost var t0 := tree[..];
    ghost var f0 := Freqs(t0, elems);
    ghost var hs := heap[..];
    ForcedNone(f0, stree, hs, heapLen);
    MaxAbove(LeafSet(f0, elems), maxCode0);
    NoneUsed(hs, heapLen0, LeafSet(f0, elems), maxCode0);
    FillingNone(f0, heapLen0, maxCode0);
    while heapLen < 2
      invariant heapLen <= elems && Lists(heap[..], heapLen, LeafSet(Freqs(tree[..], elems), elems))
      invariant IsMax(LeafSet(Freqs(tree[..], elems), elems), maxCode)
                && Grounded(depth[..], LeafSet(Freqs(tree[..], elems), elems))
      invariant Forced(f0, Freqs(tree[..], elems), stree, heapLen, opt, stat)
      invariant Filling(f0, Freqs(tree[..], elems), heapLen0, maxCode0, heapLen, maxCode)
      invariant forall s :: 0 <= s < tree.Length ==> tree[s].dl == t0[s].dl
      invariant forall s :: elems <= s < tree.Length ==> tree[s] == t0[s]
    {
      ghost var t := tree[..];
      ghost var fs := Freqs(t, elems);
      MaxAbove(LeafSet(fs, elems), maxCode);
      var new': nat := if maxCode < 2 then maxCode + 1 else 0;
      ForcedSet(fs, new', maxCode, heap[..], heapLen);
      FillingOne(f0, fs, heapLen0, maxCode0, heapLen, maxCode);
      ForcedOne(f0, fs, stree, heapLen, opt, stat, new');
      FreqsUpdate(t, elems, new');
      ListsOne(heap[..], heapLen, LeafSet(fs, elems), new');
      maxCode := if maxCode < 2 then maxCode + 1 else maxCode;
      tree[new'] := tree[new'].(fc := 1);
      assert tree[..] == t[new' := t[new'].(fc := 1)];
      GroundedOne(depth[..], LeafSet(fs, elems), new');
      PushLeaf(heap, heapLen, depth, new');
      heapLen := heapLen + 1;
      opt := opt - 1;
      if stree != [] { stat := stat - stree[new']; }
    }
    FillingEnd(f0, Freqs(tree[..], elems), hs, heapLen0, maxCode0, heapLen, maxCode);
    ForcedBound(f0, Freqs(tree[..], elems), stree, heapLen, opt, stat);
  }

  lemma MaxAbove(act: set<nat>, maxCode: int)
    requires IsMax(act, maxCode)
    ensures maxCode >= -1
  {
  }

  lemma FreqsUpdate(t: seq<CtData>, elems: nat, n: nat)
    requires n < elems <= |t|
    ensures Freqs(t[n := t[n].(fc := 1)], elems) == Freqs(t, elems)[n := 1]
  {
  }

  /** The static code length of a symbol, if there is a static tree. */
  ghost function StaticOf(stree: seq<nat>, elems: nat): (c: seq<nat>)
    requires stree == [] || elems <= |stree|
    ensures |c| == elems && forall n :: 0 <= n < elems ==> c[n] == if stree == [] then 0 else stree[n]
  {
    if stree == [] then seq(elems, n requires 0 <= n < elems => 0) else stree[..elems]
  }

  /** Frequencies `f1` are `f0` with some of the symbols 0 to 2 forced to 1, and only if there
      are no more than two codes in all. */
  ghost predicate Forced(f0: seq<nat>, f1: seq<nat>, stree: seq<nat>, heapLen: nat, opt: int, stat: int) {
    && |f0| == |f1| && (stree == [] || |f0| <= |stree|)
    && (forall s :: 0 <= s < |f0| ==> f1[s] == f0[s] || (f0[s] == 0 && f1[s] == 1 && s < 3))
    && (f0 != f1 ==> heapLen <= 2)
    && heapLen <= |f0|
    && opt == Sum(f0) - Sum(f1) && opt >= -2 && opt + heapLen >= 0
    && stat == Dot(f0, StaticOf(stree, |f0|)) - Dot(f1, StaticOf(stree, |f0|))
  }

  lemma ForcedNone(f0: seq<nat>, stree: seq<nat>, heap: seq<nat>, heapLen: nat)
    requires (stree == [] || |f0| <= |stree|) && heapLen <= |f0|
    ensures Forced(f0, f0, stree, heapLen, 0, 0)
  {
  }

  lemma ForcedOne(f0: seq<nat>, f1: seq<nat>, stree: seq<nat>, heapLen: nat, opt: int, stat: int, n: nat)
    requires Forced(f0, f1, stree, heapLen, opt, stat) && heapLen < 2 && n < |f1| && n < 3 && f1[n] == 0 && |f0| >= 3
    ensures Forced(f0, f1[n := 1], stree, heapLen + 1, opt - 1, if stree == [] then stat else stat - stree[n])
  {
    SumUpdate(f1, n, 1);
    DotSet(f1, StaticOf(stree, |f0|), n, 1);
  }

  lemma ForcedBound(f0: seq<nat>, f1: seq<nat>, stree: seq<nat>, heapLen: nat, opt: int, stat: int)
    requires Forced(f0, f1, stree, heapLen, opt, stat)
    ensures heapLen <= |f0|
  {
  }
}
