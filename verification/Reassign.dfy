/** The last loop of `gen_bitlen`: after a repair the lengths are handed out again, the
    longest to the least frequent symbols. */
module Reassign {
  import opened Arith
  import opened Canonical
  import opened HuffLens
  import opened Overflow
  import opened Symbols

  /** `p` nodes of `rem` have been seen; the leaves among them have got the lengths from
      `bits` up, in falling order, and `n` codes of `bits` bits are still to be handed out. */
  ghost predicate Handed(rem: seq<nat>, l0: seq<nat>, l: seq<nat>, lp: seq<nat>, p: nat, bits: nat) {
    && |l| == |lp| == |l0| && p <= |rem|
    && (forall i ::
        0 <= i < p && rem[i] < |l| ==> lp[rem[i]] == l[rem[i]] && bits <= l[rem[i]] <= MAX_BITS && l[rem[i]] > 0)
    && (forall i :: p <= i < |rem| && rem[i] < |l| ==> lp[rem[i]] == 0 && l[rem[i]] == l0[rem[i]])
    && (forall s :: 0 <= s < |l| && s !in rem ==> lp[s] == 0 && l[s] == 0)
    && (forall i, j :: 0 <= i < j < p && rem[i] < |l| && rem[j] < |l| ==> l[rem[i]] >= l[rem[j]])
  }

  ghost predicate Left(lp: seq<nat>, blc: seq<nat>, bits: nat, n: nat) {
    && |blc| == MAX_BITS + 1 && blc[0] == 0 && (1 <= bits <= MAX_BITS ==> n <= blc[bits])
    && forall b :: 1 <= b <= MAX_BITS ==>
         Count(lp, b) == if b > bits then blc[b] else if b == bits then blc[b] - n else 0
  }

  /** `rem` lists the symbols that have a code in `l0`, once each, among other nodes. */
  ghost predicate ToGive(rem: seq<nat>, l0: seq<nat>) {
    && (forall i, j :: 0 <= i < j < |rem| ==> rem[i] != rem[j])
    && (forall i :: 0 <= i < |rem| && rem[i] < |l0| ==> 0 < l0[rem[i]] <= MAX_BITS)
    && (forall s :: 0 <= s < |l0| && s !in rem ==> l0[s] == 0)
  }

  lemma HandOne(rem: seq<nat>, l0: seq<nat>, l: seq<nat>, lp: seq<nat>, p: nat, blc: seq<nat>, bits: nat, n: nat)
    requires ToGive(rem, l0) && Handed(rem, l0, l, lp, p, bits) && Left(lp, blc, bits, n)
    requires 1 <= bits <= MAX_BITS && n > 0 && p < |rem|
    ensures rem[p] < |l| ==> Handed(rem, l0, l[rem[p] := bits], lp[rem[p] := bits], p + 1, bits)
                             && Left(lp[rem[p] := bits], blc, bits, n - 1)
    ensures rem[p] >= |l| ==> Handed(rem, l0, l, lp, p + 1, bits)
  {
    if rem[p] < |l| {
      forall b | 1 <= b <= MAX_BITS
        ensures Count(lp[rem[p] := bits], b) == if b > bits then blc[b] else if b == bits then blc[b] - (n - 1) else 0
      {
        CountUpdate(lp, rem[p], bits, b);
      }
    }
  }

  lemma {:induction false} SumLess(a: seq<nat>, b: seq<nat>, i: nat)
    requires |a| == |b| && i < |a| && a[i] < b[i] && forall j :: 0 <= j < |a| ==> a[j] <= b[j]
    ensures Sum(a) < Sum(b)
  {
    if i == 0 { SumLeq(a[1..], b[1..]); } else { SumLess(a[1..], b[1..], i - 1); }
  }

  lemma {:induction false} SumLeq(a: seq<nat>, b: seq<nat>)
    requires |a| == |b| && forall j :: 0 <= j < |a| ==> a[j] <= b[j]
    ensures Sum(a) <= Sum(b)
  {
    if a != [] { SumLeq(a[1..], b[1..]); }
  }

  lemma {:induction false} NonZeroLess(a: seq<nat>, b: seq<nat>, i: nat)
    requires |a| == |b| && i < |a| && a[i] == 0 && b[i] != 0
    requires forall j :: 0 <= j < |a| && a[j] != 0 ==> b[j] != 0
    ensures NonZero(a) < NonZero(b)
  {
    var n := |a| - 1;
    if i == n { NonZeroLeq(a[..n], b[..n]); } else { NonZeroLess(a[..n], b[..n], i); }
  }

  lemma {:induction false} NonZeroLeq(a: seq<nat>, b: seq<nat>)
    requires |a| == |b| && forall j :: 0 <= j < |a| && a[j] != 0 ==> b[j] != 0
    ensures NonZero(a) <= NonZero(b)
  {
    if a != [] { NonZeroLeq(a[..|a| - 1], b[..|b| - 1]); }
  }

  /** As long as codes are left, so are symbols. */
  lemma SymbolsLeft(rem: seq<nat>, l0: seq<nat>, l: seq<nat>, lp: seq<nat>, p: nat, blc: seq<nat>, bits: nat, n: nat)
    requires ToGive(rem, l0) && Handed(rem, l0, l, lp, p, bits) && Left(lp, blc, bits, n)
    requires 1 <= bits <= MAX_BITS && n > 0 && Sum(blc) == NonZero(l0)
    ensures p < |rem|
  {
    if p == |rem| {
      NonZeroSame(lp, l0);
      SumOfCounts(lp);
      SumLess(BlCount(lp), blc, bits);
      assert false;
    }
  }

  /** When no code is left, every symbol has got one. */
  lemma AllHanded(rem: seq<nat>, l0: seq<nat>, l: seq<nat>, lp: seq<nat>, p: nat, blc: seq<nat>)
    requires ToGive(rem, l0) && Handed(rem, l0, l, lp, p, 1) && Left(lp, blc, 1, 0) && Sum(blc) == NonZero(l0)
    ensures l == lp && blc == BlCount(l) && forall s :: 0 <= s < |l| ==> l[s] <= MAX_BITS
    ensures forall i, j :: 0 <= i < j < |rem| && rem[i] < |l| && rem[j] < |l| ==> l[rem[i]] >= l[rem[j]]
    ensures forall s :: 0 <= s < |l| ==> (l[s] == 0 <==> l0[s] == 0)
  {
    assert BlCount(lp) == blc;
    SumOfCounts(lp);
    if i :| p <= i < |rem| && rem[i] < |l| {
      NonZeroLess(lp, l0, rem[i]);
      assert false;
    }
    forall s | 0 <= s < |l| ensures l[s] == lp[s] && l[s] <= MAX_BITS {
      if s in rem { var i :| 0 <= i < |rem| && rem[i] == s; }
    }
  }

  method Relength(tree: array<CtData>, m: nat, bits: nat, opt0: int) returns (opt: int)
    requires m < tree.Length
    modifies tree
    ensures tree[m] == CtData(old(tree[m].fc), bits)
    ensures forall s :: 0 <= s < tree.Length && s != m ==> tree[s] == old(tree[s])
    ensures opt == opt0 + (bits - old(tree[m].dl)) * old(tree[m].fc)
  {
    opt := opt0;
    if tree[m].dl != bits {
      opt := opt + (bits - tree[m].dl) * tree[m].fc;
      tree[m] := tree[m].(dl := bits);
    }
  }

  lemma Rebilled(fs: seq<nat>, l: seq<nat>, m: nat, bits: nat)
    requires |fs| == |l| && m < |l|
    ensures Dot(fs, l[m := bits]) == Dot(fs, l) + (bits - l[m]) * fs[m]
  {
    DotUpdateRight(fs, l, m, bits);
    MulDiff(fs[m], bits, l[m]);
  }

  /** The codes of one length go to the next least frequent symbols. */
  method AssignBits(heap: array<nat>, h0: nat, tree: array<CtData>, bits: nat, n0: nat, maxCode: nat, opt0: int,
                    ghost rem: seq<nat>, ghost l0: seq<nat>, ghost l1: seq<nat>, ghost lp1: seq<nat>,
                      ghost blc: seq<nat>,
                    ghost fs: seq<nat>)
    returns (h: nat, opt: int, ghost l: seq<nat>, ghost lp: seq<nat>)
    requires |l0| <= tree.Length && maxCode < |l0| == |fs|
    requires heap.Length == HEAP_SIZE && |rem| <= HEAP_SIZE && h0 <= HEAP_SIZE
    requires forall i :: 0 <= i < |rem| ==> heap[HEAP_SIZE - 1 - i] == rem[i] && (rem[i] < |l0| ==> rem[i] <= maxCode)
    requires ToGive(rem, l0) && Handed(rem, l0, l1, lp1, HEAP_SIZE - h0, bits) && Left(lp1, blc, bits, n0)
    requires 1 <= bits <= MAX_BITS && Sum(blc) == NonZero(l0) && |l1| == |lp1| == |l0|
    requires forall s :: 0 <= s < |l0| ==> tree[s] == CtData(fs[s], l1[s])
    modifies tree
    ensures |l| == |lp| == |l0|
    ensures h <= HEAP_SIZE && Handed(rem, l0, l, lp, HEAP_SIZE - h, bits) && Left(lp, blc, bits, 0)
    ensures forall s :: 0 <= s < |l0| ==> tree[s] == CtData(fs[s], l[s])
    ensures forall s :: |l0| <= s < tree.Length ==> tree[s] == old(tree[s])
    ensures opt - Dot(fs, l) == opt0 - Dot(fs, l1)
  {
    hide Handed, Left, ToGive, Dot, Sum, NonZero;
    h, opt, l, lp := h0, opt0, l1, lp1;
    var n := n0;
    while n != 0
      invariant h <= HEAP_SIZE && |l| == |lp| == |l0|
      invariant Handed(rem, l0, l, lp, HEAP_SIZE - h, bits) && Left(lp, blc, bits, n)
      invariant forall s :: 0 <= s < |l0| ==> tree[s] == CtData(fs[s], l[s])
      invariant forall s :: |l0| <= s < tree.Length ==> tree[s] == old(tree[s])
      invariant opt - Dot(fs, l) == opt0 - Dot(fs, l1)
      decreases h
    {
      ghost var p := HEAP_SIZE - h;
      SymbolsLeft(rem, l0, l, lp, p, blc, bits, n);
      HandOne(rem, l0, l, lp, p, blc, bits, n);
      h := h - 1;
      var m := heap[h];
      assert m == rem[p];
      if m <= maxCode {
        Rebilled(fs, l, m, bits);
        opt := Relength(tree, m, bits, opt);
        l, lp := l[m := bits], lp[m := bits];
        n := n - 1;
      }
    }
  }

  lemma MulDiff(f: int, a: int, b: int)
    ensures (a - b) * f == f * a - f * b
  {
  }

  /** All lengths anew: as many codes of each length as `bl_count` says, and none longer
      than that of a less frequent symbol. */
  method AssignAll(heap: array<nat>, tree: array<CtData>, blCount: array<nat>, maxLength: nat, maxCode: nat, opt0: int,
                   ghost rem: seq<nat>, ghost l0: seq<nat>, ghost fs: seq<nat>)
    returns (opt: int, ghost l: seq<nat>)
    requires |l0| <= tree.Length && maxCode < |l0| == |fs| && blCount.Length == MAX_BITS + 1
    requires heap.Length == HEAP_SIZE && |rem| <= HEAP_SIZE && 1 <= maxLength <= MAX_BITS
    requires forall i :: 0 <= i < |rem| ==> heap[HEAP_SIZE - 1 - i] == rem[i] && (rem[i] < |l0| ==> rem[i] <= maxCode)
    requires ToGive(rem, l0) && Sum(blCount[..]) == NonZero(l0) && blCount[0] == 0
    requires forall b :: maxLength < b <= MAX_BITS ==> blCount[b] == 0
    requires forall s :: 0 <= s < |l0| ==> tree[s] == CtData(fs[s], l0[s])
    modifies tree
    ensures |l| == |l0| && BlCount(l) == blCount[..] && forall s :: 0 <= s < |l| ==> l[s] <= MAX_BITS
    ensures forall s :: 0 <= s < |l0| ==> tree[s] == CtData(fs[s], l[s]) && (l[s] == 0 <==> l0[s] == 0)
    ensures forall s :: |l0| <= s < tree.Length ==> tree[s] == old(tree[s])
    ensures forall i, j :: 0 <= i < j < |rem| && rem[i] < |l| && rem[j] < |l| ==> l[rem[i]] >= l[rem[j]]
    ensures opt - Dot(fs, l) == opt0 - Dot(fs, l0)
  {
    ghost var blc, lp := blCount[..], seq(|l0|, _ => 0);
    forall b | 1 <= b <= MAX_BITS ensures Count(lp, b) == 0 { NoneCounted(lp, b); }
    opt, l := opt0, l0;
    var h, bits := HEAP_SIZE, maxLength;
    while bits != 0
      invariant 0 <= bits <= maxLength && h <= HEAP_SIZE
      invariant Handed(rem, l0, l, lp, HEAP_SIZE - h, if bits == 0 then 1 else bits)
      invariant if bits == 0 then Left(lp, blc, 1, 0) else Left(lp, blc, bits, blc[bits])
      invariant forall s :: 0 <= s < |l0| ==> tree[s] == CtData(fs[s], l[s])
      invariant forall s :: |l0| <= s < tree.Length ==> tree[s] == old(tree[s])
      invariant opt - Dot(fs, l) == opt0 - Dot(fs, l0)
    {
      h, opt, l, lp := AssignBits(heap, h, tree, bits, blCount[bits], maxCode, opt, rem, l0, l, lp, blc, fs);
      bits := bits - 1;
    }
    AllHanded(rem, l0, l, lp, HEAP_SIZE - h, blc);
  }
}
