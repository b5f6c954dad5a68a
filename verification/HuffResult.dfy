/** What `build_tree` achieves, in terms of the frequencies it was given: a complete code
    for every symbol in use, its exact cost, and its optimality wherever an optimal code fits. */
module HuffResult {
  import opened Arith
  import opened BitlenState
  import opened Canonical
  import opened HuffBound
  import opened HuffHeight
  import opened HuffInit
  import opened HuffLens
  import opened HuffOptimal
  import opened HuffTree

  // ----- the bill for the symbols really in use -----

  /** Two bills differ alike when the prices agree wherever the amounts differ. */
  lemma {:induction false} DotAgree(f: seq<nat>, g: seq<nat>, a: seq<nat>, b: seq<nat>)
    requires |f| == |g| == |a| == |b| && forall s :: 0 <= s < |f| && f[s] != g[s] ==> a[s] == b[s]
    ensures Dot(g, a) - Dot(f, a) == Dot(g, b) - Dot(f, b)
  {
    if f != [] { DotAgree(f[1..], g[1..], a[1..], b[1..]); }
  }

  lemma {:induction false} DotOnes(f: seq<nat>, a: seq<nat>)
    requires |f| == |a| && forall s :: 0 <= s < |a| ==> a[s] == 1
    ensures Dot(f, a) == Sum(f)
  {
    if f != [] { DotOnes(f[1..], a[1..]); }
  }

  /** The symbols 0 to 2 have no extra bits. */
  predicate NoExtra(d: Desc) {
    DescOk(d) && d.elems >= 3 && forall n :: 0 <= n < 3 ==> XBits(d.extra, d.base, n) == 0
  }

  /** The corrections made for forced codes leave the bill for the real symbols. */
  lemma ForcedBill(d: Desc, f0: seq<nat>, f1: seq<nat>, heapLen: nat, lens: seq<nat>, opt1: int, stat1: int, opt2: int,
                   stat2: int)
    requires NoExtra(d) && |f0| == |f1| == |lens| == d.elems
    requires Forced(f0, f1, d.stree, heapLen, opt1, stat1) && Billed(d, f1, lens, opt2, stat2)
    requires forall s :: 0 <= s < |f0| && f0[s] != f1[s] ==> lens[s] == 1
    ensures Billed(d, f0, lens, opt1 + opt2, stat1 + stat2)
  {
    hide Sum, Dot;
    var ones, zeros := seq(|f0|, _ => 1), seq(|f0|, _ => 0);
    var xs := XBitsSeq(d.extra, d.base, d.elems);
    DotAgree(f0, f1, lens, ones);
    DotOnes(f0, ones);
    DotOnes(f1, ones);
    DotAgree(f0, f1, xs, zeros);
    DotZero(f0, zeros);
    DotZero(f1, zeros);
    DotAgree(f0, f1, StaticCosts(d), StaticOf(d.stree, |f0|));
  }

  /** Two symbols share a complete code as one bit each. */
  lemma TwoOnes(lens: seq<nat>, s: nat, t: nat)
    requires s < |lens| && t < |lens| && s != t && 0 < lens[s] <= MAX_BITS && 0 < lens[t] <= MAX_BITS
    requires forall i :: 0 <= i < |lens| && i != s && i != t ==> lens[i] == 0
    requires Fill(BlCount(lens), MAX_BITS) == Pow2(MAX_BITS)
    ensures lens[s] == 1 && lens[t] == 1
  {
    hide Fill, Pow2;
    var a, b := lens[s], lens[t];
    var z: seq<nat> := seq(|lens|, _ => 0);
    var zs := z[s := a];
    assert lens == zs[t := b];
    var blc0 := BlCount(z);
    forall c | 1 <= c <= MAX_BITS ensures Count(z, c) == 0 { NoneCounted(z, c); }
    NoneFilled(blc0, MAX_BITS);
    CountsOne(z, s, a);
    CountsOne(zs, t, b);
    FillOne(blc0, a, MAX_BITS);
    FillOne(BlCount(zs), b, MAX_BITS);
    SharesOfOne(MAX_BITS, a, b);
  }

  lemma CountsOne(lens: seq<nat>, s: nat, v: nat)
    requires s < |lens| && lens[s] == 0 && 0 < v <= MAX_BITS
    ensures BlCount(lens[s := v]) == BlCount(lens)[v := BlCount(lens)[v] + 1]
  {
    forall c | 1 <= c <= MAX_BITS ensures Count(lens[s := v], c) == Count(lens, c) + (if c == v then 1 else 0) {
      CountUpdate(lens, s, v, c);
    }
  }

  lemma SharesOfOne(m: nat, a: nat, b: nat)
    requires 0 < a <= m && 0 < b <= m && Pow2(m + 1 - a) + Pow2(m + 1 - b) == 2 * Pow2(m)
    ensures a == 1 && b == 1
  {
    Pow2Mono(m + 1 - a, m);
    Pow2Mono(m + 1 - b, m);
    if a > 1 { Pow2Mono(m + 1 - a, m - 1); assert false; }
    if b > 1 { Pow2Mono(m + 1 - b, m - 1); assert false; }
  }

  /** When codes were forced there are exactly two, of one bit. */
  lemma ForcedOnes(d: Desc, f0: seq<nat>, f1: seq<nat>, heapLen: nat, opt1: int, stat1: int, lens: seq<nat>,
                   heap: seq<nat>)
    requires DescOk(d) && |f0| == |f1| == |lens| == d.elems && Forced(f0, f1, d.stree, heapLen, opt1, stat1)
             && heapLen >= 2
    requires Lists(heap, heapLen, LeafSet(f1, |f1|)) && Fill(BlCount(lens), MAX_BITS) == Pow2(MAX_BITS)
    requires forall s :: 0 <= s < |lens| ==> lens[s] <= MAX_BITS && (lens[s] == 0 <==> f1[s] == 0)
    ensures forall s :: 0 <= s < |f0| && f0[s] != f1[s] ==> lens[s] == 1
  {
    hide Fill, Pow2, Sum, Dot;
    forall s | 0 <= s < |f0| && f0[s] != f1[s] ensures lens[s] == 1 {
      ListsCount(heap, heapLen, LeafSet(f1, |f1|));
      var t := OtherOf(f1, s);
      TwoOnes(lens, s, t);
    }
  }

  lemma OtherOf(f: seq<nat>, s: nat) returns (t: nat)
    requires s < |f| && f[s] != 0 && |LeafSet(f, |f|)| == 2
    ensures t < |f| && t != s && f[t] != 0 && forall i :: 0 <= i < |f| && i != s && i != t ==> f[i] == 0
  {
    var act := LeafSet(f, |f|);
    var rest := act - {s};
    assert |rest| == 1;
    t :| t in rest;
    assert rest - {t} == {} by { assert |rest - {t}| == 0; }
    forall i | 0 <= i < |f| && i != s && i != t ensures f[i] == 0 {
      assert f[i] != 0 ==> i in rest - {t};
    }
  }

  // ----- the codes up to the largest one in use -----

  lemma {:induction false} CountPrefix(lens: seq<nat>, n: nat, b: nat)
    requires n <= |lens| && b >= 1 && forall s :: n <= s < |lens| ==> lens[s] == 0
    ensures Count(lens[..n], b) == Count(lens, b)
  {
    if n < |lens| {
      var l := lens[..|lens| - 1];
      CountPrefix(l, n, b);
      assert l[..n] == lens[..n];
    } else {
      assert lens[..n] == lens;
    }
  }

  lemma BlCountPrefix(lens: seq<nat>, n: nat)
    requires n <= |lens| && forall s :: n <= s < |lens| ==> lens[s] == 0
    ensures BlCount(lens[..n]) == BlCount(lens)
  {
    forall b | 1 <= b <= MAX_BITS ensures Count(lens[..n], b) == Count(lens, b) { CountPrefix(lens, n, b); }
  }

  // ----- optimality -----

  ghost function InUse(fs: seq<nat>): (u: seq<bool>)
    ensures |u| == |fs| && forall s :: 0 <= s < |fs| ==> u[s] == (fs[s] != 0)
  {
    seq(|fs|, s requires 0 <= s < |fs| => fs[s] != 0)
  }

  /** No other code for the symbols in use that obeys the Kraft inequality costs less. */
  ghost predicate Optimal(fs: seq<nat>, lens: seq<nat>)
    requires |fs| == |lens|
  {
    forall ls: seq<nat>, m: nat :: Feasible(InUse(fs), ls, m) ==> Dot(fs, ls) >= Dot(fs, lens)
  }

  /** Some optimal code has no length above `max`. */
  ghost predicate OptimalFits(fs: seq<nat>, max: nat) {
    exists ls: seq<nat> :: Feasible(InUse(fs), ls, max) && Optimal(fs, ls)
  }

  lemma {:induction false} KraftPad(used: seq<bool>, ls: seq<nat>, m: nat, used': seq<bool>, ls': seq<nat>)
    requires |used| == |ls| <= |used'| == |ls'| && used'[..|used|] == used && ls'[..|ls|] == ls
    requires forall i :: |used| <= i < |used'| ==> !used'[i]
    requires forall i :: 0 <= i < |used| && used[i] ==> ls[i] <= m
    ensures forall i :: 0 <= i < |used'| && used'[i] ==> ls'[i] <= m
    ensures Kraft(used', ls', m) == Kraft(used, ls, m)
    decreases |used'|
  {
    assert forall i :: 0 <= i < |used| ==> used'[i] == used[i] && ls'[i] == ls[i];
    if used == [] {
      KraftNone(used', ls', m);
    } else {
      KraftPad(used[1..], ls[1..], m, used'[1..], ls'[1..]);
    }
  }

  lemma {:induction false} DotPad(f: seq<nat>, c: seq<nat>, f': seq<nat>, c': seq<nat>)
    requires |f| == |c| <= |f'| == |c'| && f'[..|f|] == f && c'[..|c|] == c
             && forall i :: |f| <= i < |f'| ==> f'[i] == 0
    ensures Dot(f', c') == Dot(f, c)
    decreases |f'|
  {
    assert forall i :: 0 <= i < |f| ==> f'[i] == f[i] && c'[i] == c[i];
    if f == [] { DotZero(f', c'); } else { DotPad(f[1..], c[1..], f'[1..], c'[1..]); }
  }

  ghost function Zeros(n: nat): (z: seq<nat>)
    ensures |z| == n && forall i :: 0 <= i < n ==> z[i] == 0
  {
    seq(n, _ => 0)
  }

  /** The nodes in use are the symbols in use, at the bottom. */
  ghost predicate OnlyLeaves(w: seq<nat>, h: seq<nat>, u: seq<bool>, fs: seq<nat>) {
    && |w| == |h| == |u| >= |fs|
    && forall x ::
         0 <= x < |w| ==>
           w[x] == (if x < |fs| then fs[x] else 0) && u[x] == (x < |fs| && fs[x] != 0) && (u[x] ==> h[x] == 0)
  }

  /** A bound over all nodes of the tree is one over its symbols. */
  lemma RestrictBound(w: seq<nat>, h: seq<nat>, u: seq<bool>, c: nat, top: nat, fs: seq<nat>)
    requires OnlyLeaves(w, h, u, fs) && LowerBound(w, h, u, c, top)
    ensures LowerBound(fs, Zeros(|fs|), InUse(fs), c, top)
  {
    hide Dot, Kraft;
    forall ls: seq<nat>, m: nat | Feasible(InUse(fs), ls, m)
      ensures Dot(fs, ls) > c || (Dot(fs, ls) == c && !Under(Zeros(|fs|), InUse(fs), ls, top))
    {
      var ls' := ls + Zeros(|w| - |fs|);
      Padded(w, h, u, fs, ls, ls', m);
      assert Feasible(u, ls', m);
      assert Under(Zeros(|fs|), InUse(fs), ls, top) ==> Under(h, u, ls', top);
    }
  }

  lemma RestrictReached(w: seq<nat>, h: seq<nat>, u: seq<bool>, c: nat, top: nat, fs: seq<nat>)
    requires OnlyLeaves(w, h, u, fs) && Reached(w, h, u, c, top)
    ensures Reached(fs, Zeros(|fs|), InUse(fs), c, top)
  {
    hide Dot, Kraft;
    var ls', m :| Feasible(u, ls', m) && Dot(w, ls') == c && Under(h, u, ls', top + 1);
    var ls := ls'[..|fs|];
    Padded(w, h, u, fs, ls, ls', m);
    assert Feasible(InUse(fs), ls, m) && Dot(fs, ls) == c && Under(Zeros(|fs|), InUse(fs), ls, top + 1);
  }

  lemma Padded(w: seq<nat>, h: seq<nat>, u: seq<bool>, fs: seq<nat>, ls: seq<nat>, ls': seq<nat>, m: nat)
    requires OnlyLeaves(w, h, u, fs) && |ls| == |fs| && |ls'| == |w| && ls'[..|fs|] == ls
    requires forall i :: 0 <= i < |fs| && fs[i] != 0 ==> ls[i] <= m
    ensures (forall i :: 0 <= i < |u| && u[i] ==> ls'[i] <= m) && Kraft(u, ls', m) == Kraft(InUse(fs), ls, m)
            && Dot(w, ls') == Dot(fs, ls)
  {
    hide Dot, Kraft;
    assert u[..|fs|] == InUse(fs) && w[..|fs|] == fs;
    KraftPad(InUse(fs), ls, m, u, ls');
    DotPad(fs, ls, w, ls');
  }

  /** What the finished tree says about all codes for its symbols. */
  lemma TreeBound(t: seq<CtData>, h: seq<nat>, elems: nat, k: nat, rem: seq<nat>, fs: seq<nat>)
    requires |fs| == elems && Tree(t, h, elems, k, rem, LeafSet(fs, elems))
             && forall s :: 0 <= s < elems ==> s < |t| && t[s].fc == fs[s]
    ensures elems + k <= |h| && (forall j :: 0 <= j < |rem| ==> rem[j] < |t|)
    ensures var c, top := Sum(NodeFreqs(t, rem)), h[elems + k - 1];
            LowerBound(fs, Zeros(elems), InUse(fs), c, top) && Reached(fs, Zeros(elems), InUse(fs), c, top)
  {
    hide LowerBound, Reached, Partition, ByFreq, Fathers, ByRank, Heavy, Sum;
    var leaves := LeafSet(fs, elems);
    TailMerged(t, elems, k, rem, 0);
    assert NodeFreqs(t, rem)[0..] == NodeFreqs(t, rem);
    ForestBound(t, h, elems, k, rem, leaves, 0, Merged(t, elems, k));
    var w, u := HeapWeights(t, elems, 0, rem, leaves), HeapUsed(|t|, elems, 0, rem, leaves);
    forall x | 0 <= x < |t| ensures OnHeap(elems, 0, rem, leaves, x) == (x < elems && fs[x] != 0) {}
    assert OnlyLeaves(w, h, u, fs);
    RestrictBound(w, h, u, Merged(t, elems, k), h[elems + k - 1], fs);
    RestrictReached(w, h, u, Merged(t, elems, k), h[elems + k - 1], fs);
  }

  /** Lengths that are within the limit and cost no more than the merges wherever the tree is not too
      high are optimal exactly if an optimal code fits. */
  lemma BestCode(fs: seq<nat>, lens: seq<nat>, c: nat, top: nat, max: nat)
    requires |fs| == |lens| && Feasible(InUse(fs), lens, max) && (top <= max ==> Dot(fs, lens) == c)
    requires LowerBound(fs, Zeros(|fs|), InUse(fs), c, top) && Reached(fs, Zeros(|fs|), InUse(fs), c, top)
    ensures top <= max ==> Optimal(fs, lens)
    ensures Optimal(fs, lens) <==> OptimalFits(fs, max)
  {
    hide Dot, Kraft;
    if top > max {
      var best, m :| Feasible(InUse(fs), best, m) && Dot(fs, best) == c && Under(Zeros(|fs|), InUse(fs), best, top + 1);
      forall ls: seq<nat> | Feasible(InUse(fs), ls, max) ensures !Optimal(fs, ls) {
        assert Under(Zeros(|fs|), InUse(fs), ls, top);
        assert Dot(fs, ls) > c;
      }
    }
  }

  // ----- the height of the tree and the depths of its nodes -----

  /** The node at position `i`; the root stands behind the others. */
  ghost function NodeAt(sh: Shape, i: nat): (x: nat)
    requires Ok(sh) && i <= 2 * sh.k
  {
    if i == 2 * sh.k then sh.elems + sh.k - 1 else sh.rem[i]
  }

  lemma FatherAt(sh: Shape, i: nat)
    requires Ok(sh) && i < 2 * sh.k
    ensures i / 2 < sh.k && i < sh.idx[i / 2] <= 2 * sh.k && NodeAt(sh, sh.idx[i / 2]) == sh.elems + i / 2
  {
    DepthIs(sh, i);
    if sh.idx[i / 2] < 2 * sh.k { InnerAt(sh, i / 2); }
  }

  lemma {:induction false} DepthBelow(sh: Shape, h: seq<nat>, leaves: set<nat>, i: nat)
    requires Ok(sh) && Heights(h, sh.elems, sh.k, sh.rem, leaves) && i <= 2 * sh.k
    ensures NodeAt(sh, i) < |h| && Depth(sh, i) + h[NodeAt(sh, i)] <= h[sh.elems + sh.k - 1]
    decreases 2 * sh.k - i
  {
    hide Depth;
    if i == 2 * sh.k {
      RootDepth(sh);
    } else {
      FatherAt(sh, i);
      DepthIs(sh, i);
      var u := i / 2;
      DepthBelow(sh, h, leaves, sh.idx[u]);
      assert Above(h, sh.rem[2 * u], sh.rem[2 * u + 1], sh.elems + u);
      assert i == 2 * u || i == 2 * u + 1;
    }
  }

  /** Below a node there is one as deep as the node is high. */
  lemma {:induction false} DeepBelow(sh: Shape, h: seq<nat>, leaves: set<nat>, i: nat) returns (j: nat)
    requires Ok(sh) && Heights(h, sh.elems, sh.k, sh.rem, leaves) && i <= 2 * sh.k && NodeAt(sh, i) < |h|
             && h[NodeAt(sh, i)] > 0
    requires forall x :: 0 <= x < 2 * sh.k && sh.rem[x] < sh.elems ==> sh.rem[x] in leaves
    ensures j < 2 * sh.k && Depth(sh, j) == Depth(sh, i) + h[NodeAt(sh, i)]
    decreases h[NodeAt(sh, i)]
  {
    hide Depth;
    var v := NodeAt(sh, i) - sh.elems;
    if i < 2 * sh.k { assert OkAt(sh, i + 1); }
    assert 0 <= v < sh.k && sh.idx[v] == i;
    assert Above(h, sh.rem[2 * v], sh.rem[2 * v + 1], sh.elems + v);
    j := if h[sh.rem[2 * v]] >= h[sh.rem[2 * v + 1]] then 2 * v else 2 * v + 1;
    DepthIs(sh, j);
    if h[sh.rem[j]] > 0 { j := DeepBelow(sh, h, leaves, j); }
  }

  /** No node is too deep exactly if the tree is not too high. */
  lemma FitsHeight(sh: Shape, h: seq<nat>, leaves: set<nat>)
    requires Ok(sh) && Heights(h, sh.elems, sh.k, sh.rem, leaves)
    requires forall x :: 0 <= x < 2 * sh.k && sh.rem[x] < sh.elems ==> sh.rem[x] in leaves
    ensures AllFit(sh) <==> h[sh.elems + sh.k - 1] <= sh.max
  {
    hide Depth;
    forall i | 0 <= i < 2 * sh.k ensures Depth(sh, i) <= h[sh.elems + sh.k - 1] { DepthBelow(sh, h, leaves, i); }
    assert Above(h, sh.rem[2 * (sh.k - 1)], sh.rem[2 * (sh.k - 1) + 1], sh.elems + (sh.k - 1));
    var j := DeepBelow(sh, h, leaves, 2 * sh.k);
    RootDepth(sh);
  }

  lemma RootDepth(sh: Shape)
    requires Ok(sh)
    ensures Depth(sh, 2 * sh.k) == 0
  {
  }

  // ----- the lengths as a code -----

  lemma {:induction false} KraftEnd(used: seq<bool>, ls: seq<nat>, m: nat)
    requires |used| == |ls| > 0 && forall i :: 0 <= i < |used| && used[i] ==> ls[i] <= m
    ensures var n := |ls| - 1;
            Kraft(used, ls, m) == Kraft(used[..n], ls[..n], m) + if used[n] then Pow2(m - ls[n]) else 0
  {
    var n := |ls| - 1;
    if n > 0 {
      KraftEnd(used[1..], ls[1..], m);
      assert used[1..][..n - 1] == used[..n][1..] && ls[1..][..n - 1] == ls[..n][1..];
    }
  }

  /** The Kraft sum by symbols is the one by lengths. */
  lemma {:induction false} KraftIsFill(fs: seq<nat>, lens: seq<nat>)
    requires |fs| == |lens| && forall s :: 0 <= s < |lens| ==> lens[s] <= MAX_BITS && (lens[s] == 0 <==> fs[s] == 0)
    ensures Kraft(InUse(fs), lens, MAX_BITS) == Fill(BlCount(lens), MAX_BITS)
    decreases |lens|
  {
    hide Fill, Kraft, Pow2, Count;
    if lens == [] {
      NoCounts();
    } else {
      var n := |lens| - 1;
      var l, b := lens[..n], lens[n];
      KraftIsFill(fs[..n], l);
      KraftEnd(InUse(fs), lens, MAX_BITS);
      assert InUse(fs)[..n] == InUse(fs[..n]);
      CountsEnd(lens);
      if b > 0 {
        FillOne(BlCount(l), b, MAX_BITS);
        HalfPow(MAX_BITS, b);
      }
    }
  }

  lemma NoCounts()
    ensures Fill(BlCount([]), MAX_BITS) == 0 && Kraft(InUse([]), [], MAX_BITS) == 0
  {
    forall b | 1 <= b <= MAX_BITS ensures Count([], b) == 0 { NoneCounted([], b); }
    NoneFilled(BlCount([]), MAX_BITS);
  }

  lemma HalfPow(m: nat, b: nat)
    requires b <= m
    ensures Pow2(m + 1 - b) == 2 * Pow2(m - b)
  {
  }

  lemma CountsEnd(lens: seq<nat>)
    requires lens != [] && forall s :: 0 <= s < |lens| ==> lens[s] <= MAX_BITS
    ensures var n, blc := |lens| - 1, BlCount(lens[..|lens| - 1]);
            BlCount(lens) == if lens[n] == 0 then blc else blc[lens[n] := blc[lens[n]] + 1]
  {
  }

  lemma IsFeasible(fs: seq<nat>, lens: seq<nat>, max: nat)
    requires |fs| == |lens| && max <= MAX_BITS
             && forall s :: 0 <= s < |lens| ==> lens[s] <= max && (lens[s] == 0 <==> fs[s] == 0)
    requires Fill(BlCount(lens), MAX_BITS) == Pow2(MAX_BITS)
    ensures Feasible(InUse(fs), lens, max)
  {
    hide Fill, Kraft, Pow2, Count;
    KraftIsFill(fs, lens);
    FeasibleShrink(InUse(fs), lens, MAX_BITS, max);
  }

  /** An optimal code gives no more frequent symbol a longer code. */
  lemma OptimalMonotone(fs: seq<nat>, lens: seq<nat>, max: nat)
    requires |fs| == |lens| && Feasible(InUse(fs), lens, max) && Optimal(fs, lens)
    ensures Monotone(fs, lens)
  {
    hide Dot, Kraft;
    forall a, b | 0 <= a < |fs| && 0 <= b < |fs| && 0 < fs[a] < fs[b] ensures lens[a] >= lens[b] {
      if lens[a] < lens[b] {
        var r := Exchange(fs, Zeros(|fs|), InUse(fs), lens, max, a, b, 0);
        assert false;
      }
    }
  }

  // ----- more frequent symbols -----

  /** A more frequent symbol never has a longer code. */
  ghost predicate Monotone(fs: seq<nat>, lens: seq<nat>)
    requires |fs| == |lens|
  {
    forall a, b :: 0 <= a < |fs| && 0 <= b < |fs| && 0 < fs[a] < fs[b] ==> lens[a] >= lens[b]
  }

  lemma FallingMonotone(t: seq<CtData>, elems: nat, k: nat, rem: seq<nat>, fs: seq<nat>, lens: seq<nat>)
    requires k >= 1 && |fs| == |lens| == elems <= |t| && Forest(t, elems, k, rem, {elems + k - 1}, LeafSet(fs, elems))
    requires (forall s :: 0 <= s < elems ==> t[s].fc == fs[s]) && Falling(rem, lens)
    ensures Monotone(fs, lens)
  {
    hide Fathers, FatherSums;
    forall a, b | 0 <= a < elems && 0 <= b < elems && 0 < fs[a] < fs[b] ensures lens[a] >= lens[b] {
      assert IsNode(elems, k, LeafSet(fs, elems), a) && IsNode(elems, k, LeafSet(fs, elems), b);
      assert a in rem && b in rem;
      var i :| 0 <= i < |rem| && rem[i] == a;
      var j :| 0 <= j < |rem| && rem[j] == b;
    }
  }

  // ----- the result -----

  /** The tree of the frequencies `fs`: a complete code of at most `maxLength` bits with a
      code for every symbol in use, up to `maxCode`; and what it costs. */
  ghost predicate Built(d: Desc, fs: seq<nat>, t: seq<CtData>, maxCode: nat, lens: seq<nat>, opt: int, stat: int) {
    && DescOk(d) && |fs| == |lens| == d.elems <= |t| && maxCode < d.elems && lens[maxCode] > 0
    && (forall s :: 0 <= s < d.elems ==> t[s].dl == lens[s] <= d.maxLength && (fs[s] != 0 ==> lens[s] > 0))
    && (forall s :: maxCode < s < d.elems ==> lens[s] == 0)
    && LensOk(lens[..maxCode + 1]) && Fill(BlCount(lens[..maxCode + 1]), MAX_BITS) == Pow2(MAX_BITS)
    && CodesOk(t, lens[..maxCode + 1])
    && Billed(d, fs, lens, opt, stat)
  }

  lemma CodeLens(d: Desc, t: seq<CtData>, blc: seq<nat>, lens: seq<nat>, f1: seq<nat>, opt: int, stat: int,
                 maxCode: nat)
    requires DescOk(d) && Lengths(d, t, blc, lens, f1, opt, stat) && maxCode < d.elems
    requires IsMax(LeafSet(f1, d.elems), maxCode)
    ensures LensOf(t[..maxCode + 1]) == lens[..maxCode + 1] && blc == BlCount(lens[..maxCode + 1])
            && LensOk(lens[..maxCode + 1])
    ensures lens[maxCode] > 0 && forall s :: maxCode < s < d.elems ==> lens[s] == 0
  {
    hide Fill, Pow2, Count, Billed;
    forall s | 0 <= s < d.elems && lens[s] != 0 ensures s <= maxCode { assert s in LeafSet(f1, d.elems); }
    BlCountPrefix(lens, maxCode + 1);
  }

  lemma IsBuilt(d: Desc, f0: seq<nat>, f1: seq<nat>, t: seq<CtData>, t': seq<CtData>, blc: seq<nat>, maxCode: nat,
                lens: seq<nat>,
                heapLen: nat, heap: seq<nat>, opt1: int, stat1: int, opt2: int, stat2: int)
    requires NoExtra(d) && Lengths(d, t, blc, lens, f1, opt2, stat2) && maxCode < d.elems
             && IsMax(LeafSet(f1, d.elems), maxCode)
    requires |f0| == d.elems && Forced(f0, f1, d.stree, heapLen, opt1, stat1) && heapLen >= 2
             && Lists(heap, heapLen, LeafSet(f1, |f1|))
    requires CodesOk(t', lens[..maxCode + 1]) && |t'| == |t| && forall n :: maxCode < n < |t| ==> t'[n] == t[n]
    ensures Built(d, f0, t', maxCode, lens, opt1 + opt2, stat1 + stat2)
  {
    hide Fill, Pow2, Count, Billed, Sum, Dot;
    CodeLens(d, t, blc, lens, f1, opt2, stat2, maxCode);
    ForcedOnes(d, f0, f1, heapLen, opt1, stat1, lens, heap);
    ForcedBill(d, f0, f1, heapLen, lens, opt1, stat1, opt2, stat2);
  }

  /** One bit for each of two symbols. */
  ghost function Pair(n: nat, a: nat, b: nat): (lens: seq<nat>)
    ensures |lens| == n && forall s :: 0 <= s < n ==> lens[s] == if s == a || s == b then 1 else 0
  {
    seq(n, s => if s == a || s == b then 1 else 0)
  }

  /** How good the lengths are for the frequencies `fs` and the limit `max`. */
  ghost predicate Best(fs: seq<nat>, lens: seq<nat>, max: nat) {
    && |fs| == |lens| && Monotone(fs, lens)
    && (Two(fs) ==> forall s :: 0 <= s < |fs| ==> (lens[s] > 0 <==> fs[s] != 0))
    && (Two(fs) ==> (Optimal(fs, lens) <==> OptimalFits(fs, max)))
    && (Two(fs) && Sum(fs) < Fib(max + 3) ==> Optimal(fs, lens))
    && (forall u: nat :: Only(fs, u) ==> lens == Pair(|fs|, u, Next(u)))
    && ((forall s :: 0 <= s < |fs| ==> fs[s] == 0) ==> lens == Pair(|fs|, 0, 1))
  }

  lemma {:induction false} WeightsSum(t: seq<CtData>, fs: seq<nat>)
    requires |fs| <= |t| && forall s :: 0 <= s < |fs| ==> fs[s] == t[s].fc
    ensures Sum(Weights(t, LeafSet(fs, |fs|))) == Sum(fs)
  {
    var w := Weights(t, LeafSet(fs, |fs|));
    var zeros := w[|fs|..];
    assert w == fs + zeros;
    SumAppend(fs, zeros);
    SumZero(zeros);
  }
}
