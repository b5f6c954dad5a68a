/** What `gen_bitlen` knows after each step: the predicates and the pure steps behind
    the passes over the Huffman tree. */
module BitlenState {
  import opened Arith
  import opened Canonical
  import opened HuffPass
  import opened HuffLens
  import opened Overflow
  import opened Reassign
  import opened Symbols

  /** The extra bits of symbol `n`. */
  function XBits(extra: seq<nat>, base: nat, n: nat): (x: nat)
    requires n < base + |extra|
  {
    if n >= base then extra[n - base] else 0
  }

  ghost function XBitsSeq(extra: seq<nat>, base: nat, elems: nat): (x: seq<nat>)
    requires elems <= base + |extra|
    ensures |x| == elems && forall n :: 0 <= n < elems ==> x[n] == XBits(extra, base, n)
  {
    seq(elems, n requires 0 <= n < elems => XBits(extra, base, n))
  }

  /** The order of the visits is what the merge loop left in the heap array. */
  ghost predicate InHeap(heap: seq<nat>, sh: Shape) {
    && |heap| == HEAP_SIZE && 2 * sh.k + 1 <= HEAP_SIZE && |sh.rem| == 2 * sh.k
    && (forall j :: 0 <= j < 2 * sh.k ==> heap[HEAP_SIZE - 1 - j] == sh.rem[j])
    && heap[HEAP_SIZE - 1 - 2 * sh.k] == sh.elems + sh.k - 1
  }

  function FreqsOf(t: seq<CtData>): (r: seq<nat>)
    ensures |r| == |t| && forall i :: 0 <= i < |r| ==> r[i] == t[i].fc
  {
    seq(|t|, i requires 0 <= i < |t| => t[i].fc)
  }

  /** The lengths set by the first pass with the positions from `j` on visited. */
  ghost predicate PassLens(sh: Shape, t: seq<CtData>, bk: Book, j: nat) {
    && Ok(sh) && LenInv(sh, LensOf(t), j) && InnerLens(sh, LensOf(t), bk.il, j)
    && Leaves(sh, LensOf(t), bk.lens, j) && Leaves(sh, FreqsOf(t), bk.fd, j)
    && forall i :: 0 <= i < 2 * sh.k ==> sh.nf[i] == t[sh.rem[i]].fc
  }

  /** The length counts of the leaves visited so far, and the Kraft sum they make. */
  ghost predicate PassCounts(sh: Shape, bk: Book, blc: seq<nat>, over: nat, j: nat) {
    && KraftInv(sh, bk, blc, over, j) && blc[0] == 0
    && forall b :: 1 <= b <= MAX_BITS ==> blc[b] == Count(bk.lens, b)
  }

  lemma PassLensStep(sh: Shape, t: seq<CtData>, bk: Book, j: nat, b: nat, x: nat, nb: Book)
    requires PassLens(sh, t, bk, j) && 1 <= j && 1 <= b <= sh.max && x == sh.rem[j - 1]
    requires Inner(sh, j - 1) <= |bk.il| && nb.il == NextLens(bk.il, Inner(sh, j - 1), b)
    requires nb.lens == (if x < sh.elems then bk.lens[x := b] else bk.lens)
    requires nb.fd == (if x < sh.elems then bk.fd[x := sh.nf[j - 1]] else bk.fd)
    ensures PassLens(sh, t[x := CtData(t[x].fc, b)], nb, j - 1)
    ensures x < sh.elems ==> bk.fd[x] == 0 && bk.lens[x] == 0
  {
    var dl := LensOf(t);
    var t' := t[x := CtData(t[x].fc, b)];
    assert LensOf(t') == dl[x := b];
    assert FreqsOf(t') == FreqsOf(t) == FreqsOf(t)[x := sh.nf[j - 1]];
    LenStep(sh, dl, j, b);
    InnerLensStep(sh, dl, bk.il, j, b);
    LeavesStep(sh, dl, bk.lens, j, b);
    LeavesStep(sh, FreqsOf(t), bk.fd, j, sh.nf[j - 1]);
  }

  lemma PassCountsStep(sh: Shape, bk: Book, blc: seq<nat>, over: nat, j: nat, u: nat, v: nat, x: nat,
                       b: nat, blc': seq<nat>, over': nat, nb: Book)
    requires PassCounts(sh, bk, blc, over, j) && Visit(sh.idx, j, u, v) && sh.max >= 1
    requires b == Clamped(bk.il[u], sh.max) && over' == over + (if bk.il[u] == sh.max then 1 else 0)
    requires blc' == if v == |sh.idx| then blc[b := blc[b] + 1] else blc
    requires var r := NextBook(sh, bk, j, u, v, b); nb.il == r.il && nb.c == r.c && nb.e == r.e
    requires if v == |sh.idx| then x < |bk.lens| && bk.lens[x] == 0 && nb.lens == bk.lens[x := b]
               else nb.lens == bk.lens
    ensures PassCounts(sh, nb, blc', over', j - 1)
  {
    KraftStep(sh, bk, blc, over, j, u, v, b, blc', over');
    if v == |sh.idx| {
      forall c | 1 <= c <= MAX_BITS ensures blc'[c] == Count(bk.lens[x := b], c) {
        CountUpdate(bk.lens, x, b, c);
      }
    }
  }

  /** `tree_desc`, but for the tree itself; `stree` holds the static lengths if there are any. */
  datatype Desc = Desc(extra: seq<nat>, base: nat, elems: nat, maxLength: nat, stree: seq<nat>)

  predicate DescOk(d: Desc) {
    && 1 <= d.maxLength <= MAX_BITS && d.elems <= d.base + |d.extra| && (d.stree == [] || |d.stree| >= d.elems)
    && d.elems <= Pow2(d.maxLength)
  }

  /** What a symbol costs with the static tree: nothing is billed when there is none. */
  ghost function StaticCosts(d: Desc): (c: seq<nat>)
    requires DescOk(d)
    ensures |c| == d.elems
    ensures forall n :: 0 <= n < d.elems ==>
              c[n] == if d.stree == [] then 0 else d.stree[n] + XBits(d.extra, d.base, n)
  {
    seq(d.elems, n requires 0 <= n < d.elems =>
          if d.stree == [] then 0 else d.stree[n] + XBits(d.extra, d.base, n))
  }

  /** `opt_len` and `static_len` have been billed for the symbols `fd` at the lengths `lens`. */
  ghost predicate Billed(d: Desc, fd: seq<nat>, lens: seq<nat>, opt: int, stat: int)
    requires DescOk(d)
  {
    && |fd| == |lens| == d.elems
    && opt == Dot(fd, lens) + Dot(fd, XBitsSeq(d.extra, d.base, d.elems))
    && stat == Dot(fd, StaticCosts(d))
  }

  lemma BilledStep(d: Desc, fd: seq<nat>, lens: seq<nat>, opt: int, stat: int, n: nat, f: nat, b: nat)
    requires DescOk(d) && Billed(d, fd, lens, opt, stat) && n < d.elems && fd[n] == 0
    ensures var x := XBits(d.extra, d.base, n);
            Billed(d, fd[n := f], lens[n := b], opt + f * (b + x),
                   if d.stree == [] then stat else stat + f * (d.stree[n] + x))
  {
    var xs := XBitsSeq(d.extra, d.base, d.elems);
    DotLeaf(fd, lens, n, f, b);
    DotSet(fd, xs, n, f);
    DotSet(fd, StaticCosts(d), n, f);
    MulDist(f, b, xs[n]);
  }

  /** The depth of the node at position `i` in the tree, whose root is at position `2k`. */
  ghost function Depth(sh: Shape, i: nat): (d: nat)
    requires Ok(sh) && i <= 2 * sh.k
    decreases 2 * sh.k - i
  {
    if i == 2 * sh.k then 0 else
      assert OkAt(sh, i + 1);
      1 + Depth(sh, sh.idx[i / 2])
  }

  /** No node is deeper than the limit. */
  ghost predicate AllFit(sh: Shape)
    requires Ok(sh)
  {
    forall i :: 0 <= i < 2 * sh.k ==> Depth(sh, i) <= sh.max
  }

  /** The lengths of the internal nodes are their depths, clamped; the overflow count is 0 exactly
      if no node visited so far is too deep. */
  ghost predicate Overs(sh: Shape, il: seq<nat>, over: nat, j: nat)
    requires Ok(sh)
  {
    && |il| == sh.k
    && (forall u ::
        0 <= u < sh.k && sh.idx[u] >= j ==>
          il[u] == if Depth(sh, sh.idx[u]) <= sh.max then Depth(sh, sh.idx[u]) else sh.max)
    && (over == 0 <==> forall i :: j <= i < 2 * sh.k ==> Depth(sh, i) <= sh.max)
  }

  lemma OversStep(sh: Shape, il: seq<nat>, over: nat, j: nat, u: nat, v: nat, b: nat, over': nat)
    requires Ok(sh) && Overs(sh, il, over, j) && 1 <= j <= 2 * sh.k && u == (j - 1) / 2 && v == Inner(sh, j - 1)
             && v <= sh.k
    requires b == Clamped(il[u], sh.max) && over' == over + (if il[u] == sh.max then 1 else 0)
    ensures Overs(sh, NextLens(il, v, b), over', j - 1)
  {
    hide Depth;
    assert OkAt(sh, j);
    DepthIs(sh, j - 1);
    assert sh.idx[u] >= j;
    forall i | j - 1 <= i < 2 * sh.k && over' == 0 ensures Depth(sh, i) <= sh.max {}
    assert (forall i :: j - 1 <= i < 2 * sh.k ==> Depth(sh, i) <= sh.max) ==> Depth(sh, j - 1) <= sh.max;
  }

  lemma OversStart(sh: Shape, il: seq<nat>)
    requires Ok(sh) && |il| == sh.k && forall u :: 0 <= u < sh.k ==> il[u] == 0
    ensures Overs(sh, il, 0, 2 * sh.k)
  {
    forall u | 0 <= u < sh.k && sh.idx[u] >= 2 * sh.k ensures u == sh.k - 1 {}
  }

  lemma OversEnd(sh: Shape, il: seq<nat>, over: nat)
    requires Ok(sh) && Overs(sh, il, over, 0)
    ensures over == 0 <==> AllFit(sh)
  {
    hide Depth;
  }

  lemma DepthIs(sh: Shape, i: nat)
    requires Ok(sh) && i < 2 * sh.k
    ensures i / 2 < sh.k && i < sh.idx[i / 2] <= 2 * sh.k && Depth(sh, i) == 1 + Depth(sh, sh.idx[i / 2])
  {
    assert OkAt(sh, i + 1);
  }

  /** The invariant of the first pass with the positions from `j` on visited. */
  ghost predicate PassInv(sh: Shape, t: seq<CtData>, bk: Book, blc: seq<nat>, over: nat, j: nat) {
    && PassLens(sh, t, bk, j) && PassCounts(sh, bk, blc, over, j) && (over == 0 ==> CostInv(sh, bk, j))
       && Overs(sh, bk.il, over, j)
  }

  /** The bookkeeping after the visit of position `j - 1`. */
  ghost function VisitBook(sh: Shape, bk: Book, j: nat, u: nat, v: nat, b: nat, x: nat): (nb: Book)
    requires Visit(sh.idx, j, u, v) && b <= sh.max && j <= |sh.nf| == 2 * |sh.ff| && |sh.ff| == |sh.idx| == |bk.il|
    requires |bk.c.p| == |bk.c.full| == |bk.c.half| == |sh.idx| && |bk.e.p| == |bk.e.full| == |bk.e.half| == |sh.idx|
    requires v == |sh.idx| ==> x < |bk.lens| && x < |bk.fd|
  {
    var r := NextBook(sh, bk, j, u, v, b);
    var g := if |bk.g.p| == |bk.g.full| == |bk.g.half| == |sh.idx| then NextCost(sh, bk.g, j, u, v, b) else bk.g;
    if v == |sh.idx| then Book(r.il, r.c, r.e, g, bk.lens[x := b], bk.fd[x := sh.nf[j - 1]])
    else Book(r.il, r.c, r.e, g, bk.lens, bk.fd)
  }

  lemma VisitStep(sh: Shape, t: seq<CtData>, bk: Book, blc: seq<nat>, over: nat, j: nat, u: nat, v: nat, x: nat,
                  b: nat, blc': seq<nat>, over': nat, nb: Book)
    requires PassInv(sh, t, bk, blc, over, j) && 1 <= j && OkAt(sh, j)
    requires u == (j - 1) / 2 && v == Inner(sh, j - 1) && x == sh.rem[j - 1]
    requires b == Clamped(bk.il[u], sh.max) && over' == over + (if bk.il[u] == sh.max then 1 else 0)
    requires blc' == if v == |sh.idx| then blc[b := blc[b] + 1] else blc
    requires bk.il[u] <= sh.max && nb == VisitBook(sh, bk, j, u, v, b, x) && |bk.lens| == |bk.fd| == sh.elems
             && |bk.il| == |sh.idx| == sh.k
    ensures PassInv(sh, t[x := CtData(t[x].fc, b)], nb, blc', over', j - 1)
    ensures x < sh.elems ==> bk.fd[x] == 0
  {
    hide Sum, Dot, Fill, Count, Pow2, LenInv, InnerLens, Leaves, Rooms, Deep, Overs;
    OversStep(sh, bk.il, over, j, u, v, b, over');
    PassLensStep(sh, t, bk, j, b, x, nb);
    PassCountsStep(sh, bk, blc, over, j, u, v, x, b, blc', over', nb);
    if over' == 0 { CostStep(sh, bk, j, x, u, v, nb); }
  }

  /** The tree keeps its frequencies, and everything about the nodes that are not visited. */
  ghost predicate OnlyLens(t0: seq<CtData>, t: seq<CtData>, rem: seq<nat>) {
    && |t| == |t0|
    && (forall x :: 0 <= x < |t| ==> t[x].fc == t0[x].fc)
    && (forall x :: 0 <= x < |t| && x !in rem ==> t[x] == t0[x])
  }

  /** Where the visit of position `j - 1` takes its length from. */
  lemma FatherOf(sh: Shape, t: seq<CtData>, bk: Book, blc: seq<nat>, over: nat, j: nat)
    requires PassInv(sh, t, bk, blc, over, j) && 1 <= j
    ensures var u := (j - 1) / 2;
            && j - 1 < |sh.rem| && sh.rem[j - 1] < |t| && u < |bk.il| && sh.elems + u < |t|
               && t[sh.rem[j - 1]].dl == sh.elems + u
            && bk.il[u] == t[sh.elems + u].dl <= sh.max
  {
    hide PassCounts, CostInv, Leaves;
    assert OkAt(sh, j);
    LenStep(sh, LensOf(t), j, 1);
    if (j - 1) / 2 < sh.k - 1 { InnerAt(sh, (j - 1) / 2); }
  }

  /** The position of an internal node holds it. */
  lemma InnerAt(sh: Shape, u: nat)
    requires Ok(sh) && u < sh.k && sh.idx[u] < 2 * sh.k
    ensures sh.rem[sh.idx[u]] == sh.elems + u
  {
    assert OkAt(sh, sh.idx[u] + 1);
  }

  lemma PassAdvance(sh: Shape, t: seq<CtData>, bk: Book, blc: seq<nat>, over: nat, j: nat, n: nat,
                    b: nat, blc': seq<nat>, over': nat)
    returns (nb: Book)
    requires PassInv(sh, t, bk, blc, over, j) && 1 <= j && n == sh.rem[j - 1] && n < |t|
    requires sh.elems + (j - 1) / 2 < |t|
    requires b == Clamped(t[sh.elems + (j - 1) / 2].dl, sh.max)
    requires over' == over + (if t[sh.elems + (j - 1) / 2].dl + 1 > sh.max then 1 else 0)
    requires blc' == if n < sh.elems then blc[b := blc[b] + 1] else blc
    ensures PassInv(sh, t[n := CtData(t[n].fc, b)], nb, blc', over', j - 1)
    ensures if n < sh.elems
              then n < |bk.fd| == |bk.lens| && bk.fd[n] == 0 && nb.lens == bk.lens[n := b]
              && nb.fd == bk.fd[n := t[n].fc]
            else nb.lens == bk.lens && nb.fd == bk.fd
  {
    assert OkAt(sh, j);
    FatherOf(sh, t, bk, blc, over, j);
    var u, v := (j - 1) / 2, Inner(sh, j - 1);
    nb := VisitBook(sh, bk, j, u, v, b, n);
    VisitStep(sh, t, bk, blc, over, j, u, v, n, b, blc', over', nb);
  }

  // ----- the whole first pass -----

  ghost function FirstBook(sh: Shape): (bk: Book)
    requires sh.k >= 1
  {
    Book(seq(sh.k, _ => 0), PotStart(sh.k, Pow2(sh.max + 1), Pow2(sh.max)), PotStart(sh.k, 0, 0), PotStart(sh.k, 0, 0),
         seq(sh.elems, _ => 0), seq(sh.elems, _ => 0))
  }

  lemma {:induction false} NoneFilled(blc: seq<nat>, m: nat)
    requires m < |blc| && forall i :: 0 <= i < |blc| ==> blc[i] == 0
    ensures Fill(blc, m) == 0
  {
    if m > 0 { NoneFilled(blc, m - 1); }
  }

  lemma PassStartCounts(sh: Shape, blc: seq<nat>)
    requires Ok(sh) && |blc| == MAX_BITS + 1 && forall b :: 0 <= b <= MAX_BITS ==> blc[b] == 0
    ensures PassCounts(sh, FirstBook(sh), blc, 0, 2 * sh.k) && CostInv(sh, FirstBook(sh), 2 * sh.k)
  {
    hide Sum, Dot, Fill, Count, OkAt, PotInv;
    var bk := FirstBook(sh);
    PotStarts(sh.k, Pow2(sh.max + 1), Pow2(sh.max), sh.idx);
    PotStarts(sh.k, 0, 0, sh.idx);
    NoneFilled(blc, sh.max);
    forall b | 1 <= b <= MAX_BITS ensures Count(bk.lens, b) == 0 { NoneCounted(bk.lens, b); }
    DotZero(bk.fd, bk.lens);
    NothingVisited(sh.nf);
  }

  lemma NothingVisited(nf: seq<nat>)
    ensures Sum(nf[|nf|..]) == 0
  {
    assert nf[|nf|..] == [];
  }

  lemma PassStart(sh: Shape, t: seq<CtData>, blc: seq<nat>, d: Desc)
    requires Ok(sh) && |blc| == MAX_BITS + 1 && forall b :: 0 <= b <= MAX_BITS ==> blc[b] == 0
    requires DescOk(d) && d.elems == sh.elems
    requires sh.elems + sh.k <= |t| && t[sh.elems + sh.k - 1].dl == 0
    requires forall i ::
               0 <= i < 2 * sh.k ==>
                 sh.rem[i] < |t| && t[sh.rem[i]].dl == sh.elems + i / 2 && sh.nf[i] == t[sh.rem[i]].fc
    ensures PassInv(sh, t, FirstBook(sh), blc, 0, 2 * sh.k)
    ensures Billed(d, FirstBook(sh).fd, FirstBook(sh).lens, 0, 0)
  {
    hide Overs, PassCounts, CostInv, OkAt;
    PassStartCounts(sh, blc);
    var bk := FirstBook(sh);
    OversStart(sh, bk.il);
    DotZero(bk.fd, bk.lens);
    DotZero(bk.fd, XBitsSeq(d.extra, d.base, d.elems));
    DotZero(bk.fd, StaticCosts(d));
  }

  lemma OnlyLensRefl(t: seq<CtData>, rem: seq<nat>)
    ensures OnlyLens(t, t, rem)
  {
  }

  lemma HeapAt(heap: seq<nat>, sh: Shape, j: nat)
    requires InHeap(heap, sh) && 1 <= j <= 2 * sh.k
    ensures |heap| == HEAP_SIZE && j - 1 < |sh.rem| && heap[HEAP_SIZE - j] == sh.rem[j - 1]
  {
  }

  lemma OnlyLensTrans(t0: seq<CtData>, t1: seq<CtData>, t2: seq<CtData>, rem: seq<nat>, rem': seq<nat>)
    requires OnlyLens(t0, t1, rem') && OnlyLens(t1, t2, rem) && forall x :: x in rem ==> x in rem'
    ensures OnlyLens(t0, t2, rem')
  {
  }

  /** The root is not one of the nodes taken off the heap. */
  lemma RootApart(sh: Shape)
    requires Ok(sh)
    ensures forall i :: 0 <= i < 2 * sh.k ==> sh.rem[i] != sh.elems + sh.k - 1
  {
    forall i | 0 <= i < 2 * sh.k ensures sh.rem[i] != sh.elems + sh.k - 1 { assert OkAt(sh, i + 1); }
  }

  // ----- gen_bitlen -----

  /** What the first pass leaves behind. */
  lemma PassEnd(sh: Shape, t: seq<CtData>, bk: Book, blc: seq<nat>, over: nat)
    requires PassInv(sh, t, bk, blc, over, 0)
    requires sh.elems <= |t| && forall s :: 0 <= s < sh.elems && s !in sh.rem ==> t[s] == CtData(0, 0)
    ensures |bk.lens| == |bk.fd| == sh.elems && forall s :: 0 <= s < sh.elems ==> t[s] == CtData(bk.fd[s], bk.lens[s])
    ensures ToGive(sh.rem, bk.lens) && blc == BlCount(bk.lens)
    ensures forall s :: 0 <= s < sh.elems ==> bk.lens[s] <= sh.max
    ensures 2 * Fill(blc, sh.max) == Pow2(sh.max + 1) + over && 2 * blc[sh.max] >= over
    ensures over == 0 <==> AllFit(sh)
    ensures over == 0 ==> Dot(bk.fd, bk.lens) == Sum(sh.nf)
  {
    hide Overs, AllFit;
    OversEnd(sh, bk.il, over);
    PotEnd(bk.c, sh.idx);
    PotEnd(bk.e, sh.idx);
    if over == 0 {
      PotEnd(bk.g, sh.idx);
      assert sh.nf[0..] == sh.nf;
    }
    forall s | 0 <= s < sh.elems ensures t[s] == CtData(bk.fd[s], bk.lens[s]) && bk.lens[s] <= sh.max {
      if s in sh.rem { var i :| 0 <= i < |sh.rem| && sh.rem[i] == s; }
    }
    forall i, j | 0 <= i < j < |sh.rem| ensures sh.rem[i] != sh.rem[j] { assert OkAt(sh, j + 1); }
  }

  /** The overflow count of the first pass is twice the Kraft excess. */
  lemma ExcessStart(d: Desc, blc: seq<nat>, lens: seq<nat>, over: nat)
    requires DescOk(d) && |lens| == d.elems && blc == BlCount(lens)
             && forall s :: 0 <= s < |lens| ==> lens[s] <= d.maxLength
    requires 2 * Fill(blc, d.maxLength) == Pow2(d.maxLength + 1) + over && 2 * blc[d.maxLength] >= over
    ensures Excess(blc, d.maxLength, over)
  {
    hide Fill, Count, Sum;
    CountsBounded(lens, d.maxLength, blc);
  }

  lemma {:induction false} FillBeyond(blc: seq<nat>, m: nat, n: nat)
    requires m <= n < |blc| && Fill(blc, m) == Pow2(m) && forall b :: m < b <= n ==> blc[b] == 0
    ensures Fill(blc, n) == Pow2(n)
  {
    if m < n { FillBeyond(blc, m, n - 1); }
  }

  lemma {:induction false} NoneLonger(lens: seq<nat>, b: nat)
    requires forall i :: 0 <= i < |lens| ==> lens[i] < b
    ensures Count(lens, b) == 0
  {
    if lens != [] { NoneLonger(lens[..|lens| - 1], b); }
  }
  /** The lengths of a tree: they make a complete code of at most `maxLength` bits, they
      are what the tree and `bl_count` hold, and they are what has been billed. */
  ghost predicate Lengths(d: Desc, t: seq<CtData>, blc: seq<nat>, lens: seq<nat>, fs: seq<nat>, opt: int, stat: int)
    requires DescOk(d)
  {
    && |lens| == |fs| == d.elems <= |t|
    && (forall s ::
        0 <= s < d.elems ==> t[s] == CtData(fs[s], lens[s]) && lens[s] <= d.maxLength && (lens[s] == 0 <==> fs[s] == 0))
    && blc == BlCount(lens) && Fill(blc, MAX_BITS) == Pow2(MAX_BITS)
    && Billed(d, fs, lens, opt, stat)
  }

  lemma CountsBounded(lens: seq<nat>, m: nat, blc: seq<nat>)
    requires forall s :: 0 <= s < |lens| ==> lens[s] <= m
    requires m <= MAX_BITS && blc == BlCount(lens)
    ensures forall b :: m < b <= MAX_BITS ==> blc[b] == 0
    ensures Sum(blc) == NonZero(lens)
  {
    forall b | m < b <= MAX_BITS ensures blc[b] == 0 { NoneLonger(lens, b); }
    SumOfCounts(lens);
  }

  lemma {:induction false} LensBelow(lens: seq<nat>, m: nat, s: nat)
    requires s < |lens| && lens[s] <= MAX_BITS && forall b :: m < b <= MAX_BITS ==> BlCount(lens)[b] == 0
    ensures lens[s] <= m
  {
    assert lens[..|lens|] == lens;
    CountBefore(lens, s, |lens|);
    assert lens[s] > 0 ==> BlCount(lens)[lens[s]] == Count(lens, lens[s]);
  }

  lemma HandedLens(lens: seq<nat>, rem: seq<nat>, l0: seq<nat>, m: nat)
    requires |lens| == |l0| && m <= MAX_BITS && forall b :: m < b <= MAX_BITS ==> BlCount(lens)[b] == 0
    requires Sum(BlCount(lens)) == NonZero(l0) && forall s :: 0 <= s < |l0| ==> (lens[s] == 0 <==> l0[s] == 0)
    requires forall s :: 0 <= s < |lens| ==> lens[s] <= MAX_BITS
    ensures forall s :: 0 <= s < |lens| ==> lens[s] <= m
  {
    forall s | 0 <= s < |lens| ensures lens[s] <= m { LensBelow(lens, m, s); }
  }

  /** No symbol has a longer code than one taken off the heap before it. */
  ghost predicate Falling(rem: seq<nat>, lens: seq<nat>) {
    forall i, j :: 0 <= i < j < |rem| && rem[i] < |lens| && rem[j] < |lens| ==> lens[rem[i]] >= lens[rem[j]]
  }

  lemma UnusedKept(t0: seq<CtData>, t1: seq<CtData>, sh: Shape)
    requires Ok(sh) && OnlyLens(t0, t1, sh.rem + [sh.elems + sh.k - 1]) && sh.elems <= |t0|
    requires forall s :: 0 <= s < sh.elems && s !in sh.rem ==> t0[s] == CtData(0, 0)
    ensures forall s :: 0 <= s < sh.elems && s !in sh.rem ==> t1[s] == CtData(0, 0)
  {
  }

  lemma UsedSymbols(sh: Shape, t0: seq<CtData>, t1: seq<CtData>, fs: seq<nat>, lens: seq<nat>)
    requires Ok(sh) && OnlyLens(t0, t1, sh.rem + [sh.elems + sh.k - 1]) && |fs| == |lens| == sh.elems <= |t1|
    requires forall s :: 0 <= s < sh.elems ==> t1[s] == CtData(fs[s], lens[s])
    requires ToGive(sh.rem, lens)
    requires forall i :: 0 <= i < 2 * sh.k ==>
               sh.rem[i] < |t0| && t0[sh.rem[i]].fc == sh.nf[i] && (sh.rem[i] < sh.elems ==> sh.nf[i] != 0)
    requires forall s :: 0 <= s < sh.elems && s !in sh.rem ==> t0[s] == CtData(0, 0)
    ensures forall s :: 0 <= s < sh.elems ==> fs[s] == t0[s].fc && (lens[s] == 0 <==> fs[s] == 0)
  {
    forall s | 0 <= s < sh.elems ensures fs[s] == t0[s].fc && (lens[s] == 0 <==> fs[s] == 0) {
      assert t1[s].fc == t0[s].fc;
      if s in sh.rem { var i :| 0 <= i < |sh.rem| && sh.rem[i] == s; }
    }
  }

  lemma LengthsNow(d: Desc, t: seq<CtData>, blc: seq<nat>, lens: seq<nat>, fs: seq<nat>, opt: int, stat: int)
    requires DescOk(d) && |lens| == |fs| == d.elems <= |t| && blc == BlCount(lens) && Billed(d, fs, lens, opt, stat)
    requires forall s ::
               0 <= s < d.elems ==>
                 t[s] == CtData(fs[s], lens[s]) && lens[s] <= d.maxLength && (lens[s] == 0 <==> fs[s] == 0)
    requires 2 * Fill(blc, d.maxLength) == Pow2(d.maxLength + 1)
    ensures Lengths(d, t, blc, lens, fs, opt, stat)
  {
    CountsBounded(lens, d.maxLength, blc);
    FillBeyond(blc, d.maxLength, MAX_BITS);
  }

  lemma OrderInHeap(heap: seq<nat>, sh: Shape)
    requires InHeap(heap, sh)
    ensures |heap| == HEAP_SIZE && |sh.rem| == 2 * sh.k <= HEAP_SIZE
            && forall i :: 0 <= i < |sh.rem| ==> heap[HEAP_SIZE - 1 - i] == sh.rem[i]
  {
  }
}
