/** Code lengths from the Huffman tree: what `gen_bitlen`'s first pass has computed after
    each node, for the clamped lengths (Kraft sum) and the unclamped ones (cost). */
module HuffLens {
  import opened Arith
  import opened Canonical
  import opened HuffTree
  import opened HuffPass

  /** The visiting order of a finished tree: `rem` lists its nodes but for the root, sons
      `2u` and `2u + 1` of internal node `elems + u`, which stands at position `idx[u]`.
      `nf` holds the frequencies of the nodes of `rem`, `ff` those of the internal nodes. */
  datatype Shape = Shape(elems: nat, k: nat, rem: seq<nat>, idx: seq<nat>, max: nat, nf: seq<nat>, ff: seq<nat>)

  ghost predicate Ok(sh: Shape) {
    && sh.k >= 1 && 1 <= sh.max <= MAX_BITS
    && |sh.idx| == |sh.ff| == sh.k && |sh.rem| == |sh.nf| == 2 * sh.k
    && sh.idx[sh.k - 1] == 2 * sh.k && (forall u :: 0 <= u < sh.k - 1 ==> sh.idx[u] < 2 * sh.k)
    && forall j :: 1 <= j <= 2 * sh.k ==> OkAt(sh, j)
  }

  /** The internal node at position `i`, or `k` for a leaf. */
  ghost function Inner(sh: Shape, i: nat): (v: nat)
    requires i < |sh.rem|
  {
    if sh.rem[i] >= sh.elems then sh.rem[i] - sh.elems else sh.k
  }

  /** The visit of position `j - 1`. */
  ghost predicate OkAt(sh: Shape, j: nat)
    requires |sh.idx| == |sh.ff| == sh.k && |sh.rem| == |sh.nf| == 2 * sh.k && 1 <= j <= 2 * sh.k
  {
    var x, u, v := sh.rem[j - 1], (j - 1) / 2, Inner(sh, j - 1);
    && x < sh.elems + sh.k - 1 && Visit(sh.idx, j, u, v) && x != sh.elems + u
    && (v < sh.k ==> sh.nf[j - 1] == sh.ff[v])
    && sh.ff[u] == sh.nf[2 * u] + sh.nf[2 * u + 1]
    && forall i :: 0 <= i < 2 * sh.k && i != j - 1 ==> sh.rem[i] != x
  }

  // ----- the shape of a finished merge -----

  /** Every internal node but the root was taken off the heap. */
  lemma {:induction false} Positions(t: seq<CtData>, elems: nat, k: nat, rem: seq<nat>, leaves: set<nat>, n: nat)
    returns (idx: seq<nat>)
    requires k >= 1 && n <= k - 1 && Forest(t, elems, k, rem, {elems + k - 1}, leaves)
    ensures |idx| == n
    ensures forall u :: 0 <= u < n ==> 2 * u + 1 < idx[u] < 2 * k && rem[idx[u]] == elems + u
  {
    if n == 0 {
      idx := [];
    } else {
      idx := Positions(t, elems, k, rem, leaves, n - 1);
      assert IsNode(elems, k, leaves, elems + n - 1);
      var i :| 0 <= i < |rem| && rem[i] == elems + n - 1;
      idx := idx + [i];
    }
  }

  ghost function NodeFreqs(t: seq<CtData>, rem: seq<nat>): (f: seq<nat>)
    requires forall j :: 0 <= j < |rem| ==> rem[j] < |t|
    ensures |f| == |rem| && forall j :: 0 <= j < |rem| ==> f[j] == t[rem[j]].fc
  {
    seq(|rem|, j requires 0 <= j < |rem| => t[rem[j]].fc)
  }

  ghost function FatherFreqs(t: seq<CtData>, elems: nat, k: nat): (f: seq<nat>)
    requires elems + k <= |t|
    ensures |f| == k && forall u :: 0 <= u < k ==> f[u] == t[elems + u].fc
  {
    var inner := t[elems .. elems + k];
    seq(k, u requires 0 <= u < k => inner[u].fc)
  }

  lemma ShapeOf(t: seq<CtData>, elems: nat, k: nat, rem: seq<nat>, leaves: set<nat>, max: nat) returns (sh: Shape)
    requires k >= 1 && 1 <= max <= MAX_BITS && Forest(t, elems, k, rem, {elems + k - 1}, leaves)
    ensures Ok(sh) && sh.elems == elems && sh.k == k && sh.rem == rem && sh.max == max
    ensures sh.nf == NodeFreqs(t, rem) && sh.ff == FatherFreqs(t, elems, k)
  {
    var idx := Positions(t, elems, k, rem, leaves, k - 1);
    sh := Shape(elems, k, rem, idx + [2 * k], max, NodeFreqs(t, rem), FatherFreqs(t, elems, k));
    forall j | 1 <= j <= 2 * k ensures OkAt(sh, j) {
      ShapeAt(t, leaves, sh, j);
    }
  }

  lemma VisitAt(elems: nat, k: nat, rem: seq<nat>, leaves: set<nat>, idx: seq<nat>, j: nat)
    requires k >= 1 && |idx| == k && |rem| == 2 * k && 1 <= j <= 2 * k && idx[k - 1] == 2 * k
    requires Partition(elems, k, rem, {elems + k - 1}, leaves)
    requires forall u :: 0 <= u < k - 1 ==> 2 * u + 1 < idx[u] < 2 * k && rem[idx[u]] == elems + u
    ensures var x := rem[j - 1];
            x < elems + k - 1 && Visit(idx, j, (j - 1) / 2, if x >= elems then x - elems else k)
            && x != elems + (j - 1) / 2
  {
    var x := rem[j - 1];
    assert IsNode(elems, k, leaves, x) && x != elems + k - 1;
    if x >= elems { assert rem[idx[x - elems]] == x; }
  }

  lemma ShapeAt(t: seq<CtData>, leaves: set<nat>, sh: Shape, j: nat)
    requires sh.k >= 1 && |sh.idx| == |sh.ff| == sh.k && |sh.rem| == |sh.nf| == 2 * sh.k && 1 <= j <= 2 * sh.k
    requires Forest(t, sh.elems, sh.k, sh.rem, {sh.elems + sh.k - 1}, leaves)
    requires sh.nf == NodeFreqs(t, sh.rem) && sh.ff == FatherFreqs(t, sh.elems, sh.k) && sh.idx[sh.k - 1] == 2 * sh.k
    requires forall u :: 0 <= u < sh.k - 1 ==> 2 * u + 1 < sh.idx[u] < 2 * sh.k && sh.rem[sh.idx[u]] == sh.elems + u
    ensures OkAt(sh, j)
  {
    hide ByFreq, Fathers;
    VisitAt(sh.elems, sh.k, sh.rem, leaves, sh.idx, j);
    assert SonsSum(t, sh.elems, sh.rem, (j - 1) / 2);
  }

  // ----- the lengths -----

  /** Node lengths with the positions from `j` on visited; fathers in the others. */
  ghost predicate LenInv(sh: Shape, dl: seq<nat>, j: nat)
    requires Ok(sh)
  {
    && sh.elems + sh.k <= |dl| && j <= 2 * sh.k && dl[sh.elems + sh.k - 1] == 0
    && (forall i :: 0 <= i < 2 * sh.k ==> sh.rem[i] < |dl|)
    && (forall i :: j <= i < 2 * sh.k ==> 1 <= dl[sh.rem[i]] <= sh.max)
    && (forall i :: 0 <= i < j ==> dl[sh.rem[i]] == sh.elems + i / 2)
  }

  lemma LenStep(sh: Shape, dl: seq<nat>, j: nat, b: nat)
    requires Ok(sh) && LenInv(sh, dl, j) && 1 <= j && 1 <= b <= sh.max
    ensures sh.rem[j - 1] < |dl| && LenInv(sh, dl[sh.rem[j - 1] := b], j - 1)
    ensures dl[sh.rem[j - 1]] == sh.elems + (j - 1) / 2
  {
    assert OkAt(sh, j);
  }

  /** The bookkeeping of the pass: lengths of the internal nodes, the three potentials,
      and the lengths and frequencies of the leaves visited so far. */
  datatype Book = Book(il: seq<nat>, c: Pot, e: Pot, g: Pot, lens: seq<nat>, fd: seq<nat>)

  ghost predicate InnerLens(sh: Shape, dl: seq<nat>, il: seq<nat>, j: nat) {
    && |il| == sh.k == |sh.idx| && sh.elems + sh.k <= |dl|
    && forall u :: 0 <= u < sh.k && sh.idx[u] >= j ==> il[u] == dl[sh.elems + u]
  }

  lemma InnerLensStep(sh: Shape, dl: seq<nat>, il: seq<nat>, j: nat, b: nat)
    requires Ok(sh) && 1 <= j <= 2 * sh.k && InnerLens(sh, dl, il, j)
    ensures sh.rem[j - 1] < |dl| && Inner(sh, j - 1) <= |il|
    ensures InnerLens(sh, dl[sh.rem[j - 1] := b], NextLens(il, Inner(sh, j - 1), b), j - 1)
  {
    assert OkAt(sh, j);
  }

  /** A value per leaf visited, nothing for the other symbols. */
  ghost predicate Leaves(sh: Shape, all: seq<nat>, vals: seq<nat>, j: nat) {
    && |vals| == sh.elems
    && (forall i :: 0 <= i < |sh.rem| && sh.rem[i] < sh.elems ==>
          sh.rem[i] < |all| && vals[sh.rem[i]] == if i >= j then all[sh.rem[i]] else 0)
    && (forall s :: 0 <= s < sh.elems && s !in sh.rem ==> vals[s] == 0)
  }

  lemma LeavesStep(sh: Shape, all: seq<nat>, vals: seq<nat>, j: nat, b: nat)
    requires Ok(sh) && 1 <= j <= 2 * sh.k && Leaves(sh, all, vals, j) && sh.elems <= |all|
    ensures sh.rem[j - 1] < sh.elems ==>
              vals[sh.rem[j - 1]] == 0 && Leaves(sh, all[sh.rem[j - 1] := b], vals[sh.rem[j - 1] := b], j - 1)
    ensures sh.rem[j - 1] >= sh.elems && sh.rem[j - 1] < |all| ==> Leaves(sh, all[sh.rem[j - 1] := b], vals, j - 1)
  {
    assert OkAt(sh, j);
  }

  // ----- the Kraft sum -----

  ghost predicate KraftInv(sh: Shape, bk: Book, blc: seq<nat>, over: nat, j: nat) {
    && |blc| == MAX_BITS + 1 && sh.max <= MAX_BITS
    && Rooms(bk.c, bk.il, sh.idx, j, sh.max)
    && Sum(bk.c.p) + 2 * Fill(blc, sh.max) == Pow2(sh.max + 1) + over
    && Deep(bk.e, bk.il, sh.idx, j, sh.max)
    && Sum(bk.e.p) + 2 * blc[sh.max] >= over
  }

  lemma FillOne(blc: seq<nat>, b: nat, m: nat)
    requires 1 <= b <= m < |blc|
    ensures 2 * Fill(blc[b := blc[b] + 1], m) == 2 * Fill(blc, m) + Pow2(m + 1 - b)
  {
    FillUpdate(blc, b, blc[b] + 1, m);
    ShlAdd(blc[b], 1, m - b);
    ShlOne(m - b);
  }

  ghost function NextBook(sh: Shape, bk: Book, j: nat, u: nat, v: nat, b: nat): (r: Book)
    requires Visit(sh.idx, j, u, v) && b <= sh.max && |bk.il| == |sh.idx|
    requires |bk.c.p| == |bk.c.full| == |bk.c.half| == |sh.idx| && |bk.e.p| == |bk.e.full| == |bk.e.half| == |sh.idx|
  {
    bk.(il := NextLens(bk.il, v, b), c := NextRooms(bk.c, sh.idx, j, u, v, b, sh.max),
        e := NextDeep(bk.e, sh.idx, j, u, v, b, sh.max))
  }

  lemma KraftStep(sh: Shape, bk: Book, blc: seq<nat>, over: nat, j: nat, u: nat, v: nat, b: nat, blc': seq<nat>,
                  over': nat)
    requires KraftInv(sh, bk, blc, over, j) && Visit(sh.idx, j, u, v) && sh.max >= 1
    requires b == Clamped(bk.il[u], sh.max) && over' == over + (if bk.il[u] == sh.max then 1 else 0)
    requires blc' == if v == |sh.idx| then blc[b := blc[b] + 1] else blc
    ensures KraftInv(sh, NextBook(sh, bk, j, u, v, b), blc', over', j - 1)
  {
    RoomsStep(bk.c, bk.il, sh.idx, j, u, v, sh.max);
    RoomsBalance(bk.c, bk.il, sh.idx, j, u, v, sh.max);
    DeepStep(bk.e, bk.il, sh.idx, j, u, v, sh.max);
    if v == |sh.idx| { FillOne(blc, b, sh.max); }
  }

  // ----- the cost of the lengths when none is clamped -----

  ghost function FirstFreqs(nf: seq<nat>): (f: seq<nat>)
    ensures |f| == |nf| / 2 && forall u :: 0 <= u < |f| ==> f[u] == nf[2 * u]
  {
    seq(|nf| / 2, u requires 0 <= u < |nf| / 2 => nf[2 * u])
  }

  /** Each node is counted once in the frequency of its father. */
  lemma {:induction false} TailMerged(t: seq<CtData>, elems: nat, k: nat, rem: seq<nat>, u: nat)
    requires FatherSums(t, elems, k, rem) && u <= k
    ensures Sum(NodeFreqs(t, rem)[2 * u..]) + Merged(t, elems, u) == Merged(t, elems, k)
    decreases k - u
  {
    if u < k {
      TailMerged(t, elems, k, rem, u + 1);
      assert SonsSum(t, elems, rem, u);
      SumFrom(NodeFreqs(t, rem), 2 * u);
      SumFrom(NodeFreqs(t, rem), 2 * u + 1);
    }
  }

  lemma SumFrom(s: seq<nat>, i: nat)
    requires i < |s|
    ensures Sum(s[i..]) == s[i] + Sum(s[i + 1..])
  {
    assert s[i..][1..] == s[i + 1..];
  }

  lemma DotLeaf(fd: seq<nat>, lens: seq<nat>, x: nat, f: nat, b: nat)
    requires |fd| == |lens| && x < |fd| && fd[x] == 0
    ensures Dot(fd[x := f], lens[x := b]) == Dot(fd, lens) + f * b
  {
    DotIgnore(fd, lens, x, b);
    DotSet(fd, lens[x := b], x, f);
  }

  /** What the visited leaves cost, and what the fathers still have to hand on. */
  ghost predicate CostInv(sh: Shape, bk: Book, j: nat) {
    && j <= |sh.nf| && |bk.fd| == |bk.lens|
    && Costs(bk.g, bk.il, sh.idx, j, sh.ff, FirstFreqs(sh.nf))
    && Sum(bk.g.p) + Dot(bk.fd, bk.lens) == Sum(sh.nf[j..])
  }

  ghost function NextCost(sh: Shape, g: Pot, j: nat, u: nat, v: nat, b: nat): (r: Pot)
    requires |g.p| == |g.full| == |g.half| == |sh.idx| == |sh.ff| && |sh.nf| == 2 * |sh.ff| && u < |sh.idx|
             && v <= |sh.idx| && j >= 1
  {
    NextCosts(g, sh.idx, j, u, v, b, sh.ff, FirstFreqs(sh.nf))
  }

  /** The bookkeeping of a visit of the leaf or node `x` in an unclamped tree. */
  ghost predicate CostVisit(sh: Shape, bk: Book, j: nat, x: nat, u: nat, v: nat, f: nat, nb: Book)
    requires u < |bk.il| && v <= |bk.il| && u < |sh.idx| && v <= |sh.idx| && j >= 1
    requires |bk.g.p| == |bk.g.full| == |bk.g.half| == |sh.idx| == |sh.ff| && |sh.nf| == 2 * |sh.ff|
  {
    var b := bk.il[u] + 1;
    && nb.il == NextLens(bk.il, v, b) && nb.g == NextCost(sh, bk.g, j, u, v, b)
    && (if v == |sh.idx|
        then x < |bk.fd| == |bk.lens| && bk.fd[x] == 0 && nb.lens == bk.lens[x := b] && nb.fd == bk.fd[x := f]
        else nb.lens == bk.lens && nb.fd == bk.fd)
  }

  lemma CostTotal(sh: Shape, bk: Book, j: nat, x: nat, u: nat, v: nat, f: nat, nb: Book)
    requires Costs(bk.g, bk.il, sh.idx, j, sh.ff, FirstFreqs(sh.nf)) && Visit(sh.idx, j, u, v)
    requires |sh.nf| == 2 * |sh.ff| && |bk.fd| == |bk.lens| && CostVisit(sh, bk, j, x, u, v, f, nb)
    requires v < |sh.idx| ==> f == sh.ff[v]
    requires if j == 2 * u + 1 then f == sh.nf[2 * u] else sh.ff[u] == sh.nf[2 * u] + f
    ensures |nb.fd| == |nb.lens| && Sum(nb.g.p) + Dot(nb.fd, nb.lens) == Sum(bk.g.p) + Dot(bk.fd, bk.lens) + f
  {
    CostsBalance(bk.g, bk.il, sh.idx, j, u, v, sh.ff, FirstFreqs(sh.nf), f);
    if v == |sh.idx| { DotLeaf(bk.fd, bk.lens, x, f, bk.il[u] + 1); }
  }

  /** One more bit for every symbol below the visited node. */
  lemma CostStep(sh: Shape, bk: Book, j: nat, x: nat, u: nat, v: nat, nb: Book)
    requires CostInv(sh, bk, j) && Visit(sh.idx, j, u, v) && j <= |sh.nf| == 2 * |sh.ff| && |sh.ff| == |sh.idx|
    requires v < |sh.idx| ==> sh.nf[j - 1] == sh.ff[v]
    requires sh.ff[u] == sh.nf[2 * u] + sh.nf[2 * u + 1]
    requires CostVisit(sh, bk, j, x, u, v, sh.nf[j - 1], nb)
    ensures CostInv(sh, nb, j - 1)
  {
    CostsStep(bk.g, bk.il, sh.idx, j, u, v, sh.ff, FirstFreqs(sh.nf));
    CostTotal(sh, bk, j, x, u, v, sh.nf[j - 1], nb);
    SumFrom(sh.nf, j - 1);
  }

  lemma {:induction false} NoneCounted(lens: seq<nat>, b: nat)
    requires b >= 1 && forall i :: 0 <= i < |lens| ==> lens[i] == 0
    ensures Count(lens, b) == 0
  {
    if lens != [] { NoneCounted(lens[..|lens| - 1], b); }
  }
}
