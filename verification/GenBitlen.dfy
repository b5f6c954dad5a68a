/** `gen_bitlen`: code lengths from the Huffman tree, the repair of lengths that exceed
    the limit, and the predicted size of the block. */
module GenBitlen {
  import opened Arith
  import opened Canonical
  import opened HuffPass
  import opened HuffLens
  import opened Overflow
  import opened Reassign
  import opened BitlenState
  import opened Symbols

  /** The length of one node: one more than its father's, at most `maxLength`. */
  method VisitNode(tree: array<CtData>, n: nat, maxLength: nat) returns (bits: nat, clamped: bool)
    requires n < tree.Length && tree[n].dl < tree.Length
    modifies tree
    ensures var father := old(tree[tree[n].dl].dl);
            bits == Clamped(father, maxLength) && clamped == (father + 1 > maxLength)
    ensures tree[..] == old(tree[..])[n := CtData(old(tree[n].fc), bits)]
  {
    bits := tree[tree[n].dl].dl + 1;
    clamped := false;
    if bits > maxLength {
      bits := maxLength;
      clamped := true;
    }
    tree[n] := tree[n].(dl := bits);
  }

  /** One node of the first pass: its length, and if it is a leaf the counts and the bill. */
  method VisitAndBill(tree: array<CtData>, blCount: array<nat>, d: Desc, maxCode: nat, n: nat, overflow: nat, opt: int,
                      stat: int)
    returns (bits: nat, overflow': nat, opt': int, stat': int)
    requires DescOk(d) && blCount.Length == MAX_BITS + 1 && maxCode < d.elems
    requires n < tree.Length && tree[n].dl < tree.Length
    modifies tree, blCount
    ensures var father := old(tree[tree[n].dl].dl);
            bits == Clamped(father, d.maxLength) && overflow' == overflow + (if father + 1 > d.maxLength then 1 else 0)
    ensures tree[..] == old(tree[..])[n := CtData(old(tree[n].fc), bits)]
    ensures blCount[..]
              == if n <= maxCode then old(blCount[..])[bits := old(blCount[..])[bits] + 1] else old(blCount[..])
    ensures n > maxCode ==> opt' == opt && stat' == stat
    ensures n <= maxCode ==>
              var f, x := old(tree[n].fc), XBits(d.extra, d.base, n);
              opt' == opt + f * (bits + x) && stat' == if d.stree == [] then stat else stat + f * (d.stree[n] + x)
  {
    var clamped;
    bits, clamped := VisitNode(tree, n, d.maxLength);
    overflow' := if clamped then overflow + 1 else overflow;
    opt', stat' := opt, stat;
    if n > maxCode { return; }
    blCount[bits] := blCount[bits] + 1;
    var xbits := if n >= d.base then d.extra[n - d.base] else 0;
    var f := tree[n].fc;
    opt' := opt + f * (bits + xbits);
    if d.stree != [] { stat' := stat + f * (d.stree[n] + xbits); }
  }

  method PassOne(tree: array<CtData>, blCount: array<nat>, d: Desc, maxCode: nat, n: nat, overflow: nat, opt: int,
                 stat: int,
                 ghost sh: Shape, ghost bk: Book, ghost j: nat)
    returns (overflow': nat, opt': int, stat': int, ghost nb: Book)
    requires DescOk(d) && d.elems == sh.elems && d.maxLength == sh.max && blCount.Length == MAX_BITS + 1
             && maxCode < d.elems
    requires PassInv(sh, tree[..], bk, blCount[..], overflow, j) && 1 <= j && n == sh.rem[j - 1]
    requires n < sh.elems ==> n <= maxCode
    requires Billed(d, bk.fd, bk.lens, opt, stat)
    modifies tree, blCount
    ensures PassInv(sh, tree[..], nb, blCount[..], overflow', j - 1) && Billed(d, nb.fd, nb.lens, opt', stat')
    ensures OnlyLens(old(tree[..]), tree[..], sh.rem)
  {
    hide PassInv, Billed, Pow2, XBits, DescOk, Sum, Count;
    ghost var t0, blc0 := tree[..], blCount[..];
    FatherOf(sh, t0, bk, blc0, overflow, j);
    var bits;
    bits, overflow', opt', stat' := VisitAndBill(tree, blCount, d, maxCode, n, overflow, opt, stat);
    nb := PassAdvance(sh, t0, bk, blc0, overflow, j, n, bits, blCount[..], overflow');
    if n < sh.elems { BilledStep(d, bk.fd, bk.lens, opt, stat, n, t0[n].fc, bits); }
  }

  method ZeroCounts(blCount: array<nat>)
    requires blCount.Length == MAX_BITS + 1
    modifies blCount
    ensures forall b :: 0 <= b <= MAX_BITS ==> blCount[b] == 0
  {
    var bits := 0;
    while bits <= MAX_BITS
      invariant 0 <= bits <= MAX_BITS + 1 && forall b :: 0 <= b < bits ==> blCount[b] == 0
    {
      blCount[bits] := 0;
      bits := bits + 1;
    }
  }

  /** The loop of the first pass, from the sons of the root down. */
  method VisitAll(heap: array<nat>, heapMax: nat, tree: array<CtData>, blCount: array<nat>, d: Desc, maxCode: nat,
                  ghost sh: Shape, ghost bk0: Book)
    returns (overflow: nat, opt: int, stat: int, ghost bk: Book)
    requires DescOk(d) && d.elems == sh.elems && d.maxLength == sh.max && blCount.Length == MAX_BITS + 1
             && maxCode < d.elems
    requires heap != blCount && InHeap(heap[..], sh) && heapMax == HEAP_SIZE - 1 - 2 * sh.k
    requires forall i :: 0 <= i < 2 * sh.k && sh.rem[i] < sh.elems ==> sh.rem[i] <= maxCode
    requires PassInv(sh, tree[..], bk0, blCount[..], 0, 2 * sh.k) && Billed(d, bk0.fd, bk0.lens, 0, 0)
    modifies tree, blCount
    ensures PassInv(sh, tree[..], bk, blCount[..], overflow, 0) && Billed(d, bk.fd, bk.lens, opt, stat)
    ensures OnlyLens(old(tree[..]), tree[..], sh.rem)
  {
    hide PassInv, Billed, OnlyLens, InHeap, DescOk;
    overflow, opt, stat, bk := 0, 0, 0, bk0;
    ghost var hp, j, t0 := heap[..], 2 * sh.k, tree[..];
    OnlyLensRefl(t0, sh.rem);
    var h := heapMax + 1;
    while h < HEAP_SIZE
      invariant heapMax < h <= HEAP_SIZE && j == HEAP_SIZE - h && heap[..] == hp
      invariant PassInv(sh, tree[..], bk, blCount[..], overflow, j) && Billed(d, bk.fd, bk.lens, opt, stat)
      invariant OnlyLens(t0, tree[..], sh.rem)
    {
      ghost var t1 := tree[..];
      HeapAt(hp, sh, j);
      overflow, opt, stat, bk := PassOne(tree, blCount, d, maxCode, heap[h], overflow, opt, stat, sh, bk, j);
      OnlyLensTrans(t0, t1, tree[..], sh.rem, sh.rem);
      h, j := h + 1, j - 1;
    }
  }

  /** The first pass of `gen_bitlen`. */
  method FirstPass(heap: array<nat>, heapMax: nat, tree: array<CtData>, blCount: array<nat>, d: Desc, maxCode: nat,
                   ghost sh: Shape)
    returns (overflow: nat, opt: int, stat: int, ghost bk: Book)
    requires DescOk(d) && d.elems == sh.elems && d.maxLength == sh.max && blCount.Length == MAX_BITS + 1
             && maxCode < d.elems
    requires heap != blCount && Ok(sh) && InHeap(heap[..], sh) && heapMax == HEAP_SIZE - 1 - 2 * sh.k
    requires sh.elems + sh.k <= tree.Length
    requires forall i ::
               0 <= i < 2 * sh.k ==> sh.rem[i] < tree.Length && (sh.rem[i] < sh.elems ==> sh.rem[i] <= maxCode)
    requires forall i :: 0 <= i < 2 * sh.k ==> tree[sh.rem[i]] == CtData(sh.nf[i], sh.elems + i / 2)
    modifies tree, blCount
    ensures PassInv(sh, tree[..], bk, blCount[..], overflow, 0) && Billed(d, bk.fd, bk.lens, opt, stat)
    ensures OnlyLens(old(tree[..]), tree[..], sh.rem + [sh.elems + sh.k - 1])
  {
    hide PassInv, Billed, OkAt, FirstBook;
    ghost var t0 := tree[..];
    ZeroCounts(blCount);
    var root := heap[heapMax];
    assert root == sh.elems + sh.k - 1;
    tree[root] := tree[root].(dl := 0);
    ghost var t1 := tree[..];
    RootApart(sh);
    PassStart(sh, t1, blCount[..], d);
    overflow, opt, stat, bk := VisitAll(heap, heapMax, tree, blCount, d, maxCode, sh, FirstBook(sh));
    OnlyLensTrans(t0, t1, tree[..], sh.rem, sh.rem + [root]);
  }

  /** The second half of `gen_bitlen`, when the first pass had to clamp lengths. */
  method RepairLengths(heap: array<nat>, tree: array<CtData>, blCount: array<nat>, d: Desc, maxCode: nat, overflow: nat,
                       opt0: int, ghost stat: int, ghost rem: seq<nat>, ghost l0: seq<nat>, ghost fs: seq<nat>)
    returns (opt: int, ghost lens: seq<nat>)
    requires DescOk(d) && |l0| == |fs| == d.elems <= tree.Length && maxCode < d.elems && blCount.Length == MAX_BITS + 1
    requires heap != blCount && heap.Length == HEAP_SIZE && |rem| <= HEAP_SIZE
    requires forall i :: 0 <= i < |rem| ==> heap[HEAP_SIZE - 1 - i] == rem[i] && (rem[i] < |l0| ==> rem[i] <= maxCode)
    requires ToGive(rem, l0) && blCount[..] == BlCount(l0)
    requires forall s ::
               0 <= s < d.elems ==>
                 tree[s] == CtData(fs[s], l0[s]) && l0[s] <= d.maxLength && (l0[s] == 0 <==> fs[s] == 0)
    requires 2 * Fill(blCount[..], d.maxLength) == Pow2(d.maxLength + 1) + overflow
             && 2 * blCount[d.maxLength] >= overflow > 0
    requires Billed(d, fs, l0, opt0, stat)
    modifies tree, blCount
    ensures Lengths(d, tree[..], blCount[..], lens, fs, opt, stat)
    ensures Falling(rem, lens)
    ensures forall s :: d.elems <= s < tree.Length ==> tree[s] == old(tree[s])
  {
    hide Fill, Sum, Dot, Pow2, NonZero, Count, ToGive, Excess;
    CountsBounded(l0, d.maxLength, blCount[..]);
    ExcessStart(d, blCount[..], l0, overflow);
    Repair(blCount, d.maxLength, overflow);
    opt, lens := AssignAll(heap, tree, blCount, d.maxLength, maxCode, opt0, rem, l0, fs);
    FillBeyond(blCount[..], d.maxLength, MAX_BITS);
    HandedLens(lens, rem, l0, d.maxLength);
  }

  /** `gen_bitlen`: the lengths of a complete code within the limit; where no node of the tree is
      deeper than the limit their cost is that of the merges, and otherwise none is longer than that
      of a less frequent symbol. */
  method GenBitlen(heap: array<nat>, heapMax: nat, tree: array<CtData>, blCount: array<nat>, d: Desc, maxCode: nat,
                   ghost sh: Shape)
    returns (opt: int, stat: int, ghost lens: seq<nat>, ghost fs: seq<nat>)
    requires DescOk(d) && d.elems == sh.elems && d.maxLength == sh.max && blCount.Length == MAX_BITS + 1
             && maxCode < d.elems
    requires heap != blCount && Ok(sh) && InHeap(heap[..], sh) && heapMax == HEAP_SIZE - 1 - 2 * sh.k
    requires sh.elems + sh.k <= tree.Length
    requires forall i ::
               0 <= i < 2 * sh.k ==>
                 sh.rem[i] < tree.Length && (sh.rem[i] < sh.elems ==> sh.rem[i] <= maxCode && sh.nf[i] != 0)
    requires forall i :: 0 <= i < 2 * sh.k ==> tree[sh.rem[i]] == CtData(sh.nf[i], sh.elems + i / 2)
    requires forall s :: 0 <= s < sh.elems && s !in sh.rem ==> tree[s] == CtData(0, 0)
    modifies tree, blCount
    ensures Lengths(d, tree[..], blCount[..], lens, fs, opt, stat)
    ensures forall s :: 0 <= s < d.elems ==> fs[s] == old(tree[s].fc)
    ensures AllFit(sh) ==> Dot(fs, lens) == Sum(sh.nf)
    ensures !AllFit(sh) ==> Falling(sh.rem, lens)
  {
    hide PassInv, Billed, ToGive, Fill, Sum, Dot, Pow2, Ok, AllFit;
    ghost var t0 := tree[..];
    ghost var bk;
    var over;
    over, opt, stat, bk := FirstPass(heap, heapMax, tree, blCount, d, maxCode, sh);
    ghost var t1 := tree[..];
    UnusedKept(t0, t1, sh);
    PassEnd(sh, t1, bk, blCount[..], over);
    fs, lens := bk.fd, bk.lens;
    UsedSymbols(sh, t0, t1, fs, lens);
    if over == 0 {
      LengthsNow(d, t1, blCount[..], lens, fs, opt, stat);
      return;
    }
    OrderInHeap(heap[..], sh);
    opt, lens := RepairLengths(heap, tree, blCount, d, maxCode, over, opt, stat, sh.rem, lens, fs);
  }
}
