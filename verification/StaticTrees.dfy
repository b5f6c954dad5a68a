/** The static trees of `ct_init` are the fixed codes of section 3.2.6 of RFC 1951. */
module StaticTrees {
  import opened Arith
  import opened Bits
  import opened Canonical
  import opened Inflate
  import opened RunLengths
  import opened Symbols
  import opened BlockCode
  import opened Tables

  function FixedLen(n: nat): (l: nat) {
    if n < 144 then 8 else if n < 256 then 9 else if n < 280 then 7 else 8
  }

  lemma FixedAt(n: nat)
    requires n < 288
    ensures FixedLit()[n] == FixedLen(n)
  {
  }

  // ----- the fixed code is complete -----

  lemma {:induction false} CountRepeat(x: nat, n: nat, b: nat)
    ensures Count(Repeat(x, n), b) == if x == b then n else 0
  {
    if n > 0 {
      assert Repeat(x, n)[..n - 1] == Repeat(x, n - 1);
      CountRepeat(x, n - 1, b);
    }
  }

  lemma FixedCount(b: nat)
    ensures Count(FixedLit(), b) == if b == 7 then 24 else if b == 8 then 152 else if b == 9 then 112 else 0
  {
    hide Count;
    var p, q, r, s := Repeat(8, 144), Repeat(9, 112), Repeat(7, 24), Repeat(8, 8);
    CountSplit(p + q + r, s, b);
    CountSplit(p + q, r, b);
    CountSplit(p, q, b);
    CountRepeat(8, 144, b);
    CountRepeat(9, 112, b);
    CountRepeat(7, 24, b);
    CountRepeat(8, 8, b);
  }

  lemma {:induction false} FillZero(blc: seq<nat>, b: nat)
    requires b < |blc| && forall i :: 1 <= i <= b ==> blc[i] == 0
    ensures Fill(blc, b) == 0
  {
    if b > 0 { FillZero(blc, b - 1); }
  }

  lemma FillStep(blc: seq<nat>, b: nat)
    requires 1 <= b < |blc|
    ensures Fill(blc, b) == 2 * Fill(blc, b - 1) + blc[b]
  {
  }

  lemma FixedFill()
    ensures Fill(BlCount(FixedLit()), MAX_BITS) == Pow2(MAX_BITS)
  {
    hide Fill, FixedLit, Count;
    var blc := BlCount(FixedLit());
    forall b | 1 <= b <= MAX_BITS
      ensures blc[b] == if b == 7 then 24 else if b == 8 then 152 else if b == 9 then 112 else 0
    {
      FixedCount(b);
    }
    FillZero(blc, 6);
    FillStep(blc, 7);
    FillStep(blc, 8);
    FillStep(blc, 9);
    FillStep(blc, 10);
    FillStep(blc, 11);
    FillStep(blc, 12);
    FillStep(blc, 13);
    FillStep(blc, 14);
    FillStep(blc, 15);
    Pow2Consts();
  }

  lemma FixedLitOk()
    ensures LensOk(FixedLit())
  {
    hide Fill, Pow2;
    FixedFill();
  }

  lemma FixedDistFill()
    ensures NextCode(BlCount(FixedDist()), 5) == 0
    ensures Fill(BlCount(FixedDist()), MAX_BITS) == Pow2(MAX_BITS)
  {
    hide Fill, Count;
    var blc := BlCount(FixedDist());
    forall b | 1 <= b <= MAX_BITS ensures blc[b] == if b == 5 then 32 else 0 {
      CountRepeat(5, 32, b);
    }
    FillZero(blc, 4);
    FillStep(blc, 5);
    FillStep(blc, 6);
    FillStep(blc, 7);
    FillStep(blc, 8);
    FillStep(blc, 9);
    FillStep(blc, 10);
    FillStep(blc, 11);
    FillStep(blc, 12);
    FillStep(blc, 13);
    FillStep(blc, 14);
    FillStep(blc, 15);
    Pow2Consts();
  }

  lemma FixedDistOk()
    ensures LensOk(FixedDist())
  {
    hide Fill, Pow2;
    FixedDistFill();
  }

  /** The fixed distance code of `s` is `s` itself in five bits. */
  lemma FixedDistCode(s: nat)
    requires s < 32
    ensures Code(FixedDist(), s) == MsbBits(s, 5)
  {
    hide Fill, Count, MsbBits;
    FixedDistFill();
    assert FixedDist()[..s] == Repeat(5, s);
    CountRepeat(5, s, 5);
  }

  // ----- ct_init -----

  /** The first `n` lengths are set and counted. */
  ghost predicate LensSet(t: seq<CtData>, blc: seq<nat>, n: nat) {
    && n <= 288 == |t| && blc == BlCount(FixedLit()[..n])
    && forall i :: 0 <= i < n ==> t[i].dl == FixedLen(i)
  }

  lemma LensSetStep(t: seq<CtData>, blc: seq<nat>, n: nat)
    requires LensSet(t, blc, n) && n < 288
    ensures var l := FixedLen(n); |blc| == 16 && LensSet(t[n := t[n].(dl := l)], blc[l := blc[l] + 1], n + 1)
  {
    hide Count, FixedLit;
    FixedAt(n);
    CountStep(FixedLit(), n);
    var l := FixedLen(n);
    assert blc[l := blc[l] + 1] == BlCount(FixedLit()[..n + 1]);
  }

  /** One of the four loops: the symbols up to `last` get the length `len`. */
  method SetLens(tree: array<CtData>, blCount: array<nat>, first: nat, last: nat, len: nat) returns (n: nat)
    requires LensSet(tree[..], blCount[..], first) && first <= last < 288
    requires forall i :: first <= i <= last ==> FixedLen(i) == len
    modifies tree, blCount
    ensures n == last + 1 && LensSet(tree[..], blCount[..], n)
  {
    hide LensSet;
    n := first;
    while n <= last
      invariant first <= n <= last + 1 && LensSet(tree[..], blCount[..], n)
    {
      LensSetStep(tree[..], blCount[..], n);
      LensSetSizes(tree[..], blCount[..], n);
      tree[n] := tree[n].(dl := len);
      blCount[len] := blCount[len] + 1;
      n := n + 1;
    }
  }

  lemma LensSetSizes(t: seq<CtData>, blc: seq<nat>, n: nat)
    requires LensSet(t, blc, n)
    ensures |t| == 288 && |blc| == 16
  {
  }

  lemma LensSetStart(t: seq<CtData>, blc: seq<nat>)
    requires |t| == 288 && |blc| == 16 && forall b :: 0 <= b < 16 ==> blc[b] == 0
    ensures LensSet(t, blc, 0)
  {
    assert FixedLit()[..0] == [];
    assert blc == BlCount([]);
  }

  lemma LensSetAll(t: seq<CtData>, blc: seq<nat>)
    requires LensSet(t, blc, 288)
    ensures LensOf(t) == FixedLit() && blc == BlCount(FixedLit())
  {
    assert FixedLit()[..288] == FixedLit();
  }

  method InitStaticLtree(ltree: array<CtData>, blCount: array<nat>)
    requires ltree.Length == 288 && blCount.Length == 16 && forall b :: 0 <= b < 16 ==> blCount[b] == 0
    modifies ltree, blCount
    ensures CodesOk(ltree[..], FixedLit())
  {
    hide LensSet, FixedLit, LensOk, CodesOk, BlCount;
    LensSetStart(ltree[..], blCount[..]);
    var n := SetLens(ltree, blCount, 0, 143, 8);
    n := SetLens(ltree, blCount, n, 255, 9);
    n := SetLens(ltree, blCount, n, 279, 7);
    n := SetLens(ltree, blCount, n, 287, 8);
    LensSetAll(ltree[..], blCount[..]);
    FixedLitOk();
    assert ltree[..] == ltree[..287 + 1];
    GenCodes(ltree, L_CODES + 1, blCount, FixedLit());
  }

  method InitStaticDtree(dtree: array<CtData>)
    requires dtree.Length == D_CODES
    modifies dtree
    ensures forall s :: 0 <= s < D_CODES ==> Sendable(dtree[..], FixedDist(), s)
  {
    hide Code, MsbBits, LsbValue;
    var n := 0;
    while n < D_CODES
      invariant 0 <= n <= D_CODES
      invariant forall s :: 0 <= s < n ==> dtree[s].dl == 5 && dtree[s].fc == Reversed(FixedDist(), s)
    {
      var code := BiReverse(n, 5);
      FixedDistCode(n);
      dtree[n] := CtData(code, 5);
      n := n + 1;
    }
  }

  /** The tables, which nothing changes after `ct_init`. */
  datatype Fixed = Fixed(lengthCode: seq<nat>, baseLength: seq<nat>, distCode: seq<nat>, baseDist: seq<nat>,
                         ltree: seq<CtData>, dtree: seq<CtData>)

  /** Lengths and distances have the standard's codes, and the static trees are the fixed codes. */
  ghost predicate FixedOk(f: Fixed) {
    && LengthTables(f.lengthCode, f.baseLength) && DistTables(f.distCode, f.baseDist)
    && CodesOk(f.ltree, FixedLit())
    && |f.dtree| == D_CODES && forall s :: 0 <= s < D_CODES ==> Sendable(f.dtree, FixedDist(), s)
  }

  /** `ct_init`, but for the start of the first block. */
  method InitTables() returns (f: Fixed)
    ensures FixedOk(f)
  {
    hide LengthTables, DistTables, CodesOk, Sendable;
    var lengthCode, baseLength := new nat[256](_ => 0), new nat[LENGTH_CODES](_ => 0);
    InitLengths(lengthCode, baseLength);
    var distCode, baseDist := new nat[512](_ => 0), new nat[D_CODES](_ => 0);
    InitDists(distCode, baseDist);
    var ltree, dtree := new CtData[288](_ => CtData(0, 0)), new CtData[D_CODES](_ => CtData(0, 0));
    var blCount := new nat[MAX_BITS + 1](_ => 0);
    InitStaticLtree(ltree, blCount);
    InitStaticDtree(dtree);
    f := Fixed(lengthCode[..], baseLength[..], distCode[..], baseDist[..], ltree[..], dtree[..]);
  }
}
