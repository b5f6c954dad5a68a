/** Building the trees of a block: the first half of `flush_block`, and `build_bl_tree`. */
module FlushTrees {
  import opened Arith
  import opened Bits
  import opened BitlenState
  import opened BlockCode
  import opened BlockCost
  import opened BlockTrees
  import opened BuildTree
  import opened Canonical
  import opened Coder
  import opened HeaderCode
  import opened HuffInit
  import opened HuffResult
  import opened Inflate
  import opened Record
  import opened RunLengths
  import opened StaticTrees
  import opened Symbols
  import opened Tallies
  import opened Tokens
  import opened TreeScan

  /** The bits of a block's data with its end. */
  ghost function Body(ll: seq<nat>, dl: seq<nat>, toks: seq<Token>): (r: Bits)
    requires AllCodable(ll, dl, toks) && Coded(ll, END_BLOCK)
  {
    DataBits(ll, dl, toks) + Code(ll, END_BLOCK)
  }

  lemma {:induction false} FixedCodable(toks: seq<Token>)
    requires AllOk(toks)
    ensures AllCodable(FixedLit(), FixedDist(), toks) && Coded(FixedLit(), END_BLOCK)
  {
    hide LengthCode, DistCode, FixedLit;
    forall i | 0 <= i < |toks| ensures Codable(FixedLit(), FixedDist(), toks[i]) {
      LSymBelow(toks[i]);
      FixedAt(LSym(toks[i]));
    }
    FixedAt(END_BLOCK);
  }

  /** What was billed for the static trees is the length of the data under the fixed codes. */
  lemma StaticPrice(toks: seq<Token>, lstat: int, dstat: int)
    requires SymsOk(toks) && DescOk(LDesc()) && DescOk(DDesc())
    requires lstat == Cost(LSyms(toks), StaticCosts(LDesc())) && dstat == Cost(DSyms(toks), StaticCosts(DDesc()))
    ensures AllCodable(FixedLit(), FixedDist(), toks) && Coded(FixedLit(), END_BLOCK)
    ensures lstat + dstat == |Body(FixedLit(), FixedDist(), toks)|
  {
    hide LSyms, DSyms, Cost, FixedLit, DataBits, DescOk, XBits;
    FixedCodable(toks);
    DataPrice(FixedLit(), FixedDist(), StaticCosts(LDesc()), StaticCosts(DDesc()), toks);
  }

  /** The trees of a block and its header are ready to be sent. */
  ghost predicate Ready(lt: seq<CtData>, dt: seq<CtData>, bt: seq<CtData>, toks: seq<Token>,
                        cl: seq<nat>, ll: seq<nat>, dl: seq<nat>, blcodes: nat) {
    && HeaderOk(cl, ll, dl, blcodes) && CodesOk(lt, ll) && CodesOk(dt, dl) && CodesOk(bt, cl)
    && Guarded(lt, ll) && Guarded(dt, dl) && AllCodable(ll, dl, toks) && Coded(ll, END_BLOCK)
  }

  /** The literal and the distance tree, and the bits the data takes with them. */
  method BuildBoth(c: Coder) returns (lmax: nat, dmax: nat, opt: int, stat: int, ghost ll: seq<nat>, ghost dl: seq<nat>)
    requires c.Sizes() && Frequent(c.toks, c.ltree[..], c.dtree[..]) && |c.toks| < 32768
    modifies c.ltree, c.dtree, c.heap, c.depth, c.blCount
    ensures lmax >= 256 && |ll| == lmax + 1 <= L_CODES && |dl| == dmax + 1 <= D_CODES
    ensures LensOk(ll) && LensOk(dl) && CodesOk(c.ltree[..], ll) && CodesOk(c.dtree[..], dl)
    ensures AllCodable(ll, dl, c.toks) && Coded(ll, END_BLOCK) && opt == |Body(ll, dl, c.toks)|
    ensures AllCodable(FixedLit(), FixedDist(), c.toks) && Coded(FixedLit(), END_BLOCK)
    ensures stat == |Body(FixedLit(), FixedDist(), c.toks)|
  {
    hide FixedOk, LSyms, DSyms, Tally, Cost, Sum, Freqs, Built, TreeFor, NoExtra, DescOk, FixedLit, FixedDist, XBits,
      Best,
      LensOk, CodesOk, DataBits, Code, Below;
    ghost var toks, ls, ds := c.toks, LSyms(c.toks), DSyms(c.toks);
    DescsOk();
    TallySum(ls, L_CODES);
    TallySum(ds, D_CODES);
    var lopt, lstat, dopt, dstat;
    ghost var l0, d0;
    lmax, lopt, lstat, l0 := BuildTree.BuildTree(LDesc(), c.ltree, c.heap, c.depth, c.blCount);
    DescFacts();
    BuiltTreeFor(LDesc(), ls, c.ltree[..], lmax, l0, lopt, lstat);
    ghost var lt := c.ltree[..];
    dmax, dopt, dstat, d0 := BuildTree.BuildTree(DDesc(), c.dtree, c.heap, c.depth, c.blCount);
    BuiltTreeFor(DDesc(), ds, c.dtree[..], dmax, d0, dopt, dstat);
    ghost var lc, dc := Plus(l0, XBitsSeq(EXTRA_LBITS, 257, L_CODES)), Plus(d0, XBitsSeq(EXTRA_DBITS, 0, D_CODES));
    ll, dl := l0[..lmax + 1], d0[..dmax + 1];
    TreesCode(toks, lt, lmax, ll, lc, lopt, c.dtree[..], dmax, dl, dc, dopt);
    TreeForFacts(LDesc(), ls, lt, lmax, ll, lc, lopt);
    TreeForFacts(DDesc(), ds, c.dtree[..], dmax, dl, dc, dopt);
    StaticPrice(toks, lstat, dstat);
    opt, stat := lopt + dopt, lstat + dstat;
  }

  lemma DescFacts()
    ensures DescOk(LDesc()) && DescOk(DDesc()) && DescOk(BlDesc())
  {
    DescsOk();
  }

  lemma TreeForFacts(d: Desc, syms: seq<nat>, t: seq<CtData>, maxCode: nat, lens: seq<nat>, c: seq<nat>, opt: int)
    requires TreeFor(d, syms, t, maxCode, lens, c, opt)
    ensures |lens| == maxCode + 1 <= d.elems && LensOk(lens) && CodesOk(t, lens)
  {
  }

  /** The bit length tree codes the runs of both trees, in full. */
  lemma BlTreeFacts(bt: seq<CtData>, m: nat, cl: seq<nat>, ll: seq<nat>, dl: seq<nat>, opt: int, stat: int)
    requires LensOk(ll) && LensOk(dl) && Coded(ll, END_BLOCK) && DescOk(BlDesc())
    requires Below(Syms(Runs(ll)) + Syms(Runs(dl)), BL_CODES)
    requires Built(BlDesc(), Tally(Syms(Runs(ll)) + Syms(Runs(dl)), BL_CODES), bt, m, cl, opt, stat)
    ensures |cl| == BL_CODES && LensOk(cl) && CodesOk(bt, cl) && forall i :: 0 <= i < BL_CODES ==> cl[i] < 8
    ensures AllCoded(cl, Runs(ll)) && AllCoded(cl, Runs(dl))
    ensures opt == |RunBits(cl, Runs(ll))| + |RunBits(cl, Runs(dl))| && stat == 0
    ensures exists k :: 3 <= k < |BL_ORDER| && cl[Ranked(k)] > 0
  {
    hide Runs, Tally, Cost, Billed, Fill, BlCount, CodesOk, Pow2, RunBits, ExtraBits, XBits, Ranked;
    var syms := Syms(Runs(ll)) + Syms(Runs(dl));
    WholeCode(BlDesc(), Tally(syms, BL_CODES), bt, m, cl, opt, stat);
    BuiltTreeFor(BlDesc(), syms, bt, m, cl, opt, stat);
    var c := Plus(cl, XBitsSeq(ExtraBlBits(), 0, BL_CODES));
    BlPrices(cl);
    forall s | s in syms ensures Coded(cl, s) {
      var i :| 0 <= i < |syms| && syms[i] == s;
      assert Coded(cl[..m + 1], syms[i]);
    }
    HeaderPrice(cl, ll, dl, c, opt);
    FreeStatic(syms);
    var i := SomeLength(ll, END_BLOCK);
    var k := LengthRank(Runs(ll)[i].sym);
    assert Coded(cl, Runs(ll)[i].sym);
  }

  lemma BlPrices(cl: seq<nat>)
    requires |cl| == BL_CODES
    ensures forall s ::
              0 <= s < BL_CODES && Coded(cl, s) ==>
                Plus(cl, XBitsSeq(ExtraBlBits(), 0, BL_CODES))[s] == cl[s] + ExtraBits(s)
  {
    hide ExtraBits;
  }

  /** Nothing is billed where there is no static tree. */
  lemma {:induction false} FreeStatic(syms: seq<nat>)
    requires DescOk(BlDesc()) && Below(syms, BL_CODES)
    ensures Cost(syms, StaticCosts(BlDesc())) == 0
    decreases |syms|
  {
    if syms != [] { FreeStatic(syms[..|syms| - 1]); }
  }

  /** `build_bl_tree`: the codes for the code lengths, and the bits the header takes. */
  method BuildBlTree(c: Coder, lmax: nat, dmax: nat, ghost ll: seq<nat>, ghost dl: seq<nat>)
    returns (maxBlindex: nat, opt: int, stat: int, ghost cl: seq<nat>)
    requires c.Sizes() && Counted(c.blTree[..], [])
    requires lmax >= 256 && |ll| == lmax + 1 <= L_CODES && |dl| == dmax + 1 <= D_CODES && Coded(ll, END_BLOCK)
    requires LensOk(ll) && LensOk(dl) && CodesOk(c.ltree[..], ll) && CodesOk(c.dtree[..], dl)
    modifies c.ltree, c.dtree, c.blTree, c.heap, c.depth, c.blCount
    ensures CodesOk(c.ltree[..], ll) && CodesOk(c.dtree[..], dl) && CodesOk(c.blTree[..], cl)
    ensures Guarded(c.ltree[..], ll) && Guarded(c.dtree[..], dl)
    ensures HeaderOk(cl, ll, dl, maxBlindex + 1) && opt == |HeaderBits(cl, ll, dl, maxBlindex + 1)| && stat == 0
  {
    hide FixedOk, Runs, Tally, Sum, Freqs, Built, NoExtra, Best, Fill, BlCount, Pow2, Reversed, Guarded, RunBits,
      Ranked, Below, DescOk;
    ghost var a, b := Syms(Runs(ll)), Syms(Runs(dl));
    ghost var lt, dt := c.ltree[..], c.dtree[..];
    ScanTree(c.ltree, lmax, c.blTree, ll, []);
    assert [] + a == a;
    ScanTree(c.dtree, dmax, c.blTree, dl, a);
    CodesGuarded(lt, c.ltree[..], ll);
    CodesGuarded(dt, c.dtree[..], dl);
    RunsShort(ll);
    RunsShort(dl);
    TallySum(a + b, BL_CODES);
    DescsOk();
    ghost var m;
    m, opt, stat, cl := BuildTree.BuildTree(BlDesc(), c.blTree, c.heap, c.depth, c.blCount);
    DescFacts();
    BlTreeFacts(c.blTree[..], m, cl, ll, dl, opt, stat);
    ghost var k :| 3 <= k < |BL_ORDER| && cl[Ranked(k)] > 0;
    assert c.blTree[..][Ranked(k)].dl == cl[Ranked(k)];
    maxBlindex := LastRank(c.blTree, k);
    assert forall r :: maxBlindex < r < |BL_ORDER| ==> c.blTree[..][Ranked(r)].dl == cl[Ranked(r)];
    opt := opt + 3 * (maxBlindex + 1) + 5 + 5 + 4;
  }

  /** The trees of the block, and the exact lengths of its two encodings. */
  method BuildTrees(c: Coder)
    returns (lmax: nat, dmax: nat, maxBlindex: nat, ghost cl: seq<nat>, ghost ll: seq<nat>, ghost dl: seq<nat>)
    requires c.Sizes() && Frequent(c.toks, c.ltree[..], c.dtree[..]) && |c.toks| < 32768
    requires Counted(c.blTree[..], []) && c.optLen == c.staticLen == 0
    modifies c`optLen, c`staticLen, c.ltree, c.dtree, c.blTree, c.heap, c.depth, c.blCount
    ensures |ll| == lmax + 1 && |dl| == dmax + 1
    ensures Ready(c.ltree[..], c.dtree[..], c.blTree[..], c.toks, cl, ll, dl, maxBlindex + 1)
    ensures c.optLen == |HeaderBits(cl, ll, dl, maxBlindex + 1)| + |Body(ll, dl, c.toks)|
    ensures AllCodable(FixedLit(), FixedDist(), c.toks) && Coded(FixedLit(), END_BLOCK)
    ensures c.staticLen == |Body(FixedLit(), FixedDist(), c.toks)|
  {
    hide FixedOk, Frequent, Counted, LensOk, CodesOk, Guarded, AllCodable, HeaderOk, HeaderBits, Body, FixedLit,
      FixedDist;
    var opt, stat;
    lmax, dmax, opt, stat, ll, dl := BuildBoth(c);
    c.optLen, c.staticLen := c.optLen + opt, c.staticLen + stat;
    maxBlindex, opt, stat, cl := BuildBlTree(c, lmax, dmax, ll, dl);
    c.optLen, c.staticLen := c.optLen + opt, c.staticLen + stat;
  }
}
