/** What the three trees of a block are good for once they are built. */
module BlockTrees {
  import opened Arith
  import opened Bits
  import opened BitlenState
  import opened BlockCode
  import opened BlockCost
  import opened Canonical
  import opened HeaderCode
  import opened HuffResult
  import opened Inflate
  import opened Record
  import opened RunLengths
  import opened Symbols
  import opened Tallies
  import opened Tokens
  import opened TreeScan

  /** A tree for `syms`: all of them have codes, and sending them takes `opt` bits. */
  ghost predicate TreeFor(d: Desc, syms: seq<nat>, t: seq<CtData>, maxCode: nat, lens: seq<nat>, c: seq<nat>,
                          opt: int) {
    && maxCode < d.elems && |lens| == maxCode + 1 && LensOk(lens) && CodesOk(t, lens) && Below(syms, d.elems)
    && (forall i :: 0 <= i < |syms| ==> Coded(lens, syms[i]))
    && |c| == d.elems && Priced(lens, d.extra, d.base, c) && opt == Cost(syms, c)
  }

  lemma BuiltTreeFor(d: Desc, syms: seq<nat>, t: seq<CtData>, maxCode: nat, lens: seq<nat>, opt: int, stat: int)
    requires DescOk(d) && Below(syms, d.elems) && Built(d, Tally(syms, d.elems), t, maxCode, lens, opt, stat)
    ensures |lens| == d.elems && maxCode < d.elems
    ensures TreeFor(d, syms, t, maxCode, lens[..maxCode + 1], Plus(lens, XBitsSeq(d.extra, d.base, d.elems)), opt)
    ensures stat == Cost(syms, StaticCosts(d))
  {
    hide Tally, Cost, XBits, Billed, Fill, BlCount, CodesOk, Pow2;
    BilledCost(d, syms, lens, opt, stat);
    forall i | 0 <= i < |syms| ensures Coded(lens[..maxCode + 1], syms[i]) {
      TallyPositive(syms, d.elems, syms[i]);
      assert lens[syms[i]] > 0;
    }
  }

  /** The guard after the lengths does no harm. */
  lemma CodesGuarded(t: seq<CtData>, t': seq<CtData>, lens: seq<nat>)
    requires CodesOk(t, lens) && |t| == |t'| && forall i :: 0 <= i < |lens| ==> t'[i] == t[i]
    ensures CodesOk(t', lens)
  {
  }

  /** The codes of a tree are those of all its lengths: unused symbols at the end do not count. */
  lemma WholeCode(d: Desc, fs: seq<nat>, t: seq<CtData>, maxCode: nat, lens: seq<nat>, opt: int, stat: int)
    requires Built(d, fs, t, maxCode, lens, opt, stat)
    ensures LensOk(lens) && CodesOk(t, lens) && forall i :: 0 <= i < |lens| ==> lens[i] <= d.maxLength
  {
    hide Billed, Fill, Pow2, Count, MsbBits, LsbValue;
    var pre := lens[..maxCode + 1];
    BlCountPrefix(lens, maxCode + 1);
    forall n | 0 <= n < |lens| && lens[n] > 0 ensures t[n].fc == Reversed(lens, n) {
      assert pre[..n] == lens[..n];
      assert CodeValue(pre, n) == CodeValue(lens, n);
    }
  }

  // ----- all tokens have codes -----

  lemma {:induction false} SymbolsIn(toks: seq<Token>, i: nat)
    requires AllOk(toks) && i < |toks|
    ensures LSym(toks[i]) == LSyms(toks)[i + 1]
    ensures toks[i].Match? ==> DistCode(toks[i].dist) in DSyms(toks)
    decreases |toks|
  {
    hide LSym, DistCode;
    if i + 1 < |toks| {
      SymbolsIn(toks[..|toks| - 1], i);
    }
  }

  /** The trees for a block's symbols code all its tokens. */
  lemma TreesCode(toks: seq<Token>, lt: seq<CtData>, lmax: nat, ll: seq<nat>, lc: seq<nat>, lopt: int,
                  dt: seq<CtData>, dmax: nat, dl: seq<nat>, dc: seq<nat>, dopt: int)
    requires AllOk(toks) && TreeFor(LDesc(), LSyms(toks), lt, lmax, ll, lc, lopt)
             && TreeFor(DDesc(), DSyms(toks), dt, dmax, dl, dc, dopt)
    ensures lmax >= 256 && Coded(ll, END_BLOCK) && AllCodable(ll, dl, toks)
    ensures lopt + dopt == |DataBits(ll, dl, toks)| + ll[END_BLOCK]
  {
    hide LSym, DistCode, LensOk, CodesOk, Priced, DSyms, Cost, DataBits;
    assert LSyms(toks)[0] == END_BLOCK;
    forall i | 0 <= i < |toks| ensures Codable(ll, dl, toks[i]) {
      SymbolsIn(toks, i);
      TokenCodable(ll, dl, toks[i]);
    }
    DataPrice(ll, dl, lc, dc, toks);
  }

  lemma TokenCodable(ll: seq<nat>, dl: seq<nat>, t: Token)
    requires TokenOk(t) && Coded(ll, LSym(t)) && (t.Match? ==> Coded(dl, DistCode(t.dist)))
    ensures Codable(ll, dl, t)
  {
    hide LengthCode, DistCode;
  }

  // ----- the bit length tree -----

  lemma {:induction false} OnlyRepeats(out: seq<nat>, toks: seq<Tok>)
    requires (forall i :: 0 <= i < |toks| ==> toks[i].sym >= 16) && (forall i :: 0 <= i < |out| ==> out[i] == 0)
    ensures Decode(out, toks).Lens? ==> forall i :: 0 <= i < |Decode(out, toks).lens| ==> Decode(out, toks).lens[i] == 0
    decreases |toks|
  {
    if toks != [] && Decode1(out, toks[0]).Lens? {
      OnlyRepeats(Decode1(out, toks[0]).lens, toks[1..]);
    }
  }

  /** A tree with a code in it needs a length symbol, not only repeats. */
  lemma SomeLength(lens: seq<nat>, n: nat) returns (i: nat)
    requires (forall k :: 0 <= k < |lens| ==> lens[k] <= MAX_BITS) && n < |lens| && lens[n] > 0
    ensures i < |Runs(lens)| && Runs(lens)[i].sym < 16
  {
    hide Runs, Decode;
    RunsDecode([], lens);
    assert [] + lens == lens;
    if forall k :: 0 <= k < |Runs(lens)| ==> Runs(lens)[k].sym >= 16 {
      OnlyRepeats([], Runs(lens));
      assert false;
    }
    i :| 0 <= i < |Runs(lens)| && Runs(lens)[i].sym < 16;
  }

  lemma RunsShort(lens: seq<nat>)
    requires forall k :: 0 <= k < |lens| ==> lens[k] <= MAX_BITS
    ensures |Runs(lens)| <= |lens| && Below(Syms(Runs(lens)), BL_CODES)
  {
    hide Runs, Decode;
    RunsDecode([], lens);
    assert [] + lens == lens;
    DecodeGrows([], Runs(lens));
    forall i | 0 <= i < |Runs(lens)| ensures Runs(lens)[i].sym < BL_CODES { assert TokOk(Runs(lens)[i]); }
  }

  /** Every run symbol of both trees has a code, and the header takes what was billed. */
  lemma HeaderPrice(cl: seq<nat>, ll: seq<nat>, dl: seq<nat>, c: seq<nat>, opt: int)
    requires |cl| == BL_CODES && (forall k :: 0 <= k < |ll| ==> ll[k] <= MAX_BITS)
             && (forall k :: 0 <= k < |dl| ==> dl[k] <= MAX_BITS)
    requires |c| == BL_CODES && Below(Syms(Runs(ll)) + Syms(Runs(dl)), BL_CODES)
    requires opt == Cost(Syms(Runs(ll)) + Syms(Runs(dl)), c)
    requires forall s :: s in Syms(Runs(ll)) + Syms(Runs(dl)) ==> Coded(cl, s)
    requires forall s :: 0 <= s < BL_CODES && Coded(cl, s) ==> c[s] == cl[s] + ExtraBits(s)
    ensures AllCoded(cl, Runs(ll)) && AllCoded(cl, Runs(dl))
    ensures opt == |RunBits(cl, Runs(ll))| + |RunBits(cl, Runs(dl))|
  {
    hide Runs, Coded, ExtraBits, RunBits, Cost;
    var a, b := Syms(Runs(ll)), Syms(Runs(dl));
    BelowPrefix(a, b, BL_CODES);
    forall i | 0 <= i < |Runs(ll)| ensures Coded(cl, Runs(ll)[i].sym) { assert a[i] in a + b; }
    forall i | 0 <= i < |Runs(dl)| ensures Coded(cl, Runs(dl)[i].sym) { assert b[i] in a + b; }
    CostAppend(a, b, c);
    RunPrice(cl, Runs(ll), c);
    RunPrice(cl, Runs(dl), c);
  }

  /** A length symbol has a rank after the three repeat symbols. */
  lemma LengthRank(s: nat) returns (k: nat)
    requires s < 16
    ensures 3 <= k < |BL_ORDER| && Ranked(k) == s
  {
    HasRank(s);
    k :| 0 <= k < |BL_ORDER| && BL_ORDER[k] == s;
  }

  /** The last rank with a code, which is not below 3. */
  method LastRank(blTree: array<CtData>, ghost k: nat) returns (m: nat)
    requires blTree.Length >= BL_CODES && 3 <= k < |BL_ORDER| && blTree[Ranked(k)].dl != 0
    ensures 3 <= m < |BL_ORDER|
    ensures forall r :: m < r < |BL_ORDER| ==> blTree[Ranked(r)].dl == 0
  {
    hide Ranked;
    m := BL_CODES - 1;
    while m >= 3
      invariant k <= m < |BL_ORDER| && forall r :: m < r < |BL_ORDER| ==> blTree[Ranked(r)].dl == 0
      decreases m
    {
      if blTree[Ranked(m)].dl != 0 { break; }
      m := m - 1;
    }
  }
}
