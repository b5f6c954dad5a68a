/** The bit lengths that `flush_block` compares are the lengths of the bits it would send. */
module BlockCost {
  import opened Arith
  import opened Bits
  import opened BitlenState
  import opened BlockCode
  import opened Canonical
  import opened HeaderCode
  import opened HuffResult
  import opened Inflate
  import opened Record
  import opened RunLengths
  import opened Symbols
  import opened Tallies
  import opened Tokens
  import opened TreeScan

  /** `extra_blbits`. */
  function ExtraBlBits(): (r: seq<nat>)
    ensures |r| == BL_CODES && forall s :: 0 <= s < BL_CODES ==> r[s] == ExtraBits(s)
  {
    seq(BL_CODES, s requires 0 <= s < BL_CODES => ExtraBits(s))
  }

  /** `l_desc`, `d_desc` and `bl_desc`. */
  function LDesc(): (d: Desc) { Desc(EXTRA_LBITS, LITERALS + 1, L_CODES, MAX_BITS, FixedLit()) }
  function DDesc(): (d: Desc) { Desc(EXTRA_DBITS, 0, D_CODES, MAX_BITS, FixedDist()) }
  function BlDesc(): (d: Desc) { Desc(ExtraBlBits(), 0, BL_CODES, 7, []) }

  lemma DescsOk()
    ensures NoExtra(LDesc()) && NoExtra(DDesc()) && NoExtra(BlDesc())
  {
    hide Pow2;
    Pow2Consts();
    assert EXTRA_DBITS[0] == 0 && EXTRA_DBITS[1] == 0 && EXTRA_DBITS[2] == 0;
  }

  // ----- data -----

  /** A symbol costs its code and its extra bits. */
  ghost predicate Priced(lens: seq<nat>, extra: seq<nat>, base: nat, c: seq<nat>) {
    |c| <= base + |extra| && forall s :: 0 <= s < |c| && Coded(lens, s) ==> c[s] == lens[s] + XBits(extra, base, s)
  }

  lemma LengthPrice(ll: seq<nat>, lc: seq<nat>, len: nat)
    requires MIN_MATCH <= len <= MAX_MATCH && Coded(ll, 257 + LengthCode(len))
    requires |lc| == L_CODES && Priced(ll, EXTRA_LBITS, 257, lc)
    ensures 257 + LengthCode(len) < L_CODES && |LengthBits(ll, len)| == lc[257 + LengthCode(len)]
  {
    hide LengthCode, LsbBits, Code;
    LengthCodeOk(len);
  }

  lemma DistPrice(dl: seq<nat>, dc: seq<nat>, dist: nat)
    requires 1 <= dist <= WSIZE && Coded(dl, DistCode(dist))
    requires |dc| == D_CODES && Priced(dl, EXTRA_DBITS, 0, dc)
    ensures DistCode(dist) < D_CODES && |DistBits(dl, dist)| == dc[DistCode(dist)]
  {
    hide DistCode, LsbBits, Code;
    DistCodeOk(dist);
  }

  ghost predicate SymsOk(toks: seq<Token>) {
    AllOk(toks) && Below(LSyms(toks), L_CODES) && Below(DSyms(toks), D_CODES)
  }

  lemma TokenPrice(ll: seq<nat>, dl: seq<nat>, lc: seq<nat>, dc: seq<nat>, t: Token)
    requires Codable(ll, dl, t) && |lc| == L_CODES && |dc| == D_CODES
    requires Priced(ll, EXTRA_LBITS, 257, lc) && Priced(dl, EXTRA_DBITS, 0, dc)
    ensures LSym(t) < L_CODES && (t.Match? ==> DistCode(t.dist) < D_CODES)
    ensures |TokenBits(ll, dl, t)| == lc[LSym(t)] + if t.Match? then dc[DistCode(t.dist)] else 0
  {
    hide LengthCode, DistCode, LengthBits, DistBits, Code, Priced;
    match t
    case Lit(b) => LiteralPrice(ll, lc, b);
    case Match(len, dist) =>
      LengthPrice(ll, lc, len);
      DistPrice(dl, dc, dist);
  }

  lemma LiteralPrice(ll: seq<nat>, lc: seq<nat>, s: nat)
    requires Coded(ll, s) && s <= END_BLOCK && |lc| == L_CODES && Priced(ll, EXTRA_LBITS, 257, lc)
    ensures lc[s] == ll[s]
  {
  }

  /** The length of a block's data is the cost of its symbols. */
  lemma {:induction false} DataPrice(ll: seq<nat>, dl: seq<nat>, lc: seq<nat>, dc: seq<nat>, toks: seq<Token>)
    requires AllCodable(ll, dl, toks) && Coded(ll, END_BLOCK) && |lc| == L_CODES && |dc| == D_CODES
    requires Priced(ll, EXTRA_LBITS, 257, lc) && Priced(dl, EXTRA_DBITS, 0, dc) && SymsOk(toks)
    ensures |DataBits(ll, dl, toks)| + ll[END_BLOCK] == Cost(LSyms(toks), lc) + Cost(DSyms(toks), dc)
    decreases |toks|
  {
    hide Codable, TokenBits, LSym, Priced, LSyms, DSyms;
    if toks == [] {
      NoSyms(toks, lc, dc);
      LiteralPrice(ll, lc, END_BLOCK);
    } else {
      var rest, t := toks[..|toks| - 1], toks[|toks| - 1];
      assert toks == rest + [t];
      SymsStep(rest, t);
      BelowPrefix(LSyms(rest), [LSym(t)], L_CODES);
      BelowPrefix(DSyms(rest), if t.Match? then [DistCode(t.dist)] else [], D_CODES);
      DataPrice(ll, dl, lc, dc, rest);
      TokenPrice(ll, dl, lc, dc, t);
      CostOne(LSyms(rest), LSym(t), lc);
      if t.Match? {
        CostOne(DSyms(rest), DistCode(t.dist), dc);
      } else {
        assert DSyms(rest) + [] == DSyms(rest);
      }
    }
  }

  lemma BelowPrefix(a: seq<nat>, b: seq<nat>, n: nat)
    requires Below(a + b, n)
    ensures Below(a, n) && Below(b, n)
  {
    forall i | 0 <= i < |a| ensures a[i] < n { assert (a + b)[i] == a[i]; }
    forall i | 0 <= i < |b| ensures b[i] < n { assert (a + b)[|a| + i] == b[i]; }
  }

  lemma NoSyms(toks: seq<Token>, lc: seq<nat>, dc: seq<nat>)
    requires toks == [] && |lc| == L_CODES && |dc| == D_CODES && AllOk(toks)
    ensures Below(LSyms(toks), L_CODES) && Cost(LSyms(toks), lc) == lc[END_BLOCK]
    ensures Below(DSyms(toks), D_CODES) && Cost(DSyms(toks), dc) == 0
  {
    hide LSym, DistCode;
    var none: seq<nat> := [];
    assert LSyms(toks) == none + [END_BLOCK];
    CostOne(none, END_BLOCK, lc);
  }

  // ----- run-length coded lengths -----

  lemma {:induction false} RunPrice(cl: seq<nat>, toks: seq<Tok>, c: seq<nat>)
    requires AllCoded(cl, toks) && |c| == BL_CODES && Below(Syms(toks), BL_CODES)
    requires forall s :: 0 <= s < BL_CODES && Coded(cl, s) ==> c[s] == cl[s] + ExtraBits(s)
    ensures |RunBits(cl, toks)| == Cost(Syms(toks), c)
    decreases |toks|
  {
    hide Coded, ExtraBits;
    if toks != [] {
      var n := |toks| - 1;
      var rest, t := toks[..n], toks[n];
      assert toks == rest + [t] && Syms(toks) == Syms(rest) + [t.sym];
      BelowPrefix(Syms(rest), [t.sym], BL_CODES);
      RunPrice(cl, rest, c);
      CostOne(Syms(rest), t.sym, c);
      RunBitsAppend(cl, rest, [t]);
      TokPrice(cl, t);
    }
  }

  lemma TokPrice(cl: seq<nat>, t: Tok)
    requires Coded(cl, t.sym)
    ensures AllCoded(cl, [t]) && |RunBits(cl, [t])| == cl[t.sym] + ExtraBits(t.sym)
  {
    assert [t][1..] == [];
  }

  // ----- sums of costs -----

  function Plus(a: seq<nat>, b: seq<nat>): (r: seq<nat>)
    requires |a| == |b|
    ensures |r| == |a| && forall i :: 0 <= i < |r| ==> r[i] == a[i] + b[i]
  {
    seq(|a|, i requires 0 <= i < |a| => a[i] + b[i])
  }

  lemma {:induction false} DotPlus(f: seq<nat>, a: seq<nat>, b: seq<nat>)
    requires |f| == |a| == |b|
    ensures Dot(f, Plus(a, b)) == Dot(f, a) + Dot(f, b)
    decreases |f|
  {
    if f != [] {
      DotPlus(f[1..], a[1..], b[1..]);
      assert Plus(a, b)[1..] == Plus(a[1..], b[1..]);
      MulDist(f[0], a[0], b[0]);
    }
  }

  /** What was billed for a tree is the cost of the symbols it was built for. */
  lemma BilledCost(d: Desc, syms: seq<nat>, lens: seq<nat>, opt: int, stat: int)
    requires DescOk(d) && Below(syms, d.elems) && Billed(d, Tally(syms, d.elems), lens, opt, stat)
    ensures opt == Cost(syms, Plus(lens, XBitsSeq(d.extra, d.base, d.elems))) && stat == Cost(syms, StaticCosts(d))
  {
    hide Dot, Tally, Cost, XBits;
    var xs := XBitsSeq(d.extra, d.base, d.elems);
    CostIsDot(syms, Plus(lens, xs));
    DotPlus(Tally(syms, d.elems), lens, xs);
    CostIsDot(syms, StaticCosts(d));
  }
}
