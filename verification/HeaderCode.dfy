/** The header of a dynamic block: the codes themselves, and that they are read back. */
module HeaderCode {
  import opened Arith
  import opened Bits
  import opened Canonical
  import opened RunLengths
  import opened Inflate
  import opened BlockCode

  // ----- run-length coded lengths -----

  ghost function TokBits(cl: seq<nat>, t: Tok): (r: Bits)
    requires Coded(cl, t.sym)
  {
    Code(cl, t.sym) + LsbBits(t.extra, ExtraBits(t.sym))
  }

  ghost predicate AllCoded(cl: seq<nat>, toks: seq<Tok>) {
    forall i :: 0 <= i < |toks| ==> Coded(cl, toks[i].sym)
  }

  ghost function RunBits(cl: seq<nat>, toks: seq<Tok>): (r: Bits)
    requires AllCoded(cl, toks)
    decreases |toks|
  {
    if toks == [] then [] else TokBits(cl, toks[0]) + RunBits(cl, toks[1..])
  }

  lemma {:induction false} RunBitsAppend(cl: seq<nat>, a: seq<Tok>, b: seq<Tok>)
    requires AllCoded(cl, a) && AllCoded(cl, b)
    ensures AllCoded(cl, a + b) && RunBits(cl, a + b) == RunBits(cl, a) + RunBits(cl, b)
    decreases |a|
  {
    hide TokBits, Coded;
    if a == [] {
      assert a + b == b;
    } else {
      assert (a + b)[1..] == a[1..] + b;
      RunBitsAppend(cl, a[1..], b);
      Assoc(TokBits(cl, a[0]), RunBits(cl, a[1..]), RunBits(cl, b));
    }
  }

  lemma TokBack(cl: seq<nat>, bits: Bits, pos: nat, t: Tok)
    requires LensOk(cl) && Coded(cl, t.sym) && TokOk(t) && At(bits, pos, TokBits(cl, t))
    ensures var p := pos + cl[t.sym];
            && ReadSymbol(cl, bits, pos) == Symbol(t.sym, p)
            && ReadNum(bits, p, ExtraBits(t.sym)) == Number(t.extra, pos + |TokBits(cl, t)|)
  {
    hide Code, LsbBits, LensOk, ReadSymbol, At, Pow2, ReadNum;
    AtSplit(bits, pos, Code(cl, t.sym), LsbBits(t.extra, ExtraBits(t.sym)));
    ReadBack(cl, bits, pos, t.sym);
    ReadNumBack(bits, pos + cl[t.sym], t.extra, ExtraBits(t.sym));
  }

  lemma {:induction false} DecodeGrows(out: seq<nat>, toks: seq<Tok>)
    requires Decode(out, toks).Lens?
    ensures |Decode(out, toks).lens| >= |out| + |toks|
    decreases |toks|
  {
    if toks != [] { DecodeGrows(Decode1(out, toks[0]).lens, toks[1..]); }
  }

  /** The lengths read from run-length coded symbols are what the symbols decode to. */
  lemma {:induction false} RunsBack(cl: seq<nat>, bits: Bits, pos: nat, toks: seq<Tok>, out: seq<nat>)
    requires LensOk(cl) && AllCoded(cl, toks) && (forall i :: 0 <= i < |toks| ==> TokOk(toks[i]))
    requires Decode(out, toks).Lens? && At(bits, pos, RunBits(cl, toks))
    ensures ReadLens(cl, bits, pos, |Decode(out, toks).lens|, out)
              == LensRead(Decode(out, toks).lens, pos + |RunBits(cl, toks)|)
    decreases |toks|
  {
    hide TokBits, Coded, LensOk, ReadSymbol, ReadNum, At, TokOk, Decode1;
    DecodeGrows(out, toks);
    if toks != [] {
      var b, o := TokBits(cl, toks[0]), Decode1(out, toks[0]).lens;
      AtSplit(bits, pos, b, RunBits(cl, toks[1..]));
      TokBack(cl, bits, pos, toks[0]);
      RunsBack(cl, bits, pos + |b|, toks[1..], o);
    }
  }

  // ----- the lengths of the bit length codes -----

  ghost function OrderedBits(cl: seq<nat>, k: nat, n: nat): (r: Bits)
    requires k <= n <= |BL_ORDER| && |cl| == BL_CODES
    ensures |r| == 3 * (n - k)
    decreases n - k
  {
    if k == n then [] else LsbBits(cl[Ranked(k)], 3) + OrderedBits(cl, k + 1, n)
  }

  /** The lengths of rank below `k`, and zeros. */
  ghost function Partial(cl: seq<nat>, k: nat): (r: seq<nat>)
    requires k <= |BL_ORDER| && |cl| == BL_CODES
    ensures |r| == BL_CODES
  {
    if k == 0 then Repeat(0, BL_CODES) else Partial(cl, k - 1)[Ranked(k - 1) := cl[Ranked(k - 1)]]
  }

  lemma {:induction false} OrderedBack(cl: seq<nat>, bits: Bits, pos: nat, k: nat, n: nat)
    requires k <= n <= |BL_ORDER| && |cl| == BL_CODES && forall i :: 0 <= i < BL_CODES ==> cl[i] < 8
    requires At(bits, pos, OrderedBits(cl, k, n))
    ensures ReadOrdered(bits, pos, k, n, Partial(cl, k)) == LensRead(Partial(cl, n), pos + 3 * (n - k))
    decreases n - k
  {
    hide At, ReadNum, LsbBits, Ranked;
    if k < n {
      var x := cl[Ranked(k)];
      AtSplit(bits, pos, LsbBits(x, 3), OrderedBits(cl, k + 1, n));
      Pow2Consts();
      ReadNumBack(bits, pos, x, 3);
      OrderedBack(cl, bits, pos + 3, k + 1, n);
    }
  }

  lemma {:induction false} PartialAt(cl: seq<nat>, k: nat, i: nat)
    requires k <= |BL_ORDER| && |cl| == BL_CODES && i < BL_CODES
    ensures Partial(cl, k)[i] == if i in BL_ORDER[..k] then cl[i] else 0
  {
    if k > 0 {
      PartialAt(cl, k - 1, i);
      assert BL_ORDER[..k] == BL_ORDER[..k - 1] + [BL_ORDER[k - 1]];
    }
  }

  /** Every bit length symbol has a rank. */
  lemma HasRank(i: nat)
    requires i < BL_CODES
    ensures i in BL_ORDER
  {
    var o := BL_ORDER;
    assert o[3] == 0 && o[17] == 1 && o[15] == 2 && o[13] == 3 && o[11] == 4 && o[9] == 5 && o[7] == 6 && o[5] == 7
           && o[4] == 8;
    assert o[6] == 9 && o[8] == 10 && o[10] == 11 && o[12] == 12 && o[14] == 13 && o[16] == 14 && o[18] == 15
           && o[0] == 16 && o[1] == 17 && o[2] == 18;
  }

  lemma PartialAll(cl: seq<nat>, n: nat)
    requires n <= |BL_ORDER| && |cl| == BL_CODES
    requires forall k :: n <= k < |BL_ORDER| ==> cl[Ranked(k)] == 0
    ensures Partial(cl, n) == cl
  {
    hide Partial;
    forall i | 0 <= i < BL_CODES ensures Partial(cl, n)[i] == cl[i] {
      PartialAt(cl, n, i);
      HasRank(i);
      var k :| 0 <= k < |BL_ORDER| && BL_ORDER[k] == i;
      assert Ranked(k) == i;
      if k < n { assert BL_ORDER[..n][k] == i; }
    }
  }

  // ----- the header -----

  /** The codes fit the fields of the header. */
  ghost predicate HeaderOk(cl: seq<nat>, ll: seq<nat>, dl: seq<nat>, blcodes: nat) {
    && 257 <= |ll| <= 288 && 1 <= |dl| <= 32 && 4 <= blcodes <= |BL_ORDER| && |cl| == BL_CODES
    && LensOk(cl) && LensOk(ll) && LensOk(dl) && (forall i :: 0 <= i < BL_CODES ==> cl[i] < 8)
    && (forall k :: blcodes <= k < |BL_ORDER| ==> cl[Ranked(k)] == 0)
    && AllCoded(cl, Runs(ll)) && AllCoded(cl, Runs(dl))
  }

  ghost function CountBits(ll: seq<nat>, dl: seq<nat>, blcodes: nat): (r: Bits)
    requires 257 <= |ll| && 1 <= |dl| && 4 <= blcodes
    ensures |r| == 14
  {
    LsbBits(|ll| - 257, 5) + LsbBits(|dl| - 1, 5) + LsbBits(blcodes - 4, 4)
  }

  ghost function HeaderBits(cl: seq<nat>, ll: seq<nat>, dl: seq<nat>, blcodes: nat): (r: Bits)
    requires HeaderOk(cl, ll, dl, blcodes)
  {
    CountBits(ll, dl, blcodes) + OrderedBits(cl, 0, blcodes) + (RunBits(cl, Runs(ll)) + RunBits(cl, Runs(dl)))
  }

  lemma CountsBack(bits: Bits, pos: nat, ll: seq<nat>, dl: seq<nat>, blcodes: nat)
    requires 257 <= |ll| <= 288 && 1 <= |dl| <= 32 && 4 <= blcodes <= 19 && At(bits, pos, CountBits(ll, dl, blcodes))
    ensures pos + 14 <= |bits|
    ensures ReadNum(bits, pos, 5) == Number(|ll| - 257, pos + 5)
    ensures ReadNum(bits, pos + 5, 5) == Number(|dl| - 1, pos + 10)
    ensures ReadNum(bits, pos + 10, 4) == Number(blcodes - 4, pos + 14)
  {
    hide ReadNum, LsbBits;
    var a, b, c := LsbBits(|ll| - 257, 5), LsbBits(|dl| - 1, 5), LsbBits(blcodes - 4, 4);
    AtSplit(bits, pos, a + b, c);
    AtSplit(bits, pos, a, b);
    Pow2Consts();
    ReadNumBack(bits, pos, |ll| - 257, 5);
    ReadNumBack(bits, pos + 5, |dl| - 1, 5);
    ReadNumBack(bits, pos + 10, blcodes - 4, 4);
  }

  /** Both sequences of lengths are read back. */
  lemma LensBack(cl: seq<nat>, bits: Bits, pos: nat, ll: seq<nat>, dl: seq<nat>)
    requires LensOk(cl) && LensOk(ll) && LensOk(dl) && AllCoded(cl, Runs(ll)) && AllCoded(cl, Runs(dl))
    requires At(bits, pos, RunBits(cl, Runs(ll)) + RunBits(cl, Runs(dl)))
    ensures ReadLens(cl, bits, pos, |ll| + |dl|, [])
         == LensRead(ll + dl, pos + |RunBits(cl, Runs(ll)) + RunBits(cl, Runs(dl))|)
  {
    hide Fill, RunBits, Runs, Decode, ReadLens, At, Coded, TokOk, Pow2, BlCount, Count;
    var a, b := Runs(ll), Runs(dl);
    RunBitsAppend(cl, a, b);
    RunsDecode([], ll);
    assert [] + ll == ll;
    RunsDecode(ll, dl);
    DecodeAppend([], a, b);
    RunsBack(cl, bits, pos, a + b, []);
  }

  lemma ThreeAt(bits: Bits, pos: nat, a: Bits, b: Bits, c: Bits)
    requires At(bits, pos, a + b + c)
    ensures At(bits, pos, a) && At(bits, pos + |a|, b) && At(bits, pos + |a| + |b|, c)
  {
    AtSplit(bits, pos, a + b, c);
    AtSplit(bits, pos, a, b);
  }

  /** After a dynamic header, the data is read with the codes the header describes. */
  lemma HeaderBack(cl: seq<nat>, ll: seq<nat>, dl: seq<nat>, blcodes: nat, bits: Bits, pos: nat, out: seq<Byte>)
    requires HeaderOk(cl, ll, dl, blcodes) && At(bits, pos, HeaderBits(cl, ll, dl, blcodes))
    ensures ReadDynamic(bits, pos, out) == ReadData(ll, dl, bits, pos + |HeaderBits(cl, ll, dl, blcodes)|, out)
  {
    hide LensOk, Runs, RunBits, OrderedBits, CountBits, At, Partial, ReadNum, ReadOrdered, ReadLens, ReadData, Coded,
      Pow2;
    var a, b, c := CountBits(ll, dl, blcodes), OrderedBits(cl, 0, blcodes),
      RunBits(cl, Runs(ll)) + RunBits(cl, Runs(dl));
    ThreeAt(bits, pos, a, b, c);
    CountsBack(bits, pos, ll, dl, blcodes);
    OrderedBack(cl, bits, pos + 14, 0, blcodes);
    PartialZero(cl);
    PartialAll(cl, blcodes);
    LensBack(cl, bits, pos + 14 + |b|, ll, dl);
    assert (ll + dl)[..|ll|] == ll && (ll + dl)[|ll|..] == dl;
  }

  lemma PartialZero(cl: seq<nat>)
    requires |cl| == BL_CODES
    ensures Partial(cl, 0) == Repeat(0, BL_CODES)
  {
  }
}
