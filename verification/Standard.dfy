/** The tables of RFC 1951 by their formulas, and what short streams mean: the decoder that everything
    is measured by is that of the standard. */
module Standard {
  import opened Arith
  import opened Bits
  import opened Canonical
  import opened Inflate
  import opened RunLengths
  import opened StaticTrees
  import opened Symbols
  import opened Tokens

  /** Section 3.2.7: the repeat symbols, zero, and then the lengths from the middle outwards. */
  function RankFormula(k: nat): (s: int) {
    if k < 3 then 16 + k else if k == 3 then 0 else if k % 2 == 0 then 6 + k / 2 else 9 - k / 2
  }

  lemma RanksByFormula(k: nat)
    requires k < 19
    ensures |BL_ORDER| == 19 && Ranked(k) == RankFormula(k)
  {
  }

  /** Section 3.2.5: the extra bits grow by one every four lengths, and every two distances. */
  lemma ExtraByFormula(c: nat)
    ensures |EXTRA_LBITS| == 29 && |EXTRA_DBITS| == 30
    ensures c < 28 ==> EXTRA_LBITS[c] == if c < 4 then 0 else (c - 4) / 4
    ensures EXTRA_LBITS[28] == 0 && LENGTHS[0] == 3 && LENGTHS[28] == 258
    ensures c < 30 ==> EXTRA_DBITS[c] == if c < 2 then 0 else (c - 2) / 2
    ensures DISTS[0] == 1
  {
  }

  // ----- section 3.2.6: the fixed codes -----

  lemma FixedPrefix(s: nat, b: nat)
    requires s < 288
    ensures Count(FixedLit()[..s], b)
         == (if b == 8 then if s < 144 then s else if s < 280 then 144 else s - 136 else 0)
            + (if b == 9 then if s < 144 then 0 else if s < 256 then s - 144 else 112 else 0)
            + (if b == 7 then if s < 256 then 0 else if s < 280 then s - 256 else 24 else 0)
  {
    hide Count;
    var lo, mid := if s < 144 then s else 144, if s < 144 then 0 else if s < 256 then s - 144 else 112;
    var hi, top := if s < 256 then 0 else if s < 280 then s - 256 else 24, if s < 280 then 0 else s - 280;
    var p, q, r, t := Repeat(8, lo), Repeat(9, mid), Repeat(7, hi), Repeat(8, top);
    assert FixedLit()[..s] == p + q + r + t;
    CountSplit(p + q + r, t, b);
    CountSplit(p + q, r, b);
    CountSplit(p, q, b);
    CountRepeat(8, lo, b);
    CountRepeat(9, mid, b);
    CountRepeat(7, hi, b);
    CountRepeat(8, top, b);
  }

  lemma FixedStarts()
    ensures var blc := BlCount(FixedLit()); NextCode(blc, 7) == 0 && NextCode(blc, 8) == 48 && NextCode(blc, 9) == 400
  {
    hide Fill, FixedLit, Count;
    var blc := BlCount(FixedLit());
    forall b | 1 <= b <= MAX_BITS
      ensures blc[b] == if b == 7 then 24 else if b == 8 then 152 else if b == 9 then 112 else 0
    {
      FixedCount(b);
    }
    FillZero(blc, 6);
    FillStep(blc, 7);
    FillStep(blc, 8);
  }

  /** The table of the standard: literals 0 to 143 from 00110000, 144 to 255 from 110010000, 256 to 279
      from 0000000, 280 to 287 from 11000000. */
  lemma FixedCodes(s: nat)
    requires s < 288
    ensures FixedLit()[s] <= MAX_BITS
    ensures Code(FixedLit(), s) == if s < 144 then MsbBits(48 + s, 8) else if s < 256 then MsbBits(400 + (s - 144), 9)
                                   else if s < 280 then MsbBits(s - 256, 7) else MsbBits(192 + (s - 280), 8)
  {
    hide NextCode, Count, MsbBits, FixedLit, BlCount;
    FixedAt(s);
    FixedStarts();
    FixedPrefix(s, FixedLen(s));
  }

  // ----- short streams -----

  /** A last block in the fixed code that holds one literal below 144. */
  ghost function LiteralStream(b: nat): (bits: Bits) {
    [true, true, false] + MsbBits(48 + b, 8) + MsbBits(0, 7)
  }

  lemma LiteralInflates(b: nat)
    requires b < 144
    ensures InflateFrom(LiteralStream(b), 0, []) == Data([b], 18)
  {
    hide ReadSymbol, MsbBits, FixedLit, FixedDist, LsbValue, Code, ReadData, LensOk;
    var bits := LiteralStream(b);
    var head, lit, end := [true, true, false], MsbBits(48 + b, 8), MsbBits(0, 7);
    FixedLitOk();
    FixedCodes(b);
    FixedCodes(256);
    assert bits == head + lit + end;
    assert At(bits, 3, lit) by { assert bits[3..11] == lit; }
    assert At(bits, 11, end) by { assert bits[11..18] == end; }
    ReadBack(FixedLit(), bits, 3, b);
    ReadBack(FixedLit(), bits, 11, 256);
    LiteralRead(bits, b);
    KindBits(bits, true, false, 1);
  }

  lemma KindBits(bits: Bits, low: bool, high: bool, kind: nat)
    requires |bits| >= 3 && bits[1] == low && bits[2] == high
    requires kind == (if low then 1 else 0) + (if high then 2 else 0)
    ensures LsbValue(bits[1..3]) == kind
  {
    assert bits[1..3] == [low, high] && [low, high][1..] == [high] && [high][1..] == [];
    assert LsbValue([high]) == if high then 1 else 0;
  }

  lemma LiteralRead(bits: Bits, b: nat)
    requires b < 144 && |bits| == 18
    requires ReadSymbol(FixedLit(), bits, 3) == Symbol(b, 11) && ReadSymbol(FixedLit(), bits, 11) == Symbol(256, 18)
    ensures ReadData(FixedLit(), FixedDist(), bits, 3, []) == Data([b], 18)
  {
    hide ReadSymbol, FixedLit, FixedDist;
    assert ReadItem(FixedLit(), FixedDist(), bits, 3) == Item(Lit(b), 11);
    assert ReadItem(FixedLit(), FixedDist(), bits, 11) == EndOfBlock(18);
    assert Expand1([], Lit(b)) == Text([b]);
    assert ReadData(FixedLit(), FixedDist(), bits, 11, [b]) == Data([b], 18);
  }

  /** A last stored block of one byte: its length and the complement, low byte first. */
  ghost function StoredStream(b: Byte): (bits: Bits) {
    [true, false, false, false, false, false, false, false] + ByteBits([1, 0, 254, 255, b])
  }

  lemma StoredInflates(b: Byte)
    ensures InflateFrom(StoredStream(b), 0, []) == Data([b], 48)
  {
    hide ReadNum, LsbValue, ByteBits, LsbBits, BytesAt, Pow2;
    var bits, head := StoredStream(b), [true, false, false, false, false, false, false, false];
    KindBits(bits, false, false, 0);
    StoredParts(b);
    assert ReadStored(bits, 3, []) == Data([] + BytesAt(bits, 40, 1), 48);
    assert [] + BytesAt(bits, 40, 1) == [b];
  }

  lemma StoredParts(b: Byte)
    ensures var bits := StoredStream(b);
            ReadNum(bits, 8, 16) == Number(1, 24) && ReadNum(bits, 24, 16) == Number(65534, 40) && |bits| == 48
            && BytesAt(bits, 40, 1) == [b]
  {
    hide LsbValue, LsbBits, Pow2;
    var bits, head := StoredStream(b), [true, false, false, false, false, false, false, false];
    Pow2Consts();
    FiveBytes(b);
    var one, two, three := LsbBits(1, 16), LsbBits(65534, 16), LsbBits(b, 8);
    assert bits == head + (one + two + three);
    assert At(bits, 8, one) by { assert bits[8..24] == one; }
    assert At(bits, 24, two) by { assert bits[24..40] == two; }
    assert bits[40..48] == three;
    ReadNumBack(bits, 8, 1, 16);
    ReadNumBack(bits, 24, 65534, 16);
    LsbValueBits(b, 8);
    assert BytesAt(bits, 48, 0) == [];
  }

  lemma FiveBytes(b: Byte)
    ensures ByteBits([1, 0, 254, 255, b]) == LsbBits(1, 16) + LsbBits(65534, 16) + LsbBits(b, 8)
  {
    hide LsbBits;
    TwoBytes(1, 0);
    TwoBytes(254, 255);
    var s: seq<Byte> := [1, 0, 254, 255, b];
    assert s == [1, 0] + ([254, 255] + [b]);
    ByteBitsAppend([1, 0], [254, 255] + [b]);
    ByteBitsAppend([254, 255], [b]);
    assert [b][1..] == [];
    assert ByteBits([b]) == LsbBits(b, 8) + [];
  }

  lemma TwoBytes(lo: Byte, hi: Byte)
    ensures ByteBits([lo, hi]) == LsbBits(lo + 256 * hi, 16)
  {
    hide LsbBits;
    assert [lo, hi][1..] == [hi] && [hi][1..] == [];
    assert ByteBits([hi]) == LsbBits(hi, 8) + [];
    Pow2Consts();
    Shl8(hi);
    LsbConcat(lo, hi, 8, 8);
  }

  // ----- section 3.2.7: repeated lengths -----

  /** Symbol 16 repeats the last length 3 to 6 times, 17 a zero 3 to 10 times, 18 a zero 11 to 138 times,
      each by so much more as its extra bits say. */
  lemma RunSymbols(out: seq<nat>, n: nat)
    ensures out != [] && 3 <= n <= 6 ==>
              TokOk(Tok(16, n - 3)) && Decode1(out, Tok(16, n - 3)) == Lens(out + seq(n, _ => out[|out| - 1]))
    ensures 3 <= n <= 10 ==> TokOk(Tok(17, n - 3)) && Decode1(out, Tok(17, n - 3)) == Lens(out + seq(n, _ => 0))
    ensures 11 <= n <= 138 ==> TokOk(Tok(18, n - 11)) && Decode1(out, Tok(18, n - 11)) == Lens(out + seq(n, _ => 0))
    ensures ExtraBits(16) == 2 && ExtraBits(17) == 3 && ExtraBits(18) == 7
  {
    Pow2Consts();
    if out != [] && 3 <= n <= 6 { assert Repeat(out[|out| - 1], n) == seq(n, _ => out[|out| - 1]); }
    assert Repeat(0, n) == seq(n, _ => 0);
  }
}
