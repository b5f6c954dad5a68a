/** The bits of a block of tokens under a pair of codes, and that they decode to the tokens. */
module BlockCode {
  import opened Arith
  import opened Bits
  import opened Canonical
  import opened Symbols
  import opened Tokens
  import opened Inflate

  /** Codes for the symbol `s` exist. */
  predicate Coded(lens: seq<nat>, s: nat) {
    s < |lens| && 0 < lens[s] <= MAX_BITS
  }

  /** A tree entry holds the length of symbol `s` and its code as it is sent. */
  ghost predicate Sendable(t: seq<CtData>, lens: seq<nat>, s: nat) {
    s < |t| && Coded(lens, s) && t[s].dl == lens[s] && t[s].fc == Reversed(lens, s)
  }

  lemma CodesSendable(t: seq<CtData>, lens: seq<nat>, s: nat)
    requires CodesOk(t, lens) && Coded(lens, s)
    ensures Sendable(t, lens, s)
  {
  }

  predicate Codable(ll: seq<nat>, dl: seq<nat>, t: Token) {
    TokenOk(t) &&
    match t
    case Lit(b) => Coded(ll, b)
    case Match(len, dist) => Coded(ll, 257 + LengthCode(len)) && Coded(dl, DistCode(dist))
  }

  ghost function LengthBits(ll: seq<nat>, len: nat): (r: Bits)
    requires MIN_MATCH <= len <= MAX_MATCH && Coded(ll, 257 + LengthCode(len))
  {
    LengthCodeOk(len);
    var c := LengthCode(len);
    Code(ll, 257 + c) + LsbBits(len - LENGTHS[c], EXTRA_LBITS[c])
  }

  ghost function DistBits(dl: seq<nat>, dist: nat): (r: Bits)
    requires 1 <= dist <= WSIZE && Coded(dl, DistCode(dist))
  {
    DistCodeOk(dist);
    var c := DistCode(dist);
    Code(dl, c) + LsbBits(dist - DISTS[c], EXTRA_DBITS[c])
  }

  ghost function TokenBits(ll: seq<nat>, dl: seq<nat>, t: Token): (r: Bits)
    requires Codable(ll, dl, t)
  {
    match t
    case Lit(b) => Code(ll, b)
    case Match(len, dist) => LengthBits(ll, len) + DistBits(dl, dist)
  }

  ghost predicate AllCodable(ll: seq<nat>, dl: seq<nat>, toks: seq<Token>) {
    forall i :: 0 <= i < |toks| ==> Codable(ll, dl, toks[i])
  }

  ghost function DataBits(ll: seq<nat>, dl: seq<nat>, toks: seq<Token>): (r: Bits)
    requires AllCodable(ll, dl, toks)
    decreases |toks|
  {
    if toks == [] then [] else DataBits(ll, dl, toks[..|toks| - 1]) + TokenBits(ll, dl, toks[|toks| - 1])
  }

  // ----- reading them back -----

  lemma LengthBack(ll: seq<nat>, dl: seq<nat>, bits: Bits, pos: nat, len: nat)
    requires MIN_MATCH <= len <= MAX_MATCH && Coded(ll, 257 + LengthCode(len)) && LensOk(ll)
    requires At(bits, pos, LengthBits(ll, len))
    ensures ReadItem(ll, dl, bits, pos) == ReadDist(dl, bits, pos + |LengthBits(ll, len)|, len)
  {
    hide Code, LsbBits, LensOk, ReadSymbol, LengthCode, At, Pow2, ReadNum, ReadDist, ReadItem;
    LengthCodeOk(len);
    var c := LengthCode(len);
    var x, n, p := len - LENGTHS[c], EXTRA_LBITS[c], pos + ll[257 + c];
    AtSplit(bits, pos, Code(ll, 257 + c), LsbBits(x, n));
    ReadBack(ll, bits, pos, 257 + c);
    ReadNumBack(bits, p, x, n);
    LengthItem(ll, dl, bits, pos, c, p, x, p + n);
  }

  lemma LengthItem(ll: seq<nat>, dl: seq<nat>, bits: Bits, pos: nat, c: nat, p: nat, x: nat, q: nat)
    requires c < LENGTH_CODES && ReadSymbol(ll, bits, pos) == Symbol(257 + c, p)
    requires ReadNum(bits, p, EXTRA_LBITS[c]) == Number(x, q)
    ensures ReadItem(ll, dl, bits, pos) == ReadDist(dl, bits, q, LENGTHS[c] + x)
  {
    hide ReadSymbol, ReadNum, ReadDist;
  }

  lemma DistBack(dl: seq<nat>, bits: Bits, pos: nat, len: nat, dist: nat)
    requires 1 <= dist <= WSIZE && Coded(dl, DistCode(dist)) && LensOk(dl)
    requires At(bits, pos, DistBits(dl, dist))
    ensures ReadDist(dl, bits, pos, len) == Item(Match(len, dist), pos + |DistBits(dl, dist)|)
  {
    hide Code, LsbBits, LensOk, ReadSymbol, DistCode, At, Pow2, ReadNum;
    DistCodeOk(dist);
    var c := DistCode(dist);
    AtSplit(bits, pos, Code(dl, c), LsbBits(dist - DISTS[c], EXTRA_DBITS[c]));
    ReadBack(dl, bits, pos, c);
    ReadNumBack(bits, pos + dl[c], dist - DISTS[c], EXTRA_DBITS[c]);
  }

  lemma MatchBack(ll: seq<nat>, dl: seq<nat>, bits: Bits, pos: nat, len: nat, dist: nat)
    requires LensOk(ll) && LensOk(dl) && Codable(ll, dl, Match(len, dist))
    requires At(bits, pos, LengthBits(ll, len) + DistBits(dl, dist))
    ensures ReadItem(ll, dl, bits, pos) == Item(Match(len, dist), pos + |LengthBits(ll, len) + DistBits(dl, dist)|)
  {
    hide LensOk, LengthCode, DistCode, At, ReadItem, ReadDist, LengthBits, DistBits;
    AtSplit(bits, pos, LengthBits(ll, len), DistBits(dl, dist));
    LengthBack(ll, dl, bits, pos, len);
    DistBack(dl, bits, pos + |LengthBits(ll, len)|, len, dist);
  }

  lemma LiteralBack(ll: seq<nat>, dl: seq<nat>, bits: Bits, pos: nat, b: Byte)
    requires LensOk(ll) && Coded(ll, b) && At(bits, pos, Code(ll, b))
    ensures ReadItem(ll, dl, bits, pos) == Item(Lit(b), pos + |Code(ll, b)|)
  {
    hide Code, LensOk, ReadSymbol, At, ReadNum, ReadDist;
    ReadBack(ll, bits, pos, b);
  }

  /** A token is read back as itself. */
  lemma TokenBack(ll: seq<nat>, dl: seq<nat>, bits: Bits, pos: nat, t: Token)
    requires LensOk(ll) && LensOk(dl) && Codable(ll, dl, t)
    requires At(bits, pos, TokenBits(ll, dl, t))
    ensures ReadItem(ll, dl, bits, pos) == Item(t, pos + |TokenBits(ll, dl, t)|)
  {
    hide Code, LensOk, At, ReadItem, LengthBits, DistBits;
    match t
    case Lit(b) => LiteralBack(ll, dl, bits, pos, b);
    case Match(len, dist) => MatchBack(ll, dl, bits, pos, len, dist);
  }

  lemma {:induction false} DataFirst(ll: seq<nat>, dl: seq<nat>, toks: seq<Token>)
    requires toks != [] && AllCodable(ll, dl, toks)
    ensures AllCodable(ll, dl, toks[1..])
    ensures DataBits(ll, dl, toks) == TokenBits(ll, dl, toks[0]) + DataBits(ll, dl, toks[1..])
    decreases |toks|
  {
    hide TokenBits, Codable;
    var n := |toks| - 1;
    if n == 0 {
      assert toks[..0] == [] && toks[1..] == [];
    } else {
      DataFirst(ll, dl, toks[..n]);
      assert toks[..n][1..] == toks[1..][..n - 1];
      Assoc(TokenBits(ll, dl, toks[0]), DataBits(ll, dl, toks[1..][..n - 1]), TokenBits(ll, dl, toks[n]));
    }
  }

  /** A block's data decodes to the text its tokens stand for. */
  lemma {:induction false} DataBack(ll: seq<nat>, dl: seq<nat>, bits: Bits, pos: nat, toks: seq<Token>, out: seq<Byte>)
    requires LensOk(ll) && LensOk(dl) && AllCodable(ll, dl, toks) && Coded(ll, END_BLOCK)
    requires At(bits, pos, DataBits(ll, dl, toks) + Code(ll, END_BLOCK)) && Expand(out, toks).Text?
    ensures ReadData(ll, dl, bits, pos, out)
         == Data(Expand(out, toks).out, pos + |DataBits(ll, dl, toks) + Code(ll, END_BLOCK)|)
    decreases |toks|
  {
    hide TokenBits, Codable, LensOk, Code, ReadItem, Expand1, At;
    var end := Code(ll, END_BLOCK);
    if toks == [] {
      assert DataBits(ll, dl, toks) + end == end;
      EndBack(ll, dl, bits, pos);
    } else {
      DataFirst(ll, dl, toks);
      var b, rest := TokenBits(ll, dl, toks[0]), DataBits(ll, dl, toks[1..]);
      Assoc(b, rest, end);
      AtSplit(bits, pos, b, rest + end);
      TokenBack(ll, dl, bits, pos, toks[0]);
      DataBack(ll, dl, bits, pos + |b|, toks[1..], Expand1(out, toks[0]).out);
    }
  }

  lemma EndBack(ll: seq<nat>, dl: seq<nat>, bits: Bits, pos: nat)
    requires LensOk(ll) && Coded(ll, END_BLOCK) && At(bits, pos, Code(ll, END_BLOCK))
    ensures ReadItem(ll, dl, bits, pos) == EndOfBlock(pos + ll[END_BLOCK])
  {
    hide Code, LensOk, ReadSymbol, At;
    ReadBack(ll, bits, pos, END_BLOCK);
  }
}
