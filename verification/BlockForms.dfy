/** The three forms of a block, and that a decoder reads each of them back to its end. */
module BlockForms {
  import opened Arith
  import opened Bits
  import opened BitWriter
  import opened BlockCode
  import opened Canonical
  import opened HeaderCode
  import opened Inflate
  import opened StaticTrees
  import opened Symbols
  import opened Tokens

  const STORED_BLOCK: nat := 0
  const STATIC_TREES: nat := 1
  const DYN_TREES: nat := 2

  /** The three bits at the start of a block. */
  function Kind(kind: nat, eof: bool): (v: nat) {
    2 * kind + if eof then 1 else 0
  }

  /** Wherever the bits `b` stand at `pos`, a decoder with the text `out` reads one block there,
      gets the text `text`, and stops at the end of `b`. */
  ghost predicate Means(b: Bits, pos: nat, eof: bool, out: seq<Byte>, text: seq<Byte>) {
    forall bits :: At(bits, pos, b) ==> ReadBlock(bits, pos, out) == Block(eof, text, pos + |b|)
  }

  lemma KindBack(bits: Bits, pos: nat, kind: nat, eof: bool)
    requires kind < 4 && At(bits, pos, LsbBits(Kind(kind, eof), 3))
    ensures pos + 3 <= |bits| && bits[pos] == eof && LsbValue(bits[pos + 1 .. pos + 3]) == kind
  {
    var v, three := Kind(kind, eof), bits[pos .. pos + 3];
    assert three == [eof] + LsbBits(kind, 2);
    assert bits[pos + 1 .. pos + 3] == three[1..] == LsbBits(kind, 2);
    Pow2Consts();
    LsbValueBits(kind, 2);
  }

  /** A block read with its kind and its data. */
  lemma BlockOf(bits: Bits, pos: nat, kind: nat, eof: bool, out: seq<Byte>, text: seq<Byte>, next: nat)
    requires kind < 3 && At(bits, pos, LsbBits(Kind(kind, eof), 3))
    requires kind == STORED_BLOCK ==> ReadStored(bits, pos + 3, out) == Data(text, next)
    requires kind == STATIC_TREES ==> ReadData(FixedLit(), FixedDist(), bits, pos + 3, out) == Data(text, next)
    requires kind == DYN_TREES ==> ReadDynamic(bits, pos + 3, out) == Data(text, next)
    ensures ReadBlock(bits, pos, out) == Block(eof, text, next)
  {
    hide ReadStored, ReadData, ReadDynamic, FixedLit, FixedDist, LsbBits, LsbValue, At;
    KindBack(bits, pos, kind, eof);
  }

  // ----- stored -----

  lemma {:induction false} BytesBack(bits: Bits, pos: nat, s: seq<Byte>)
    requires At(bits, pos, ByteBits(s))
    ensures BytesAt(bits, pos, |s|) == s
    decreases |s|
  {
    hide LsbBits;
    if s != [] {
      AtSplit(bits, pos, LsbBits(s[0], 8), ByteBits(s[1..]));
      Pow2Consts();
      LsbValueBits(s[0], 8);
      BytesBack(bits, pos + 8, s[1..]);
    }
  }

  ghost function StoredBits(pos: nat, eof: bool, data: seq<Byte>): (r: Bits)
    requires |data| < 65536
    ensures |r| == Align(pos + 3) - pos + 32 + 8 * |data|
  {
    LsbBits(Kind(STORED_BLOCK, eof), 3) + LsbBits(0, Align(pos + 3) - (pos + 3)) + ByteBits(StoredBytes(data, true))
  }

  lemma WordBytes(w: nat)
    requires w < 65536
    ensures ByteBits(Word(w)) == LsbBits(w, 16)
  {
    hide LsbBits;
    var none: seq<Byte> := [];
    WordBits(none, w);
    assert none + [w % 256, w / 256] == Word(w);
  }

  lemma WordsBits(data: seq<Byte>)
    requires |data| < 65536
    ensures ByteBits(StoredBytes(data, true)) == LsbBits(|data|, 16) + LsbBits(65535 - |data|, 16) + ByteBits(data)
  {
    hide ByteBits, LsbBits, Word, StoredBytes;
    WordBytes(|data|);
    WordBytes(65535 - |data|);
    ThreeBytes(Word(|data|), Word(65535 - |data|), data);
    assert StoredBytes(data, true) == Word(|data|) + Word(65535 - |data|) + data by { Headed(data); }
  }

  lemma Headed(data: seq<Byte>)
    requires |data| < 65536
    ensures StoredBytes(data, true) == Word(|data|) + Word(65535 - |data|) + data
  {
    hide Word;
  }

  lemma ThreeBytes(a: seq<Byte>, b: seq<Byte>, c: seq<Byte>)
    ensures ByteBits(a + b + c) == ByteBits(a) + ByteBits(b) + ByteBits(c)
  {
    hide ByteBits;
    ByteBitsAppend(a, b);
    ByteBitsAppend(a + b, c);
  }

  lemma StoredMeans(pos: nat, eof: bool, data: seq<Byte>, out: seq<Byte>)
    requires |data| < 65536
    ensures Means(StoredBits(pos, eof, data), pos, eof, out, out + data)
  {
    hide ReadBlock, ByteBits, LsbBits, At, Kind;
    forall bits | At(bits, pos, StoredBits(pos, eof, data))
      ensures ReadBlock(bits, pos, out) == Block(eof, out + data, pos + |StoredBits(pos, eof, data)|)
    {
      StoredBack(bits, pos, eof, data, out);
    }
  }

  lemma StoredBack(bits: Bits, pos: nat, eof: bool, data: seq<Byte>, out: seq<Byte>)
    requires |data| < 65536 && At(bits, pos, StoredBits(pos, eof, data))
    ensures ReadBlock(bits, pos, out) == Block(eof, out + data, pos + |StoredBits(pos, eof, data)|)
  {
    hide ReadBlock, ByteBits, LsbBits, At, Kind, ReadNum, BytesAt, Align;
    var p, n := Align(pos + 3), |data|;
    var a, z, s := LsbBits(Kind(STORED_BLOCK, eof), 3), LsbBits(0, p - (pos + 3)), ByteBits(StoredBytes(data, true));
    ThreeAt(bits, pos, a, z, s);
    WordsBits(data);
    ThreeAt(bits, p, LsbBits(n, 16), LsbBits(65535 - n, 16), ByteBits(data));
    Pow2Consts();
    ReadNumBack(bits, p, n, 16);
    ReadNumBack(bits, p + 16, 65535 - n, 16);
    BytesBack(bits, p + 32, data);
    AtEnd(bits, p + 32, ByteBits(data));
    BlockOf(bits, pos, STORED_BLOCK, eof, out, out + data, p + 32 + 8 * n);
  }

  lemma AtEnd(bits: Bits, pos: nat, b: Bits)
    requires At(bits, pos, b)
    ensures pos + |b| <= |bits|
  {
  }

  // ----- compressed -----

  ghost function StaticBits(eof: bool, toks: seq<Token>): (r: Bits)
    requires AllCodable(FixedLit(), FixedDist(), toks) && Coded(FixedLit(), END_BLOCK)
  {
    LsbBits(Kind(STATIC_TREES, eof), 3) + (DataBits(FixedLit(), FixedDist(), toks) + Code(FixedLit(), END_BLOCK))
  }

  lemma StaticBack(bits: Bits, pos: nat, eof: bool, toks: seq<Token>, out: seq<Byte>)
    requires AllCodable(FixedLit(), FixedDist(), toks) && Coded(FixedLit(), END_BLOCK) && Expand(out, toks).Text?
    requires At(bits, pos, StaticBits(eof, toks))
    ensures ReadBlock(bits, pos, out) == Block(eof, Expand(out, toks).out, pos + |StaticBits(eof, toks)|)
  {
    hide ReadBlock, LsbBits, At, Kind, FixedLit, FixedDist, AllCodable, LensOk, DataBits, Code, Expand, ReadData;
    var body := DataBits(FixedLit(), FixedDist(), toks) + Code(FixedLit(), END_BLOCK);
    AtSplit(bits, pos, LsbBits(Kind(STATIC_TREES, eof), 3), body);
    FixedLitOk();
    FixedDistOk();
    DataBack(FixedLit(), FixedDist(), bits, pos + 3, toks, out);
    BlockOf(bits, pos, STATIC_TREES, eof, out, Expand(out, toks).out, pos + 3 + |body|);
  }

  lemma StaticMeans(pos: nat, eof: bool, toks: seq<Token>, out: seq<Byte>)
    requires AllCodable(FixedLit(), FixedDist(), toks) && Coded(FixedLit(), END_BLOCK) && Expand(out, toks).Text?
    ensures Means(StaticBits(eof, toks), pos, eof, out, Expand(out, toks).out)
  {
    hide ReadBlock, At, AllCodable, Expand, StaticBits, FixedLit;
    forall bits | At(bits, pos, StaticBits(eof, toks))
      ensures ReadBlock(bits, pos, out) == Block(eof, Expand(out, toks).out, pos + |StaticBits(eof, toks)|)
    {
      StaticBack(bits, pos, eof, toks, out);
    }
  }

  ghost function DynBits(eof: bool, toks: seq<Token>, cl: seq<nat>, ll: seq<nat>, dl: seq<nat>, blcodes: nat): (r: Bits)
    requires HeaderOk(cl, ll, dl, blcodes) && AllCodable(ll, dl, toks) && Coded(ll, END_BLOCK)
  {
    LsbBits(Kind(DYN_TREES, eof), 3) + HeaderBits(cl, ll, dl, blcodes) + (DataBits(ll, dl, toks) + Code(ll, END_BLOCK))
  }

  lemma HeaderLens(cl: seq<nat>, ll: seq<nat>, dl: seq<nat>, blcodes: nat)
    requires HeaderOk(cl, ll, dl, blcodes)
    ensures LensOk(ll) && LensOk(dl)
  {
  }

  lemma DynBack(bits: Bits, pos: nat, eof: bool, toks: seq<Token>, cl: seq<nat>, ll: seq<nat>, dl: seq<nat>,
                blcodes: nat, out: seq<Byte>)
    requires HeaderOk(cl, ll, dl, blcodes) && AllCodable(ll, dl, toks) && Coded(ll, END_BLOCK)
             && Expand(out, toks).Text?
    requires At(bits, pos, DynBits(eof, toks, cl, ll, dl, blcodes))
    ensures ReadBlock(bits, pos, out)
              == Block(eof, Expand(out, toks).out, pos + |DynBits(eof, toks, cl, ll, dl, blcodes)|)
  {
    hide ReadBlock, LsbBits, At, Kind, AllCodable, LensOk, DataBits, Code, Expand, ReadData, ReadDynamic, HeaderBits,
      HeaderOk;
    var a, h, body := LsbBits(Kind(DYN_TREES, eof), 3), HeaderBits(cl, ll, dl, blcodes),
      DataBits(ll, dl, toks) + Code(ll, END_BLOCK);
    HeaderLens(cl, ll, dl, blcodes);
    ThreeAt(bits, pos, a, h, body);
    HeaderBack(cl, ll, dl, blcodes, bits, pos + 3, out);
    DataBack(ll, dl, bits, pos + 3 + |h|, toks, out);
    BlockOf(bits, pos, DYN_TREES, eof, out, Expand(out, toks).out, pos + 3 + |h| + |body|);
  }

  lemma DynMeans(pos: nat, eof: bool, toks: seq<Token>, cl: seq<nat>, ll: seq<nat>, dl: seq<nat>, blcodes: nat,
                 out: seq<Byte>)
    requires HeaderOk(cl, ll, dl, blcodes) && AllCodable(ll, dl, toks) && Coded(ll, END_BLOCK)
             && Expand(out, toks).Text?
    ensures Means(DynBits(eof, toks, cl, ll, dl, blcodes), pos, eof, out, Expand(out, toks).out)
  {
    hide ReadBlock, At, AllCodable, Expand, DynBits, HeaderOk;
    forall bits | At(bits, pos, DynBits(eof, toks, cl, ll, dl, blcodes))
      ensures ReadBlock(bits, pos, out)
                == Block(eof, Expand(out, toks).out, pos + |DynBits(eof, toks, cl, ll, dl, blcodes)|)
    {
      DynBack(bits, pos, eof, toks, cl, ll, dl, blcodes, out);
    }
  }
}
