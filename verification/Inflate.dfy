/** Decoding of DEFLATE data, written from the format (section 3.2 of RFC 1951): what a bit
    string means. */
module Inflate {
  import opened Arith
  import opened Bits
  import opened Canonical
  import RL = RunLengths
  import opened Symbols
  import opened Tokens

  datatype Number = Eof | Number(value: nat, next: nat)

  ghost function ReadNum(bits: Bits, pos: nat, n: nat): (r: Number)
    ensures r.Number? ==> r.next == pos + n <= |bits|
  {
    if pos + n > |bits| then Eof else Number(LsbValue(bits[pos .. pos + n]), pos + n)
  }

  lemma ReadNumBack(bits: Bits, pos: nat, v: nat, n: nat)
    requires v < Pow2(n) && At(bits, pos, LsbBits(v, n))
    ensures ReadNum(bits, pos, n) == Number(v, pos + n)
  {
    LsbValueBits(v, n);
  }

  // ----- literals, lengths and distances (section 3.2.5) -----

  datatype Item = BadItem | EndOfBlock(next: nat) | Item(tok: Token, next: nat)

  ghost function ReadDist(dl: seq<nat>, bits: Bits, pos: nat, len: nat): (r: Item)
    ensures r.Item? ==> pos < r.next <= |bits|
    ensures !r.EndOfBlock?
  {
    match ReadSymbol(dl, bits, pos)
    case NotFound => BadItem
    case Symbol(d, p) =>
      if d >= D_CODES then BadItem
      else match ReadNum(bits, p, EXTRA_DBITS[d])
        case Eof => BadItem
        case Number(y, q) => Item(Match(len, DISTS[d] + y), q)
  }

  ghost function ReadItem(ll: seq<nat>, dl: seq<nat>, bits: Bits, pos: nat): (r: Item)
    ensures !r.BadItem? ==> pos < r.next <= |bits|
  {
    match ReadSymbol(ll, bits, pos)
    case NotFound => BadItem
    case Symbol(s, p) =>
      if s < LITERALS then Item(Lit(s), p)
      else if s == END_BLOCK then EndOfBlock(p)
      else if s >= L_CODES then BadItem
      else match ReadNum(bits, p, EXTRA_LBITS[s - 257])
        case Eof => BadItem
        case Number(x, q) => ReadDist(dl, bits, q, LENGTHS[s - 257] + x)
  }

  datatype Data = BadData | Data(out: seq<Byte>, next: nat)

  /** The compressed data of a block: the text so far is `out`. */
  ghost function ReadData(ll: seq<nat>, dl: seq<nat>, bits: Bits, pos: nat, out: seq<Byte>): (r: Data)
    ensures r.Data? ==> pos < r.next <= |bits|
    decreases |bits| - pos
  {
    match ReadItem(ll, dl, bits, pos)
    case BadItem => BadData
    case EndOfBlock(p) => Data(out, p)
    case Item(t, p) =>
      match Expand1(out, t)
      case Bad => BadData
      case Text(o) => ReadData(ll, dl, bits, p, o)
  }

  // ----- code lengths (section 3.2.7) -----

  /** The order in which the lengths of the bit length codes are sent. */
  const BL_ORDER: seq<nat> := [16, 17, 18, 0, 8, 7, 9, 6, 10, 5, 11, 4, 12, 3, 13, 2, 14, 1, 15]

  function Ranked(k: nat): (s: nat)
    requires k < |BL_ORDER|
    ensures s < RL.BL_CODES
  {
    BL_ORDER[k]
  }

  datatype LensRead = BadLens | LensRead(lens: seq<nat>, next: nat)

  /** The lengths of the bit length codes of rank `k` to `n`, three bits each. */
  ghost function ReadOrdered(bits: Bits, pos: nat, k: nat, n: nat, cl: seq<nat>): (r: LensRead)
    requires k <= n <= |BL_ORDER| && |cl| == RL.BL_CODES
    ensures r.LensRead? ==> pos <= r.next <= |bits| || k == n
    ensures r.LensRead? ==> r.next == pos + 3 * (n - k) && |r.lens| == RL.BL_CODES
    decreases n - k
  {
    if k == n then LensRead(cl, pos)
    else match ReadNum(bits, pos, 3)
      case Eof => BadLens
      case Number(x, p) => ReadOrdered(bits, p, k + 1, n, cl[Ranked(k) := x])
  }

  /** Lengths in the run-length code, until there are `total` of them. */
  ghost function ReadLens(cl: seq<nat>, bits: Bits, pos: nat, total: nat, out: seq<nat>): (r: LensRead)
    ensures r.LensRead? ==> |r.lens| == total && pos <= r.next
    decreases |bits| - pos
  {
    if |out| == total then LensRead(out, pos)
    else if |out| > total then BadLens
    else match ReadSymbol(cl, bits, pos)
      case NotFound => BadLens
      case Symbol(s, p) =>
        match ReadNum(bits, p, RL.ExtraBits(s))
        case Eof => BadLens
        case Number(x, q) =>
          match RL.Decode1(out, RL.Tok(s, x))
          case Bad => BadLens
          case Lens(o) => ReadLens(cl, bits, q, total, o)
  }

  // ----- blocks (section 3.2.3) -----

  /** The fixed code of section 3.2.6. */
  function FixedLit(): (r: seq<nat>)
    ensures |r| == 288
  {
    RL.Repeat(8, 144) + RL.Repeat(9, 112) + RL.Repeat(7, 24) + RL.Repeat(8, 8)
  }

  function FixedDist(): (r: seq<nat>)
    ensures |r| == 32
  {
    RL.Repeat(5, 32)
  }

  function Align(pos: nat): (r: nat)
    ensures pos <= r < pos + 8 && r % 8 == 0
  {
    (pos + 7) / 8 * 8
  }

  /** `n` bytes of `bits`. */
  ghost function BytesAt(bits: Bits, pos: nat, n: nat): (r: seq<Byte>)
    requires pos + 8 * n <= |bits|
    ensures |r| == n
    decreases n
  {
    if n == 0 then []
    else
      Pow2Consts();
      [LsbValue(bits[pos .. pos + 8])] + BytesAt(bits, pos + 8, n - 1)
  }

  ghost function ReadStored(bits: Bits, pos: nat, out: seq<Byte>): (r: Data)
    ensures r.Data? ==> pos < r.next <= |bits|
  {
    match ReadNum(bits, Align(pos), 16)
    case Eof => BadData
    case Number(len, p) =>
      match ReadNum(bits, p, 16)
      case Eof => BadData
      case Number(nlen, q) =>
        if len + nlen != 65535 || q + 8 * len > |bits| then BadData
        else Data(out + BytesAt(bits, q, len), q + 8 * len)
  }

  ghost function ReadDynamic(bits: Bits, pos: nat, out: seq<Byte>): (r: Data)
    ensures r.Data? ==> pos < r.next <= |bits|
  {
    if pos + 14 > |bits| then BadData
    else
      var hlit, hdist, hclen :=
        ReadNum(bits, pos, 5).value + 257, ReadNum(bits, pos + 5, 5).value + 1, ReadNum(bits, pos + 10, 4).value + 4;
      if hclen > RL.BL_CODES then BadData
      else match ReadOrdered(bits, pos + 14, 0, hclen, RL.Repeat(0, RL.BL_CODES))
        case BadLens => BadData
        case LensRead(cl, p) =>
          match ReadLens(cl, bits, p, hlit + hdist, [])
          case BadLens => BadData
          case LensRead(lens, q) => ReadData(lens[..hlit], lens[hlit..], bits, q, out)
  }

  datatype Block = BadBlock | Block(last: bool, out: seq<Byte>, next: nat)

  ghost function ReadBlock(bits: Bits, pos: nat, out: seq<Byte>): (r: Block)
    ensures r.Block? ==> pos < r.next <= |bits|
  {
    if pos + 3 > |bits| then BadBlock
    else
      var kind := LsbValue(bits[pos + 1 .. pos + 3]);
      var data := if kind == 0 then ReadStored(bits, pos + 3, out)
                  else if kind == 1 then ReadData(FixedLit(), FixedDist(), bits, pos + 3, out)
                  else if kind == 2 then ReadDynamic(bits, pos + 3, out)
                  else BadData;
      match data
      case BadData => BadBlock
      case Data(o, p) => Block(bits[pos], o, p)
  }

  /** The text of the blocks from `pos` on, up to and including the last one. */
  ghost function InflateFrom(bits: Bits, pos: nat, out: seq<Byte>): (r: Data)
    decreases |bits| - pos
  {
    match ReadBlock(bits, pos, out)
    case BadBlock => BadData
    case Block(last, o, p) => if last then Data(o, p) else InflateFrom(bits, p, o)
  }
}
