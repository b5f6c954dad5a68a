/** `zip`: the whole gzip file. */
module Gzip {
  import opened Arith
  import opened Bits
  import opened BitWriter
  import opened Coder
  import opened Deflate
  import opened DeflateState
  import opened DeflateText
  import opened Flush
  import opened Hash
  import opened Inflate
  import opened Longest
  import opened Input
  import opened Matcher
  import opened StaticTrees
  import opened TreeScan
  import opened Record
  import opened Window

  /** Magic numbers, method 8 (deflate), no flags, no time, maximum compression, Unix. */
  const HEADER: seq<Byte> := [0x1f, 0x8b, 8, 0, 0, 0, 0, 0, 2, 3]

  lemma BytesOnly(w: Writer)
    requires w.Valid() && w.biValid == 0
    ensures w.Sent() == ByteBits(w.Bytes()) && |w.Sent()| == 8 * |w.Bytes()|
  {
  }

  lemma HeaderBytes(b: seq<Byte>)
    requires b == [] + Long(0x00088b1f) + Long(0) + [2] + [3]
    ensures b == HEADER
  {
  }

  method BeginFile(outBufSize: nat) returns (w: Writer)
    requires 2 <= outBufSize
    ensures w.Valid() && w.biValid == 0 && w.Bytes() == [] + Long(0x00088b1f) + Long(0)
    ensures fresh(w) && fresh(w.outbuf)
  {
    hide Long;
    w := new Writer(outBufSize);
    w.Put32(0x00088b1f);
    w.Put32(0);
  }

  method Flags(w: Writer)
    requires w.Valid() && w.biValid == 0 && w.Bytes() == [] + Long(0x00088b1f) + Long(0)
    modifies w, w.outbuf
    ensures w.Valid() && w.biValid == 0 && w.Bytes() == HEADER && |w.Sent()| == 80
  {
    hide Long, ByteBits;
    w.PutByte(2);
    w.PutByte(3);
    HeaderBytes(w.Bytes());
    BytesOnly(w);
  }

  method BeginMatcher(input: seq<seq<Byte>>, hashBits: nat, effort: Effort, maxLazy: nat) returns (m: Matcher)
    requires HashBits(hashBits)
    ensures m.Valid() && m.text + Remaining(m.chunks) == Remaining(input)
    ensures m.base == m.strstart == 0 && m.blockStart == 0 && (m.eofile || m.lookahead >= MIN_LOOKAHEAD)
    ensures m.lookahead >= 1 ==> m.Rolled(0)
    ensures fresh(m) && fresh(m.window) && fresh(m.head) && fresh(m.prev)
  {
    hide Remaining;
    m := new Matcher(input, hashBits, effort, maxLazy);
    LmInit(m, Remaining(input));
  }

  method BeginCoder(w: Writer, litBufSize: nat) returns (c: Coder)
    requires LitBufSize(litBufSize)
    ensures c.w == w && c.Sizes() && c.Open() && c.toks == [] && c.lastLit == 0 && c.lastLit < c.lBuf.Length
    ensures Counted(c.blTree[..], []) && c.optLen == c.staticLen == c.compressedLen == 0
    ensures fresh(c) && fresh(c.ltree) && fresh(c.dtree) && fresh(c.blTree)
    ensures fresh(c.heap) && fresh(c.depth) && fresh(c.blCount) && fresh(c.lBuf) && fresh(c.dBuf) && fresh(c.flagBuf)
  {
    hide FixedOk, Recorded, Flagged, Frequent, Counted;
    var tables := InitTables();
    c := new Coder(w, tables, litBufSize);
  }

  /** The header is out, the tables are there, and the first input is in the window. */
  method Begin(input: seq<seq<Byte>>, hashBits: nat, litBufSize: nat, outBufSize: nat, effort: Effort, maxLazy: nat)
    returns (m: Matcher, c: Coder)
    requires HashBits(hashBits) && LitBufSize(litBufSize) && 2 <= outBufSize
    ensures m.Valid() && m.text + Remaining(m.chunks) == Remaining(input)
    ensures m.base == m.strstart == 0 && m.blockStart == 0 && (m.eofile || m.lookahead >= MIN_LOOKAHEAD)
    ensures m.lookahead >= 1 ==> m.Rolled(0)
    ensures Between(c, 80) && c.toks == [] && c.lastLit == 0 && c.w.biValid == 0 && c.w.Bytes() == HEADER && Apart(m, c)
    ensures fresh(m) && fresh(m.window) && fresh(m.head) && fresh(m.prev)
    ensures fresh(c) && fresh(c.w) && fresh(c.w.outbuf) && fresh(c.ltree) && fresh(c.dtree) && fresh(c.blTree)
    ensures fresh(c.heap) && fresh(c.depth) && fresh(c.blCount) && fresh(c.lBuf) && fresh(c.dBuf) && fresh(c.flagBuf)
  {
    hide Writer.Sent, Long, Remaining, FixedOk, Recorded, Flagged, Frequent, Counted, m.Valid, m.Rolled;
    var w := BeginFile(outBufSize);
    c := BeginCoder(w, litBufSize);
    m := BeginMatcher(input, hashBits, effort, maxLazy);
    Flags(w);
  }

  /** The checksum and the size, and nothing left in the buffer. */
  method End(w: Writer, crc: nat, isize: nat)
    requires w.Valid() && crc < TWO32 && isize < TWO32
    modifies w, w.outbuf
    ensures w.written == old(w.Bytes()) + (Long(crc) + Long(isize))
  {
    hide Long;
    w.Put32(crc);
    w.Put32(isize);
    w.FlushOutbuf();
  }

  lemma FileDecodes(bytes: seq<Byte>, tail: seq<Byte>, all: seq<Byte>, next: nat)
    requires Decodes(ByteBits(bytes), 80, all, next) && Align(next) == 8 * |bytes|
             && ByteBits(HEADER) <= ByteBits(bytes) && |tail| == 8
    ensures InflateFrom(ByteBits(bytes + tail), 80, []) == Data(all, next)
    ensures |bytes| >= 10 && (bytes + tail)[..10] == HEADER
  {
    hide InflateFrom, ByteBits, Align;
    ByteBitsAppend(bytes, tail);
    assert ByteBits(bytes) <= ByteBits(bytes) + ByteBits(tail);
    SamePrefix(HEADER, bytes);
  }

  lemma {:induction false} SamePrefix(a: seq<Byte>, b: seq<Byte>)
    requires ByteBits(a) <= ByteBits(b)
    ensures a <= b
    decreases |a|
  {
    hide LsbBits;
    if a != [] {
      var x, y := ByteBits(a), ByteBits(b);
      assert x[..8] == LsbBits(a[0], 8) && y[..8] == LsbBits(b[0], 8);
      Pow2Consts();
      LsbValueBits(a[0], 8);
      LsbValueBits(b[0], 8);
      assert x[8..] == ByteBits(a[1..]) && y[8..] == ByteBits(b[1..]);
      assert x[8..] <= y[8..];
      SamePrefix(a[1..], b[1..]);
      assert x[..8] == y[..8];
      assert a == [a[0]] + a[1..] && b == [b[0]] + b[1..];
    }
  }

  /** The compressed data after the ten bytes of the header decodes to the input; it ends in the
      last byte before the checksum; and the file ends with the input's size. `crc` is the value
      that the checksum has at the end. */
  method Zip(input: seq<seq<Byte>>, hashBits: nat, litBufSize: nat, outBufSize: nat, effort: Effort, maxLazy: nat,
             crc: nat)
    returns (out: seq<Byte>, ghost next: nat)
    requires HashBits(hashBits) && LitBufSize(litBufSize) && 2 <= outBufSize && crc < TWO32
    ensures |out| >= 18 && out[..10] == HEADER
    ensures InflateFrom(ByteBits(out), 80, []) == Data(Remaining(input), next) && Align(next) == 8 * (|out| - 8)
    ensures out[|out| - 8..] == Long(crc) + Long(|Remaining(input)| % TWO32)
  {
    hide ByteBits, Long, InflateFrom, Remaining, Align, Between, Decodes;
    var m, c := Begin(input, hashBits, litBufSize, outBufSize, effort, maxLazy);
    BetweenFacts(c, 80);
    BytesOnly(c.w);
    var w := c.w;
    var _, n := Deflate.Deflate(m, c, w.Sent(), Remaining(input));
    next := n;
    BytesOnly(w);
    ghost var bytes, tail := w.Bytes(), Long(crc) + Long(m.isize);
    LongSize(crc);
    LongSize(m.isize);
    FileDecodes(bytes, tail, Remaining(input), next);
    End(w, crc, m.isize);
    out := w.written;
  }

  lemma BetweenFacts(c: Coder, start: nat)
    requires Between(c, start)
    ensures c.w.Valid()
  {
  }

  lemma LongSize(n: nat)
    requires n < TWO32
    ensures |Long(n)| == 4
  {
  }
}
