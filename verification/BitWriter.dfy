/** The bit-level output of gzip: a 16-bit accumulator over a byte buffer that is
    flushed to the output file when it fills. */
module BitWriter {
  import opened Arith
  import opened Bits

  /** `BUF_SIZE`: the number of bits of the accumulator. */
  const BUF_SIZE: nat := 16

  class Writer {
    const outbuf: array<Byte>
    var outcnt: nat
    var biBuf: nat
    var biValid: nat
    /** The bytes passed to the output file so far. */
    var written: seq<Byte>

    ghost predicate Valid()
      reads this
    {
      Room() && biValid <= BUF_SIZE && biBuf < Pow2(biValid)
    }

    /** The byte buffer takes at least one more byte. */
    ghost predicate Room()
      reads this`outcnt
    {
      2 <= outbuf.Length && outcnt < outbuf.Length
    }

    /** The whole bytes produced so far, flushed or not. */
    ghost function Bytes(): (s: seq<Byte>)
      requires outcnt <= outbuf.Length
      reads this, outbuf
    {
      written + outbuf[..outcnt]
    }

    /** Every bit produced so far. */
    ghost function Sent(): (b: Bits)
      requires outcnt <= outbuf.Length
      reads this, outbuf
    {
      ByteBits(Bytes()) + LsbBits(biBuf, biValid)
    }

    constructor (size: nat)
      requires 2 <= size
      ensures Valid() && fresh(outbuf) && outbuf.Length == size
      ensures Sent() == [] && Bytes() == [] && biValid == 0
    {
      outbuf := new Byte[size](_ => 0);
      outcnt, biBuf, biValid, written := 0, 0, 0, [];
    }

    method FlushOutbuf()
      requires outcnt <= outbuf.Length
      modifies this`outcnt, this`written
      ensures outcnt == 0 && written == old(Bytes())
    {
      if outcnt == 0 { return; }
      written := written + outbuf[..outcnt];
      outcnt := 0;
    }

    method PutByte(c: Byte)
      requires Room()
      modifies this`outcnt, this`written, outbuf
      ensures Room() && Bytes() == old(Bytes()) + [c]
    {
      outbuf[outcnt] := c;
      outcnt := outcnt + 1;
      assert outbuf[..outcnt] == old(outbuf[..outcnt]) + [c];
      if outcnt == outbuf.Length { FlushOutbuf(); }
    }

    method Put16(w: nat)
      requires Room() && w < 65536
      modifies this`outcnt, this`written, outbuf
      ensures Room() && Bytes() == old(Bytes()) + [w % 256, w / 256]
    {
      outbuf[outcnt] := w % 256;
      if outcnt < outbuf.Length - 2 {
        outbuf[outcnt + 1] := w / 256;
        outcnt := outcnt + 2;
        assert outbuf[..outcnt] == old(outbuf[..outcnt]) + [w % 256, w / 256];
        return;
      }
      outcnt := outcnt + 1;
      assert outbuf[..outcnt] == old(outbuf[..outcnt]) + [w % 256];
      if outcnt == outbuf.Length { FlushOutbuf(); }
      PutByte(w / 256);
    }

    /** `put_32bit`: four bytes, the low one first. */
    method Put32(n: nat)
      requires Room() && n < 0x1_0000_0000
      modifies this`outcnt, this`written, outbuf
      ensures Room() && Bytes() == old(Bytes()) + Long(n)
    {
      Put16(n % 65536);
      Put16(n / 65536);
    }

    /** Appends the low `length` bits of `value`, least significant first, to
        everything sent before. */
    method SendBits(value: nat, length: nat)
      requires Valid() && 1 <= length <= BUF_SIZE && value < Pow2(length)
      modifies this, outbuf
      ensures Valid() && Sent() == old(Sent()) + LsbBits(value, length)
    {
      hide ByteBits, LsbBits, Low, Shr, Full, Pow2;
      var v := biValid;
      var merged := Full(biBuf, value, v);
      if v > BUF_SIZE - length {
        var rest := Shr(Low(value, BUF_SIZE), BUF_SIZE - v);
        ghost var b := Bytes();
        Spill(b, biBuf, value, v, length);
        Put16(merged);
        biBuf, biValid := rest, v + length - BUF_SIZE;
        assert Bytes() == b + [merged % 256, merged / 256];
      } else {
        ghost var b := Bytes();
        Fits(b, biBuf, value, v, length);
        biBuf, biValid := merged, v + length;
        assert Bytes() == b;
      }
    }

    /** Zero bits up to the byte boundary, and nothing else. */
    method Windup()
      requires Valid()
      modifies this, outbuf
      ensures Valid() && biValid == 0 && biBuf == 0
      ensures Sent() == old(Sent()) + LsbBits(0, Padding(old(biValid)))
    {
      if biValid > 8 {
        WindupWord(Bytes(), biBuf, biValid);
        Put16(biBuf);
      } else if biValid > 0 {
        WindupByte(Bytes(), biBuf, biValid);
        PutByte(biBuf);
      }
      biBuf, biValid := 0, 0;
    }

    method PutBytes(buf: seq<Byte>)
      requires Room()
      modifies this`outcnt, this`written, outbuf
      ensures Room() && Bytes() == old(Bytes()) + buf
    {
      var i := 0;
      while i < |buf|
        invariant 0 <= i <= |buf|
        invariant Room() && Bytes() == old(Bytes()) + buf[..i]
      {
        PutByte(buf[i]);
        i := i + 1;
      }
      assert buf[..i] == buf;
    }

    /** A stored block: aligned, optionally headed by its length and the one's
        complement of it, and then the bytes themselves. */
    method CopyBlock(buf: seq<Byte>, header: bool)
      requires Valid() && |buf| < 65536
      modifies this, outbuf
      ensures Valid() && biValid == 0 && biBuf == 0
      ensures Sent() == old(Sent()) + LsbBits(0, Padding(old(biValid))) + ByteBits(StoredBytes(buf, header))
    {
      hide ByteBits;
      Windup();
      ghost var b := Bytes();
      assert Sent() == ByteBits(b);
      ghost var head := if header then Word(|buf|) + Word(65535 - |buf|) else [];
      if header {
        Put16(|buf|);
        Put16(65535 - |buf|);
      }
      assert Bytes() == b + head;
      PutBytes(buf);
      assert Bytes() == b + (head + buf);
      ByteBitsAppend(b, StoredBytes(buf, header));
    }
  }

  /** How many zero bits fill the last byte of `valid` accumulated bits. */
  function Padding(valid: nat): (p: nat)
    requires valid <= 16
    ensures p < 8 && (valid + p) % 8 == 0
  {
    if valid > 8 then 16 - valid else if valid > 0 then 8 - valid else 0
  }

  function Word(w: nat): (s: seq<Byte>)
    requires w < 65536
  {
    [w % 256, w / 256]
  }

  function Long(n: nat): (s: seq<Byte>)
    requires n < 0x1_0000_0000
  {
    Word(n % 65536) + Word(n / 65536)
  }

  /** The bytes of a stored block after alignment (section 3.2.4 of RFC 1951). */
  function StoredBytes(buf: seq<Byte>, header: bool): (s: seq<Byte>)
    requires |buf| < 65536
  {
    (if header then Word(|buf|) + Word(65535 - |buf|) else []) + buf
  }

  lemma WordBits(b: seq<Byte>, w: nat)
    requires w < 65536
    ensures ByteBits(b + [w % 256, w / 256]) == ByteBits(b) + LsbBits(w, 16)
  {
    var lo, hi := w % 256, w / 256;
    ByteBitsAppend(b, [lo, hi]);
    ByteBitsAppend([lo], [hi]);
    ByteBitsOne(lo);
    ByteBitsOne(hi);
    assert [lo, hi] == [lo] + [hi];
    Pow2Consts();
    LsbConcat(lo, hi, 8, 8);
    Shl8(hi);
  }

  lemma LowValue(v: nat, k: nat, n: nat)
    requires n <= k && v < Pow2(n)
    ensures Low(v, k) == v
  {
    Pow2Mono(n, k);
    LowSmall(v, k);
  }

  /** What `put_16bit` gets when the accumulator overflows. */
  function Full(buf: nat, value: nat, valid: nat): (w: nat)
    ensures w < 65536
  {
    Pow2Consts();
    Low(Or(buf, Shl(value, valid)), BUF_SIZE)
  }

  /** The accumulator overflows into the byte buffer without losing a bit. */
  lemma Spill(b: seq<Byte>, buf: nat, value: nat, valid: nat, length: nat)
    requires buf < Pow2(valid) && valid <= 16 && length <= 16 && valid > 16 - length && value < Pow2(length)
    ensures var full, rest, left := Full(buf, value, valid), Shr(Low(value, BUF_SIZE), BUF_SIZE - valid),
              valid + length - BUF_SIZE;
            && rest < Pow2(left)
            && ByteBits(b + [full % 256, full / 256]) + LsbBits(rest, left)
                 == ByteBits(b) + LsbBits(buf, valid) + LsbBits(value, length)
  {
    hide ByteBits, LsbBits, Low, Shl, Shr, Or, Pow2;
    var both, room := buf + Shl(value, valid), 16 - valid;
    OrShifted(buf, value, valid);
    LsbLow(both, 16, 16);
    LsbConcat(buf, value, valid, room);
    LsbSplit(value, room, length - room);
    LowValue(value, BUF_SIZE, length);
    ShrBound(value, room, length - room);
    SpillBits(b, Full(buf, value, valid), LsbBits(buf, valid), LsbBits(value, room),
              LsbBits(Shr(value, room), length - room));
  }

  lemma SpillBits(b: seq<Byte>, full: nat, x: Bits, y: Bits, z: Bits)
    requires full < 65536 && LsbBits(full, 16) == x + y
    ensures ByteBits(b + [full % 256, full / 256]) + z == ByteBits(b) + x + (y + z)
  {
    hide ByteBits, LsbBits;
    WordBits(b, full);
    Regroup(ByteBits(b), x, y, z);
  }

  lemma Fits(b: seq<Byte>, buf: nat, value: nat, valid: nat, length: nat)
    requires buf < Pow2(valid) && valid + length <= 16 && value < Pow2(length)
    ensures var full := Full(buf, value, valid);
            && full < Pow2(valid + length)
            && ByteBits(b) + LsbBits(full, valid + length) == ByteBits(b) + LsbBits(buf, valid) + LsbBits(value, length)
  {
    hide ByteBits, LsbBits, Low, Shl, Or, Pow2;
    OrShifted(buf, value, valid);
    ShlBelow(buf, value, valid, length);
    LowValue(buf + Shl(value, valid), 16, valid + length);
    LsbConcat(buf, value, valid, length);
    Assoc(ByteBits(b), LsbBits(buf, valid), LsbBits(value, length));
  }

  lemma {:induction false} ShlBelow(a: nat, b: nat, m: nat, n: nat)
    requires a < Pow2(m) && b < Pow2(n)
    ensures a + Shl(b, m) < Pow2(m + n)
  {
    if m > 0 { ShlBelow(a / 2, b, m - 1, n); }
  }

  lemma PadTo(buf: nat, valid: nat, n: nat)
    requires buf < Pow2(valid) && valid <= n
    ensures LsbBits(buf, n) == LsbBits(buf, valid) + LsbBits(0, n - valid)
    ensures buf < Pow2(n)
  {
    LsbSplit(buf, valid, n - valid);
    LowSmall(buf, valid);
    Pow2Mono(valid, n);
  }

  lemma WindupWord(b: seq<Byte>, buf: nat, valid: nat)
    requires buf < Pow2(valid) && valid <= 16
    ensures buf < 65536
    ensures ByteBits(b + [buf % 256, buf / 256]) == ByteBits(b) + LsbBits(buf, valid) + LsbBits(0, 16 - valid)
  {
    hide ByteBits, LsbBits, Pow2;
    Pow2Consts();
    PadTo(buf, valid, 16);
    WordBits(b, buf);
    Assoc(ByteBits(b), LsbBits(buf, valid), LsbBits(0, 16 - valid));
  }

  lemma WindupByte(b: seq<Byte>, buf: nat, valid: nat)
    requires buf < Pow2(valid) && valid <= 8
    ensures buf < 256
    ensures ByteBits(b + [buf]) == ByteBits(b) + LsbBits(buf, valid) + LsbBits(0, 8 - valid)
  {
    hide ByteBits, LsbBits, Pow2;
    Pow2Consts();
    PadTo(buf, valid, 8);
    ByteBitsAppend(b, [buf]);
    ByteBitsOne(buf);
    Assoc(ByteBits(b), LsbBits(buf, valid), LsbBits(0, 8 - valid));
  }
}
