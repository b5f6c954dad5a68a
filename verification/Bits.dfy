/** Bit strings: how numbers and bytes are laid out in a DEFLATE stream
    (section 3.1.1 of RFC 1951: data elements LSB-first, Huffman codes MSB-first). */
module Bits {
  import opened Arith

  type Bits = seq<bool>

  /** The low `n` bits of `v`, least significant first. */
  function LsbBits(v: nat, n: nat): (r: Bits)
    ensures |r| == n
  {
    if n == 0 then [] else [v % 2 == 1] + LsbBits(v / 2, n - 1)
  }

  /** The low `n` bits of `v`, most significant first. */
  function MsbBits(v: nat, n: nat): (r: Bits)
    ensures |r| == n
  {
    if n == 0 then [] else MsbBits(v / 2, n - 1) + [v % 2 == 1]
  }

  /** The number an LSB-first bit string stands for. */
  function LsbValue(b: Bits): (v: nat)
    ensures v < Pow2(|b|)
  {
    if b == [] then 0 else (if b[0] then 1 else 0) + 2 * LsbValue(b[1..])
  }

  /** A byte string as bits, each byte LSB-first. */
  function ByteBits(s: seq<Byte>): (r: Bits)
    ensures |r| == 8 * |s|
  {
    if s == [] then [] else LsbBits(s[0], 8) + ByteBits(s[1..])
  }

  /** `code` stands in `bits` at position `pos`. */
  ghost predicate At(bits: Bits, pos: nat, code: Bits) {
    pos + |code| <= |bits| && bits[pos .. pos + |code|] == code
  }

  lemma Regroup(a: Bits, b: Bits, c: Bits, d: Bits)
    ensures a + (b + c) + d == a + b + (c + d)
  {
  }

  lemma Assoc(a: Bits, b: Bits, c: Bits)
    ensures a + (b + c) == a + b + c
  {
  }

  lemma AtSplit(bits: Bits, pos: nat, a: Bits, b: Bits)
    ensures At(bits, pos, a + b) <==> At(bits, pos, a) && At(bits, pos + |a|, b)
  {
    if At(bits, pos, a + b) {
      var w := bits[pos .. pos + |a + b|];
      assert bits[pos .. pos + |a|] == w[..|a|] == a;
      assert bits[pos + |a| .. pos + |a| + |b|] == w[|a|..] == b;
    }
    if At(bits, pos, a) && At(bits, pos + |a|, b) {
      assert bits[pos .. pos + |a + b|] == bits[pos .. pos + |a|] + bits[pos + |a| .. pos + |a| + |b|];
    }
  }

  lemma {:induction false} LsbSplit(v: nat, m: nat, n: nat)
    ensures LsbBits(v, m + n) == LsbBits(v, m) + LsbBits(Shr(v, m), n)
  {
    if m > 0 { LsbSplit(v / 2, m - 1, n); }
  }

  /** Bits above the `n` kept ones do not matter. */
  lemma {:induction false} LsbLow(v: nat, n: nat, k: nat)
    requires n <= k
    ensures LsbBits(Low(v, k), n) == LsbBits(v, n)
  {
    if n > 0 { LsbLow(v / 2, n - 1, k - 1); }
  }

  /** A low part and a shifted high part concatenate. */
  lemma LsbConcat(a: nat, b: nat, m: nat, n: nat)
    requires a < Pow2(m)
    ensures LsbBits(a + Shl(b, m), m + n) == LsbBits(a, m) + LsbBits(b, n)
  {
    var v := a + Shl(b, m);
    ShlShr(a, b, m);
    LsbSplit(v, m, n);
    LsbLow(v, m, m);
  }

  lemma {:induction false} LsbValueBits(v: nat, n: nat)
    requires v < Pow2(n)
    ensures LsbValue(LsbBits(v, n)) == v
  {
    if n > 0 { LsbValueBits(v / 2, n - 1); }
  }

  lemma {:induction false} LsbBitsValue(b: Bits)
    ensures LsbBits(LsbValue(b), |b|) == b
  {
    if b != [] {
      LsbBitsValue(b[1..]);
      assert b == [b[0]] + b[1..];
    }
  }

  lemma {:induction false} LsbZero(n: nat)
    ensures LsbBits(0, n) == seq(n, i => false)
  {
    if n > 0 { LsbZero(n - 1); }
  }

  lemma {:induction false} ByteBitsAppend(a: seq<Byte>, b: seq<Byte>)
    ensures ByteBits(a + b) == ByteBits(a) + ByteBits(b)
  {
    if a == [] {
      assert a + b == b;
    } else {
      assert (a + b)[1..] == a[1..] + b;
      ByteBitsAppend(a[1..], b);
    }
  }

  lemma ByteBitsOne(x: Byte)
    ensures ByteBits([x]) == LsbBits(x, 8)
  {
    assert ByteBits([x]) == LsbBits(x, 8) + ByteBits([]);
  }

  /** MSB-first strings split like the number does: prefix of a code is its quotient. */
  lemma {:induction false} MsbSplit(v: nat, m: nat, n: nat)
    ensures MsbBits(v, m + n) == MsbBits(Shr(v, n), m) + MsbBits(v, n)
  {
    if n > 0 { MsbSplit(v / 2, m, n - 1); }
  }

  lemma {:induction false} MsbInjective(a: nat, b: nat, n: nat)
    requires a < Pow2(n) && b < Pow2(n)
    requires MsbBits(a, n) == MsbBits(b, n)
    ensures a == b
  {
    if n > 0 {
      var x, y := MsbBits(a, n), MsbBits(b, n);
      assert x[..n - 1] == MsbBits(a / 2, n - 1);
      assert y[..n - 1] == MsbBits(b / 2, n - 1);
      MsbInjective(a / 2, b / 2, n - 1);
      assert x[n - 1] == (a % 2 == 1) && y[n - 1] == (b % 2 == 1);
    }
  }
}
