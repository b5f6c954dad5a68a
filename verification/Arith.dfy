/** Powers of two, bitwise operations on naturals and finite sums:
    the arithmetic that the compressor models share. */
module Arith {

  type Byte = x: int | 0 <= x < 256

  function Pow2(n: nat): (r: nat)
    ensures r >= 1
  {
    if n == 0 then 1 else 2 * Pow2(n - 1)
  }

  lemma {:induction false} Pow2Mono(a: nat, b: nat)
    requires a <= b
    ensures Pow2(a) <= Pow2(b)
    decreases b - a
  {
    if a < b { Pow2Mono(a, b - 1); }
  }

  lemma Pow2Consts()
    ensures Pow2(2) == 4 && Pow2(3) == 8 && Pow2(4) == 16 && Pow2(5) == 32
    ensures Pow2(7) == 128 && Pow2(8) == 256 && Pow2(15) == 32768 && Pow2(16) == 65536
  {
    assert Pow2(4) == 16;
    assert Pow2(8) == 256;
    assert Pow2(12) == 4096;
    assert Pow2(16) == 65536;
  }

  /** The number of 32-bit values. */
  const TWO32: nat := 0x1_0000_0000

  const TWO29: nat := 0x2000_0000
  const TWO31: int := 0x8000_0000

  /** A 32-bit pattern read as a signed number. */
  function Signed(x: int): (r: int)
    ensures -TWO31 <= r < TWO31
    ensures -TWO31 <= x < TWO31 ==> r == x
    ensures -2 * TWO31 < x < -TWO31 ==> r == x + TWO32
    ensures TWO31 <= x < TWO32 ==> r == x - TWO32
  {
    (x + TWO31) % TWO32 - TWO31
  }

  /** `v >> n`. */
  function Shr(v: nat, n: nat): (r: nat)
    ensures r <= v
  {
    if n == 0 then v else Shr(v / 2, n - 1)
  }

  /** `v << n`. */
  function Shl(v: nat, n: nat): (r: nat)
    ensures r >= v
  {
    if n == 0 then v else 2 * Shl(v, n - 1)
  }

  /** The low `n` bits of `v`, that is, `v & ((1 << n) - 1)`. */
  function Low(v: nat, n: nat): (r: nat)
    ensures r < Pow2(n)
  {
    if n == 0 then 0 else v % 2 + 2 * Low(v / 2, n - 1)
  }

  lemma Shl8(v: nat)
    ensures Shl(v, 8) == 256 * v
  {
    assert Shl(v, 1) == 2 * v;
    assert Shl(v, 2) == 4 * v;
    assert Shl(v, 3) == 8 * v;
    assert Shl(v, 4) == 16 * v;
    assert Shl(v, 5) == 32 * v;
    assert Shl(v, 6) == 64 * v;
    assert Shl(v, 7) == 128 * v;
  }

  lemma {:induction false} LowSmall(v: nat, n: nat)
    requires v < Pow2(n)
    ensures Low(v, n) == v && Shr(v, n) == 0
  {
    if n > 0 { LowSmall(v / 2, n - 1); }
  }

  lemma {:induction false} ShrBound(v: nat, n: nat, k: nat)
    requires v < Pow2(n + k)
    ensures Shr(v, n) < Pow2(k)
  {
    if n > 0 { ShrBound(v / 2, n - 1, k); }
  }

  lemma {:induction false} ShlBound(v: nat, n: nat, k: nat)
    requires v <= Pow2(k)
    ensures Shl(v, n) <= Pow2(k + n)
  {
    if n > 0 { ShlBound(v, n - 1, k); }
  }

  lemma {:induction false} ShlOne(k: nat)
    ensures Shl(1, k) == Pow2(k)
  {
    if k > 0 { ShlOne(k - 1); }
  }

  /** Shifting in low bits and shifting them out again. */
  lemma {:induction false} ShlShr(a: nat, b: nat, n: nat)
    requires a < Pow2(n)
    ensures Shr(a + Shl(b, n), n) == b && Low(a + Shl(b, n), n) == a
  {
    if n > 0 {
      var c := Shl(b, n - 1);
      assert (a + 2 * c) / 2 == a / 2 + c && (a + 2 * c) % 2 == a % 2;
      ShlShr(a / 2, b, n - 1);
    }
  }

  lemma {:induction false} ShrMono(a: nat, b: nat, n: nat)
    requires a <= b
    ensures Shr(a, n) <= Shr(b, n)
  {
    if n > 0 { ShrMono(a / 2, b / 2, n - 1); }
  }

  lemma {:induction false} ShlAdd(a: nat, b: nat, n: nat)
    ensures Shl(a + b, n) == Shl(a, n) + Shl(b, n)
  {
    if n > 0 { ShlAdd(a, b, n - 1); }
  }

  /** The bitwise OR of two naturals. */
  function Or(a: nat, b: nat): (r: nat)
    decreases a + b
  {
    if a == 0 then b else if b == 0 then a
    else (if a % 2 == 1 || b % 2 == 1 then 1 else 0) + 2 * Or(a / 2, b / 2)
  }

  /** OR-ing a value shifted past all the bits of `a` is addition. */
  lemma {:induction false} OrShifted(a: nat, b: nat, k: nat)
    requires a < Pow2(k)
    ensures Or(a, Shl(b, k)) == a + Shl(b, k)
  {
    if a == 0 || Shl(b, k) == 0 {
    } else {
      var c := Shl(b, k - 1);
      OrShifted(a / 2, b, k - 1);
      assert Or(a, 2 * c) == a % 2 + 2 * Or(a / 2, c);
    }
  }

  lemma OrBit(r: nat, bit: nat)
    requires bit < 2
    ensures Or(2 * r, bit) == 2 * r + bit
  {
    if r > 0 && bit > 0 {
      assert Or(2 * r, bit) == 1 + 2 * Or(r, 0);
    }
  }

  /** The sum of a sequence. */
  function Sum(s: seq<nat>): (r: nat)
  {
    if s == [] then 0 else s[0] + Sum(s[1..])
  }

  lemma {:induction false} SumUpdate(s: seq<nat>, i: nat, v: nat)
    requires i < |s|
    ensures Sum(s[i := v]) == Sum(s) - s[i] + v
  {
    var t := s[i := v];
    if i == 0 {
      assert t[1..] == s[1..];
    } else {
      assert t[1..] == s[1..][i - 1 := v];
      SumUpdate(s[1..], i - 1, v);
    }
  }

  lemma {:induction false} SumAppend(a: seq<nat>, b: seq<nat>)
    ensures Sum(a + b) == Sum(a) + Sum(b)
  {
    if a == [] {
      assert a + b == b;
    } else {
      assert (a + b)[1..] == a[1..] + b;
      SumAppend(a[1..], b);
    }
  }

  /** A sum bounds each of its terms. */
  lemma {:induction false} SumTerm(s: seq<nat>, i: nat)
    requires i < |s|
    ensures s[i] <= Sum(s)
  {
    if i > 0 { SumTerm(s[1..], i - 1); }
  }

  lemma {:induction false} SumZero(s: seq<nat>)
    requires forall i :: 0 <= i < |s| ==> s[i] == 0
    ensures Sum(s) == 0
  {
    if s != [] { SumZero(s[1..]); }
  }

  /** The sum of `f[i] * c[i]`: a number of symbols at a cost each. */
  function Dot(f: seq<nat>, c: seq<nat>): (r: nat)
    requires |f| == |c|
  {
    if f == [] then 0 else f[0] * c[0] + Dot(f[1..], c[1..])
  }

  lemma {:induction false} DotUpdateLeft(f: seq<nat>, c: seq<nat>, i: nat, v: nat)
    requires |f| == |c| && i < |f|
    ensures Dot(f[i := v], c) == Dot(f, c) - f[i] * c[i] + v * c[i]
  {
    var t := f[i := v];
    if i == 0 {
      assert t[1..] == f[1..];
    } else {
      assert t[1..] == f[1..][i - 1 := v];
      DotUpdateLeft(f[1..], c[1..], i - 1, v);
    }
  }

  lemma {:induction false} DotSym(f: seq<nat>, c: seq<nat>)
    requires |f| == |c|
    ensures Dot(f, c) == Dot(c, f)
  {
    if f != [] { DotSym(f[1..], c[1..]); }
  }

  lemma DotUpdateRight(f: seq<nat>, c: seq<nat>, i: nat, v: nat)
    requires |f| == |c| && i < |f|
    ensures Dot(f, c[i := v]) == Dot(f, c) - f[i] * c[i] + f[i] * v
  {
    DotSym(f, c);
    DotSym(f, c[i := v]);
    DotUpdateLeft(c, f, i, v);
  }

  lemma DotClear(f: seq<nat>, c: seq<nat>, i: nat)
    requires |f| == |c| && i < |f|
    ensures Dot(f[i := 0], c) == Dot(f, c) - f[i] * c[i]
  {
    DotUpdateLeft(f, c, i, 0);
  }

  lemma DotSet(f: seq<nat>, c: seq<nat>, i: nat, v: nat)
    requires |f| == |c| && i < |f| && f[i] == 0
    ensures Dot(f[i := v], c) == Dot(f, c) + v * c[i]
  {
    DotUpdateLeft(f, c, i, v);
  }

  lemma DotIgnore(f: seq<nat>, c: seq<nat>, i: nat, v: nat)
    requires |f| == |c| && i < |f| && f[i] == 0
    ensures Dot(f, c[i := v]) == Dot(f, c)
  {
    DotUpdateRight(f, c, i, v);
  }

  /** A cheaper symbol lowers the total. */
  lemma DotLess(f: seq<nat>, c: seq<nat>, i: nat, v: nat)
    requires |f| == |c| && i < |f| && v <= c[i]
    ensures Dot(f, c[i := v]) <= Dot(f, c)
  {
    DotUpdateRight(f, c, i, v);
    MulMono(v, c[i], f[i]);
  }

  lemma MulDist(f: int, a: int, b: int)
    ensures f * (a + b) == f * a + f * b
  {
  }

  lemma MulMono(a: nat, b: nat, c: nat)
    requires a <= b
    ensures c * a <= c * b
  {
    assert c * (b - a) >= 0;
  }

  lemma {:induction false} DotZero(f: seq<nat>, c: seq<nat>)
    requires |f| == |c|
    requires forall i :: 0 <= i < |f| ==> f[i] == 0 || c[i] == 0
    ensures Dot(f, c) == 0
  {
    if f != [] { DotZero(f[1..], c[1..]); }
  }

  lemma SubsetSize<T>(a: set<T>, b: set<T>)
    requires a <= b
    ensures |a| <= |b|
  {
    assert b == a + (b - a);
    assert |a + (b - a)| == |a| + |b - a|;
  }
}
