/** Canonical Huffman codes: the code that section 3.2.2 of RFC 1951 assigns to a
    sequence of code lengths, and gzip's generation of it. */
module Canonical {
  import opened Arith
  import opened Bits

  /** All codes have at most this many bits. */
  const MAX_BITS: nat := 15

  /** `ct_data`: two 16-bit unions, frequency or code, and father node or length. */
  datatype CtData = CtData(fc: nat, dl: nat)

  /** The number of symbols of code length `b`. */
  function Count(lens: seq<nat>, b: nat): (r: nat)
    ensures r <= |lens|
  {
    if lens == [] then 0
    else Count(lens[..|lens| - 1], b) + (if lens[|lens| - 1] == b then 1 else 0)
  }

  /** `bl_count`: the number of codes of each length; length 0 means "not used". */
  function BlCount(lens: seq<nat>): (r: seq<nat>)
    ensures |r| == MAX_BITS + 1 && r[0] == 0
    ensures forall b :: 1 <= b <= MAX_BITS ==> r[b] == Count(lens, b)
  {
    seq(MAX_BITS + 1, b requires 0 <= b => if b == 0 then 0 else Count(lens, b))
  }

  /** How many `b`-bit strings start with one of the codes of at most `b` bits:
      the Kraft sum of those codes, in units of `2^-b`. */
  function Fill(blc: seq<nat>, b: nat): (r: nat)
    requires b < |blc|
  {
    if b == 0 then 0 else 2 * Fill(blc, b - 1) + blc[b]
  }

  /** The first code of length `b`. */
  function NextCode(blc: seq<nat>, b: nat): (r: nat)
    requires b < |blc|
  {
    if b == 0 then 0 else 2 * Fill(blc, b - 1)
  }

  ghost predicate LensOk(lens: seq<nat>) {
    && (forall i :: 0 <= i < |lens| ==> lens[i] <= MAX_BITS)
    && Fill(BlCount(lens), MAX_BITS) <= Pow2(MAX_BITS)
  }

  /** Section 3.2.2 of RFC 1951: codes of one length are consecutive in symbol order. */
  function CodeValue(lens: seq<nat>, s: nat): (r: nat)
    requires s < |lens| && lens[s] <= MAX_BITS
  {
    NextCode(BlCount(lens), lens[s]) + Count(lens[..s], lens[s])
  }

  function Code(lens: seq<nat>, s: nat): (r: Bits)
    requires s < |lens| && lens[s] <= MAX_BITS
    ensures |r| == lens[s]
  {
    MsbBits(CodeValue(lens, s), lens[s])
  }

  // ----- counting -----

  lemma {:induction false} CountSplit(a: seq<nat>, c: seq<nat>, b: nat)
    ensures Count(a + c, b) == Count(a, b) + Count(c, b)
  {
    if c == [] {
      assert a + c == a;
    } else {
      var c' := c[..|c| - 1];
      assert (a + c)[..|a + c| - 1] == a + c';
      CountSplit(a, c', b);
    }
  }

  /** Fewer symbols of a length stand before `s` than before a later one of that length. */
  lemma CountBefore(lens: seq<nat>, s: nat, t: nat)
    requires s < t <= |lens|
    ensures Count(lens[..s], lens[s]) < Count(lens[..t], lens[s])
  {
    assert lens[..t] == lens[..s + 1] + lens[s + 1 .. t];
    CountSplit(lens[..s + 1], lens[s + 1 .. t], lens[s]);
    assert lens[..s + 1][..s] == lens[..s];
  }

  lemma {:induction false} CountUpdate(lens: seq<nat>, s: nat, v: nat, b: nat)
    requires s < |lens| && v != lens[s]
    ensures Count(lens[s := v], b) ==
            Count(lens, b) + (if b == v then 1 else 0) - (if b == lens[s] then 1 else 0)
  {
    var pre, post := lens[..s], lens[s + 1..];
    assert lens == pre + [lens[s]] + post;
    assert lens[s := v] == pre + [v] + post;
    CountSplit(pre + [lens[s]], post, b);
    CountSplit(pre + [v], post, b);
    CountSplit(pre, [lens[s]], b);
    CountSplit(pre, [v], b);
    CountOne(lens[s], b);
    CountOne(v, b);
  }

  lemma CountOne(x: nat, b: nat)
    ensures Count([x], b) == if x == b then 1 else 0
  {
    assert [x][..0] == [];
  }

  /** One code of length `b` takes `2^(m - b)` of the `m`-bit strings. */
  lemma {:induction false} FillUpdate(blc: seq<nat>, b: nat, v: nat, m: nat)
    requires 1 <= b <= m < |blc|
    ensures Fill(blc[b := v], m) + Shl(blc[b], m - b) == Fill(blc, m) + Shl(v, m - b)
  {
    if b == m {
      FillSame(blc, blc[b := v], m - 1);
    } else {
      FillUpdate(blc, b, v, m - 1);
    }
  }

  lemma {:induction false} FillSame(a: seq<nat>, b: seq<nat>, m: nat)
    requires m < |a| && m < |b| && forall i :: 1 <= i <= m ==> a[i] == b[i]
    ensures Fill(a, m) == Fill(b, m)
  {
    if m > 0 { FillSame(a, b, m - 1); }
  }

  /** Codes of at most `b` bits leave room for all longer ones. */
  lemma {:induction false} FillGrows(blc: seq<nat>, b: nat, m: nat)
    requires b <= m < |blc|
    ensures Fill(blc, m) >= Shl(Fill(blc, b), m - b)
  {
    if b < m { FillGrows(blc, b, m - 1); }
  }

  lemma {:induction false} FillBound(blc: seq<nat>, b: nat, m: nat)
    requires b <= m < |blc| && Fill(blc, m) <= Pow2(m)
    ensures Fill(blc, b) <= Pow2(b)
    decreases m - b
  {
    if b < m {
      FillBound(blc, b + 1, m);
    }
  }

  // ----- codes -----

  /** No code leaves its bit width. */
  lemma CodeInWidth(lens: seq<nat>, s: nat)
    requires LensOk(lens) && s < |lens| && lens[s] > 0
    ensures CodeValue(lens, s) < Fill(BlCount(lens), lens[s]) <= Pow2(lens[s])
  {
    FillBound(BlCount(lens), lens[s], MAX_BITS);
    assert lens[..|lens|] == lens;
    CountBefore(lens, s, |lens|);
  }

  /** A shorter code is smaller than the same number of leading bits of any longer one. */
  lemma ShorterIsSmaller(lens: seq<nat>, s: nat, t: nat)
    requires LensOk(lens) && s < |lens| && t < |lens| && 0 < lens[s] < lens[t]
    ensures CodeValue(lens, s) < Shr(CodeValue(lens, t), lens[t] - lens[s])
  {
    hide Count, Pow2;
    CodeInWidth(lens, s);
    var blc, a, b := BlCount(lens), lens[s], lens[t];
    FillGrows(blc, a, b - 1);
    var f := Fill(blc, a);
    ShlShr(0, f, b - a);
    assert Shl(f, b - a) == 2 * Shl(f, b - 1 - a) <= NextCode(blc, b) <= CodeValue(lens, t);
    ShrMono(Shl(f, b - a), CodeValue(lens, t), b - a);
  }

  lemma PrefixOf(a: Bits, b: Bits)
    ensures (a + b)[..|a|] == a
  {
  }

  lemma PrefixIsQuotient(x: nat, a: nat, y: nat, b: nat)
    requires a <= b && x < Pow2(a) && y < Pow2(b) && MsbBits(x, a) == MsbBits(y, b)[..a]
    ensures x == Shr(y, b - a)
  {
    hide MsbBits, Shr, Pow2;
    MsbSplit(y, a, b - a);
    PrefixOf(MsbBits(Shr(y, b - a), a), MsbBits(y, b - a));
    ShrBound(y, b - a, a);
    MsbInjective(x, Shr(y, b - a), a);
  }

  /** The code is prefix-free. */
  lemma PrefixFree(lens: seq<nat>, s: nat, t: nat)
    requires LensOk(lens) && s < |lens| && t < |lens| && s != t && 0 < lens[s] && 0 < lens[t]
    ensures !(Code(lens, s) <= Code(lens, t))
  {
    if Code(lens, s) <= Code(lens, t) {
      CodeInWidth(lens, s);
      CodeInWidth(lens, t);
      PrefixIsQuotient(CodeValue(lens, s), lens[s], CodeValue(lens, t), lens[t]);
      if lens[s] < lens[t] {
        ShorterIsSmaller(lens, s, t);
      } else if s < t {
        CountBefore(lens, s, t);
      } else {
        CountBefore(lens, t, s);
      }
    }
  }

  // ----- reading a code -----

  datatype Found = NotFound | Symbol(sym: nat, next: nat)

  /** The first symbol from `s` on whose code stands in `bits` at `pos`. */
  ghost function FindFrom(lens: seq<nat>, bits: Bits, pos: nat, s: nat): (r: Found)
    requires s <= |lens|
    ensures r.Symbol? ==> s <= r.sym < |lens| && pos < r.next <= |bits|
    decreases |lens| - s
  {
    if s == |lens| then NotFound
    else if 0 < lens[s] <= MAX_BITS && At(bits, pos, Code(lens, s)) then Symbol(s, pos + lens[s])
    else FindFrom(lens, bits, pos, s + 1)
  }

  /** The symbol whose code stands in `bits` at `pos`, and the position after it. */
  ghost function ReadSymbol(lens: seq<nat>, bits: Bits, pos: nat): (r: Found)
    ensures r.Symbol? ==> r.sym < |lens| && pos < r.next <= |bits|
  {
    FindFrom(lens, bits, pos, 0)
  }

  lemma {:induction false} FindFinds(lens: seq<nat>, bits: Bits, pos: nat, s: nat, t: nat)
    requires LensOk(lens) && s <= t < |lens| && lens[t] > 0 && At(bits, pos, Code(lens, t))
    ensures FindFrom(lens, bits, pos, s) == Symbol(t, pos + lens[t])
    decreases t - s
  {
    if s < t {
      if lens[s] > 0 && At(bits, pos, Code(lens, s)) {
        TwoCodesAt(lens, bits, pos, s, t);
        assert false;
      }
      FindFinds(lens, bits, pos, s + 1, t);
    }
  }

  lemma TwoCodesAt(lens: seq<nat>, bits: Bits, pos: nat, s: nat, t: nat)
    requires LensOk(lens) && s < |lens| && t < |lens| && lens[s] > 0 && lens[t] > 0
    requires At(bits, pos, Code(lens, s)) && At(bits, pos, Code(lens, t))
    ensures s == t
  {
    if s != t {
      if lens[s] <= lens[t] {
        PrefixAt(bits, pos, Code(lens, s), Code(lens, t));
        PrefixFree(lens, s, t);
      } else {
        PrefixAt(bits, pos, Code(lens, t), Code(lens, s));
        PrefixFree(lens, t, s);
      }
    }
  }

  lemma PrefixAt(bits: Bits, pos: nat, a: Bits, b: Bits)
    requires At(bits, pos, a) && At(bits, pos, b) && |a| <= |b|
    ensures a <= b
  {
    assert bits[pos .. pos + |b|][..|a|] == bits[pos .. pos + |a|];
  }

  /** Reading a code gives back the symbol it was made for. */
  lemma ReadBack(lens: seq<nat>, bits: Bits, pos: nat, s: nat)
    requires LensOk(lens) && s < |lens| && lens[s] > 0 && At(bits, pos, Code(lens, s))
    ensures ReadSymbol(lens, bits, pos) == Symbol(s, pos + lens[s])
  {
    FindFinds(lens, bits, pos, 0, s);
  }

  // ----- gen_codes -----

  /** Sending the reversed code LSB-first is sending the code MSB-first. */
  method BiReverse(code: nat, len: nat) returns (res: nat)
    requires 1 <= len
    ensures res == LsbValue(MsbBits(code, len))
  {
    res := 0;
    var c, l := code, len;
    ghost var i, r := 0, 0;
    while true
      invariant 1 <= l <= len && i == len - l && c == Shr(code, i) && res == 2 * r
      invariant r == LsbValue(MsbBits(code, i))
      decreases l
    {
      MsbSplit(code, 1, i);
      ghost var bit := c % 2;
      OrBit(r, bit);
      res := Or(res, c % 2);
      ghost var m := MsbBits(code, i + 1);
      assert m == [bit == 1] + MsbBits(code, i) && m[1..] == MsbBits(code, i);
      l := l - 1;
      if l == 0 { return; }
      ShrStep(code, i);
      c := c / 2;
      r, i := res, i + 1;
      res := res * 2;
    }
  }

  lemma {:induction false} ShrStep(v: nat, n: nat)
    ensures Shr(v, n) / 2 == Shr(v, n + 1)
  {
    if n > 0 { ShrStep(v / 2, n - 1); }
  }

  function LensOf(tree: seq<CtData>): (r: seq<nat>)
    ensures |r| == |tree| && forall i :: 0 <= i < |r| ==> r[i] == tree[i].dl
  {
    seq(|tree|, i requires 0 <= i < |tree| => tree[i].dl)
  }

  /** The codes of a tree are those of its lengths, reversed for sending. */
  ghost predicate CodesOk(tree: seq<CtData>, lens: seq<nat>) {
    && |lens| <= |tree|
    && forall n :: 0 <= n < |lens| ==>
         tree[n].dl == lens[n] && (0 < lens[n] <= MAX_BITS ==> tree[n].fc == Reversed(lens, n))
  }

  ghost function Reversed(lens: seq<nat>, n: nat): (r: nat)
    requires n < |lens| && lens[n] <= MAX_BITS
    ensures r < Pow2(lens[n])
  {
    LsbValue(Code(lens, n))
  }

  lemma ReversedSends(lens: seq<nat>, n: nat)
    requires n < |lens| && lens[n] <= MAX_BITS
    ensures LsbBits(Reversed(lens, n), lens[n]) == Code(lens, n)
  {
    LsbBitsValue(Code(lens, n));
  }

  lemma NextCodeStep(lens: seq<nat>, b: nat)
    requires LensOk(lens) && 1 <= b <= MAX_BITS
    ensures var blc := BlCount(lens); 2 * (NextCode(blc, b - 1) + blc[b - 1]) == NextCode(blc, b) <= 32768
  {
    FillBound(BlCount(lens), b - 1, MAX_BITS);
    Pow2Mono(b, MAX_BITS);
    Pow2Consts();
  }

  /** The first loop of `gen_codes`: the first code of each length, in 16 bits. */
  method FirstCodes(blCount: array<nat>, nextCode: array<nat>, ghost lens: seq<nat>)
    requires blCount.Length == nextCode.Length == MAX_BITS + 1 && blCount != nextCode
    requires LensOk(lens) && blCount[..] == BlCount(lens)
    modifies nextCode
    ensures forall b :: 1 <= b <= MAX_BITS ==> nextCode[b] == NextCode(BlCount(lens), b)
  {
    hide Fill, Count, Pow2;
    var code, bits := 0, 1;
    ghost var blc := BlCount(lens);
    while bits <= MAX_BITS
      invariant 1 <= bits <= MAX_BITS + 1
      invariant code == NextCode(blc, bits - 1)
      invariant forall b :: 1 <= b < bits ==> nextCode[b] == NextCode(blc, b)
    {
      assert blCount[bits - 1] == blc[bits - 1];
      NextCodeStep(lens, bits);
      code := 2 * (code + blCount[bits - 1]) % 65536;
      nextCode[bits] := code;
      bits := bits + 1;
    }
  }

  /** `next_code` once the symbols below `n` have their codes. */
  ghost predicate NextCodes(next: seq<nat>, lens: seq<nat>, n: nat) {
    && |next| == MAX_BITS + 1 && n <= |lens|
    && forall b :: 1 <= b <= MAX_BITS ==> next[b] == NextCode(BlCount(lens), b) + Count(lens[..n], b)
  }

  /** The symbol `n` takes the next code of its length. */
  method GenCode(tree: array<CtData>, n: nat, nextCode: array<nat>, ghost lens: seq<nat>)
    requires n < |lens| <= tree.Length && lens[n] <= MAX_BITS && tree[n].dl == lens[n]
    requires NextCodes(nextCode[..], lens, n)
    modifies tree, nextCode
    ensures NextCodes(nextCode[..], lens, n + 1)
    ensures tree[..] == old(tree[..])[n := tree[n]]
    ensures tree[n].dl == lens[n] && (lens[n] > 0 ==> tree[n].fc == Reversed(lens, n))
  {
    var len := tree[n].dl;
    CountStep(lens, n);
    if len != 0 {
      assert nextCode[..][len] == CodeValue(lens, n);
      var code := BiReverse(nextCode[len], len);
      tree[n] := tree[n].(fc := code);
      nextCode[len] := nextCode[len] + 1;
    }
    assert forall b :: 1 <= b <= MAX_BITS ==> nextCode[..][b] == old(nextCode[..])[b] + (if len == b then 1 else 0);
  }

  /** `gen_codes`: every used symbol gets the canonical code of its length,
      reversed so that sending it LSB-first sends the code MSB-first. */
  method GenCodes(tree: array<CtData>, maxCode: nat, blCount: array<nat>, ghost lens: seq<nat>)
    requires maxCode < tree.Length && blCount.Length == MAX_BITS + 1
    requires lens == LensOf(tree[..maxCode + 1]) && LensOk(lens) && blCount[..] == BlCount(lens)
    modifies tree
    ensures CodesOk(tree[..], lens)
    ensures forall n :: maxCode < n < tree.Length ==> tree[n] == old(tree[n])
  {
    var nextCode := new nat[MAX_BITS + 1](_ => 0);
    FirstCodes(blCount, nextCode, lens);
    assert forall b :: 1 <= b <= MAX_BITS ==> Count(lens[..0], b) == 0;
    ghost var was, t := tree[..], tree[..];
    var n := 0;
    while n <= maxCode
      invariant 0 <= n <= maxCode + 1 && t == tree[..]
      invariant NextCodes(nextCode[..], lens, n)
      invariant forall i :: n <= i < |t| ==> t[i] == was[i]
      invariant forall i :: 0 <= i < n ==> t[i].dl == lens[i] && (0 < lens[i] ==> t[i].fc == Reversed(lens, i))
    {
      GenCode(tree, n, nextCode, lens);
      t := t[n := tree[n]];
      n := n + 1;
    }
  }

  lemma CountStep(lens: seq<nat>, n: nat)
    requires n < |lens|
    ensures forall b :: Count(lens[..n + 1], b) == Count(lens[..n], b) + (if lens[n] == b then 1 else 0)
  {
    assert lens[..n + 1][..n] == lens[..n];
  }
}
