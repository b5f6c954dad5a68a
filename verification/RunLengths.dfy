/** The run-length code for sequences of code lengths (section 3.2.7 of RFC 1951): the
    symbols `scan_tree` counts and `send_tree` sends, and what they decode to. */
module RunLengths {
  import opened Arith
  import opened Canonical

  const REP_3_6: nat := 16
  const REPZ_3_10: nat := 17
  const REPZ_11_138: nat := 18
  const BL_CODES: nat := 19

  /** A symbol of the bit length alphabet and the value of its extra bits. */
  datatype Tok = Tok(sym: nat, extra: nat)

  /** The number of extra bits of a symbol: `extra_blbits`. */
  function ExtraBits(sym: nat): (n: nat) {
    if sym == REP_3_6 then 2 else if sym == REPZ_3_10 then 3 else if sym == REPZ_11_138 then 7 else 0
  }

  ghost predicate TokOk(t: Tok) {
    t.sym < BL_CODES && t.extra < Pow2(ExtraBits(t.sym))
  }

  function Repeat(x: nat, n: nat): (s: seq<nat>)
    ensures |s| == n && forall i :: 0 <= i < n ==> s[i] == x
  {
    seq(n, _ => x)
  }

  datatype Lens = Bad | Lens(lens: seq<nat>)

  /** One symbol of section 3.2.7 of RFC 1951, after the lengths `out`. */
  function Decode1(out: seq<nat>, t: Tok): (r: Lens) {
    if t.sym < 16 then Lens(out + [t.sym])
    else if t.sym == REP_3_6 then
      if out == [] then Bad else Lens(out + Repeat(out[|out| - 1], 3 + t.extra))
    else if t.sym == REPZ_3_10 then Lens(out + Repeat(0, 3 + t.extra))
    else if t.sym == REPZ_11_138 then Lens(out + Repeat(0, 11 + t.extra))
    else Bad
  }

  function Decode(out: seq<nat>, toks: seq<Tok>): (r: Lens)
    decreases |toks|
  {
    if toks == [] then Lens(out)
    else match Decode1(out, toks[0])
      case Bad => Bad
      case Lens(o) => Decode(o, toks[1..])
  }

  lemma {:induction false} DecodeAppend(out: seq<nat>, a: seq<Tok>, b: seq<Tok>)
    ensures Decode(out, a + b) == if Decode(out, a).Lens? then Decode(Decode(out, a).lens, b) else Bad
    decreases |a|
  {
    if a == [] {
      assert a + b == b;
    } else {
      assert (a + b)[0] == a[0] && (a + b)[1..] == a[1..] + b;
      match Decode1(out, a[0])
      case Bad =>
      case Lens(o) => DecodeAppend(o, a[1..], b);
    }
  }

  // ----- what the two loops emit -----

  function MaxCount(prev: int, next: nat): (n: nat) {
    if next == 0 then 138 else if next == prev then 6 else 7
  }

  function MinCount(prev: int, next: nat): (n: nat) {
    if next == 0 then 3 else if next == prev then 3 else 4
  }

  /** The symbols for a run of `count` lengths `cur` after the length `prev`. */
  function Flush(cur: nat, prev: int, count: nat, minCount: nat): (r: seq<Tok>) {
    if count < minCount then seq(count, _ => Tok(cur, 0))
    else if cur != 0 then
      if cur != prev then [Tok(cur, 0), Tok(REP_3_6, if count >= 4 then count - 4 else 0)]
      else [Tok(REP_3_6, if count >= 3 then count - 3 else 0)]
    else if count <= 10 then [Tok(REPZ_3_10, if count >= 3 then count - 3 else 0)]
    else [Tok(REPZ_11_138, count - 11)]
  }

  const GUARD: nat := 0xffff

  function NextLen(lens: seq<nat>, n: nat): (l: nat) {
    if n + 1 < |lens| then lens[n + 1] else GUARD
  }

  /** The loop of `scan_tree` and `send_tree` from position `n` on. */
  function RunsFrom(lens: seq<nat>, n: nat, prev: int, count: nat, maxCount: nat, minCount: nat): (r: seq<Tok>)
    requires n <= |lens|
    decreases |lens| - n
  {
    if n == |lens| then []
    else
      var cur, next := lens[n], NextLen(lens, n);
      if count + 1 < maxCount && cur == next then RunsFrom(lens, n + 1, prev, count + 1, maxCount, minCount)
      else Flush(cur, prev, count + 1, minCount) +
           RunsFrom(lens, n + 1, cur, 0, MaxCount(cur, next), MinCount(cur, next))
  }

  /** The symbols emitted for a sequence of lengths. */
  function Runs(lens: seq<nat>): (r: seq<Tok>) {
    if lens == [] then [] else RunsFrom(lens, 0, -1, 0, MaxCount(-1, lens[0]), MinCount(-1, lens[0]))
  }

  // ----- decoding them -----

  /** The loop's position: `count` lengths like the next one are pending after `done` emitted ones. */
  ghost predicate Pending(lens: seq<nat>, n: nat, prev: int, count: nat, maxCount: nat, minCount: nat) {
    && n <= |lens| && count <= n && (n == |lens| ==> count == 0)
    && (forall i :: 0 <= i < |lens| ==> lens[i] <= MAX_BITS)
    && (n < |lens| ==> maxCount == MaxCount(prev, lens[n]) && minCount == MinCount(prev, lens[n])
                       && count < maxCount && forall i :: n - count <= i < n ==> lens[i] == lens[n])
    && prev == if n == count then -1 else lens[n - count - 1]
  }

  lemma {:induction false} DecodeCopies(out: seq<nat>, cur: nat, count: nat)
    requires cur < 16
    ensures Decode(out, seq(count, _ => Tok(cur, 0))) == Lens(out + Repeat(cur, count))
    decreases count
  {
    var toks := seq(count, _ => Tok(cur, 0));
    if count == 0 {
      assert out + Repeat(cur, 0) == out;
    } else {
      assert toks[1..] == seq(count - 1, _ => Tok(cur, 0));
      DecodeCopies(out + [cur], cur, count - 1);
      assert out + [cur] + Repeat(cur, count - 1) == out + Repeat(cur, count);
    }
  }

  lemma DecodeOne(out: seq<nat>, t: Tok)
    ensures Decode(out, [t]) == Decode1(out, t)
  {
    assert [t][1..] == [];
  }

  /** A flushed run decodes to the run. */
  lemma FlushDecodes(out: seq<nat>, cur: nat, prev: int, count: nat, maxCount: nat, minCount: nat)
    requires cur < 16 && 1 <= count <= maxCount == MaxCount(prev, cur) && minCount == MinCount(prev, cur)
    requires prev == -1 || (out != [] && prev == out[|out| - 1])
    ensures Decode(out, Flush(cur, prev, count, minCount)) == Lens(out + Repeat(cur, count))
    ensures forall t :: t in Flush(cur, prev, count, minCount) ==> TokOk(t)
  {
    hide Decode, Pow2;
    Pow2Consts();
    if count < minCount {
      DecodeCopies(out, cur, count);
    } else if cur != 0 && cur != prev {
      var rep := Tok(REP_3_6, count - 4);
      assert Flush(cur, prev, count, minCount) == [Tok(cur, 0)] + [rep];
      DecodeAppend(out, [Tok(cur, 0)], [rep]);
      DecodeOne(out, Tok(cur, 0));
      DecodeOne(out + [cur], rep);
      assert out + [cur] + Repeat(cur, count - 1) == out + Repeat(cur, count);
    } else {
      DecodeOne(out, Flush(cur, prev, count, minCount)[0]);
    }
  }

  lemma {:induction false} RunsFromDecode(pre: seq<nat>, lens: seq<nat>, n: nat, prev: int, count: nat, maxCount: nat,
                                          minCount: nat)
    requires Pending(lens, n, prev, count, maxCount, minCount)
    ensures Decode(pre + lens[..n - count], RunsFrom(lens, n, prev, count, maxCount, minCount)) == Lens(pre + lens)
    ensures forall t :: t in RunsFrom(lens, n, prev, count, maxCount, minCount) ==> TokOk(t)
    decreases |lens| - n
  {
    hide Flush, TokOk;
    var done := pre + lens[..n - count];
    if n == |lens| {
      assert done == pre + lens;
    } else {
      var cur, next := lens[n], NextLen(lens, n);
      if count + 1 < maxCount && cur == next {
        RunsFromDecode(pre, lens, n + 1, prev, count + 1, maxCount, minCount);
      } else {
        FlushDecodes(done, cur, prev, count + 1, maxCount, minCount);
        assert done + Repeat(cur, count + 1) == pre + lens[..n + 1];
        RunsFromDecode(pre, lens, n + 1, cur, 0, MaxCount(cur, next), MinCount(cur, next));
        DecodeAppend(done, Flush(cur, prev, count + 1, minCount),
                     RunsFrom(lens, n + 1, cur, 0, MaxCount(cur, next), MinCount(cur, next)));
      }
    }
  }

  /** What is emitted for a tree decodes to its lengths, whatever lengths come before. */
  lemma RunsDecode(pre: seq<nat>, lens: seq<nat>)
    requires forall i :: 0 <= i < |lens| ==> lens[i] <= MAX_BITS
    ensures Decode(pre, Runs(lens)) == Lens(pre + lens)
    ensures forall t :: t in Runs(lens) ==> TokOk(t)
  {
    if lens == [] {
      assert pre + lens == pre;
    } else {
      RunsFromDecode(pre, lens, 0, -1, 0, MaxCount(-1, lens[0]), MinCount(-1, lens[0]));
      assert pre + lens[..0] == pre;
    }
  }
}
