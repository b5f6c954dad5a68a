/** The overflow repair of `gen_bitlen`: leaves that sit too deep are moved up until the
    counts per length make a complete code again. */
module Overflow {
  import opened Arith
  import opened Canonical

  lemma FillAdd(blc: seq<nat>, b: nat, v: nat, m: nat)
    requires 1 <= b <= m < |blc|
    ensures Fill(blc[b := blc[b] + v], m) == Fill(blc, m) + Shl(v, m - b)
  {
    FillUpdate(blc, b, blc[b] + v, m);
    ShlAdd(blc[b], v, m - b);
  }

  lemma FillSub(blc: seq<nat>, b: nat, m: nat)
    requires 1 <= b <= m < |blc| && blc[b] >= 1
    ensures Fill(blc[b := blc[b] - 1], m) + Pow2(m - b) == Fill(blc, m)
  {
    var less := blc[b := blc[b] - 1];
    assert less[b := less[b] + 1] == blc;
    FillAdd(less, b, 1, m);
    ShlOne(m - b);
  }

  lemma {:induction false} FillAllMax(blc: seq<nat>, m: nat)
    requires m < |blc| && forall b :: 1 <= b < m ==> blc[b] == 0
    ensures m >= 1 ==> Fill(blc, m) == blc[m]
  {
    if m > 1 {
      FillAllMax(blc, m - 1);
    }
  }

  /** One leaf at `bits` moves one level down, and one overflow item becomes its brother. */
  function MoveUp(blc: seq<nat>, bits: nat, m: nat): (r: seq<nat>)
    requires 1 <= bits < m < |blc| && blc[bits] >= 1 && blc[m] >= 1
  {
    var one := blc[bits := blc[bits] - 1];
    var two := one[bits + 1 := one[bits + 1] + 2];
    two[m := two[m] - 1]
  }

  /** A step keeps the number of leaves and takes one unit off the Kraft excess. */
  lemma MoveUpStep(blc: seq<nat>, bits: nat, m: nat)
    requires 1 <= bits < m < |blc| && blc[bits] >= 1 && blc[m] >= 1
    ensures var r := MoveUp(blc, bits, m);
            && |r| == |blc| && Fill(r, m) + 1 == Fill(blc, m) && Sum(r) == Sum(blc) && r[m] + 1 >= blc[m]
            && forall b :: 0 <= b < |blc| && (b < bits || b > m) ==> r[b] == blc[b]
  {
    var one := blc[bits := blc[bits] - 1];
    var two := one[bits + 1 := one[bits + 1] + 2];
    FillSub(blc, bits, m);
    FillAdd(one, bits + 1, 2, m);
    FillSub(two, m, m);
    ShlTwo(m - bits - 1);
    SumUpdate(blc, bits, blc[bits] - 1);
    SumUpdate(one, bits + 1, one[bits + 1] + 2);
    SumUpdate(two, m, two[m] - 1);
  }

  lemma ShlTwo(n: nat)
    ensures Shl(2, n) == Pow2(n + 1)
  {
    ShlAdd(1, 1, n);
    ShlOne(n);
  }

  /** The state of the repair: the excess over a complete code is half the overflow. */
  ghost predicate Excess(blc: seq<nat>, m: nat, overflow: int) {
    && 1 <= m < |blc| && blc[0] == 0 && overflow % 2 == 0 && overflow >= 0
    && Fill(blc, m) == Pow2(m) + overflow / 2 && 2 * blc[m] >= overflow
    && Sum(blc) <= Pow2(m)
  }

  /** While there is an excess, some leaf is shorter than the limit. */
  lemma ShorterLeaf(blc: seq<nat>, m: nat, overflow: int)
    requires Excess(blc, m, overflow) && overflow > 0
    ensures exists b :: 1 <= b < m && blc[b] != 0
  {
    if forall b :: 1 <= b < m ==> blc[b] == 0 {
      FillAllMax(blc, m);
      SumTerm(blc, m);
      assert false;
    }
  }

  /** The deepest length below the limit that is in use. */
  method LastUsed(blCount: array<nat>, maxLength: nat, ghost overflow: int) returns (bits: nat)
    requires maxLength < blCount.Length && Excess(blCount[..], maxLength, overflow) && overflow > 0
    ensures 1 <= bits < maxLength && blCount[bits] != 0
    ensures forall b :: bits < b < maxLength ==> blCount[b] == 0
  {
    ShorterLeaf(blCount[..], maxLength, overflow);
    bits := maxLength - 1;
    ghost var b0 :| 1 <= b0 < maxLength && blCount[..][b0] != 0;
    while blCount[bits] == 0
      invariant b0 <= bits < maxLength && forall b :: bits < b < maxLength ==> blCount[b] == 0
      decreases bits
    {
      bits := bits - 1;
    }
  }

  /** The repair loop: the number of leaves stays, no count becomes negative, and the code
      is complete again. */
  method Repair(blCount: array<nat>, maxLength: nat, overflow: nat)
    requires maxLength < blCount.Length && Excess(blCount[..], maxLength, overflow) && overflow > 0
    modifies blCount
    ensures Fill(blCount[..], maxLength) == Pow2(maxLength)
    ensures Sum(blCount[..]) == old(Sum(blCount[..])) && blCount[0] == 0
    ensures forall b :: maxLength < b < blCount.Length ==> blCount[b] == old(blCount[b])
  {
    var left: int := overflow;
    ghost var s0 := blCount[..];
    while left > 0
      invariant Excess(blCount[..], maxLength, left)
      invariant Sum(blCount[..]) == Sum(s0)
      invariant forall b :: maxLength < b < blCount.Length ==> blCount[b] == s0[b]
    {
      ghost var blc := blCount[..];
      var bits := LastUsed(blCount, maxLength, left);
      MoveUpStep(blc, bits, maxLength);
      blCount[bits] := blCount[bits] - 1;
      blCount[bits + 1] := blCount[bits + 1] + 2;
      blCount[maxLength] := blCount[maxLength] - 1;
      assert blCount[..] == MoveUp(blc, bits, maxLength);
      left := left - 2;
    }
  }

  // ----- as many leaves as lengths -----

  /** The number of symbols that have a code. */
  function NonZero(lens: seq<nat>): (n: nat)
    ensures n <= |lens|
  {
    if lens == [] then 0
    else NonZero(lens[..|lens| - 1]) + (if lens[|lens| - 1] != 0 then 1 else 0)
  }

  lemma {:induction false} NonZeroSame(a: seq<nat>, b: seq<nat>)
    requires |a| == |b| && forall i :: 0 <= i < |a| ==> (a[i] == 0 <==> b[i] == 0)
    ensures NonZero(a) == NonZero(b)
  {
    if a != [] { NonZeroSame(a[..|a| - 1], b[..|b| - 1]); }
  }

  lemma {:induction false} SumOfCounts(lens: seq<nat>)
    requires forall i :: 0 <= i < |lens| ==> lens[i] <= MAX_BITS
    ensures Sum(BlCount(lens)) == NonZero(lens)
  {
    if lens == [] {
      SumZero(BlCount(lens));
    } else {
      var l, rest := lens[|lens| - 1], lens[..|lens| - 1];
      SumOfCounts(rest);
      if l == 0 {
        assert BlCount(lens) == BlCount(rest);
      } else {
        assert BlCount(lens) == BlCount(rest)[l := BlCount(rest)[l] + 1];
        SumUpdate(BlCount(rest), l, BlCount(rest)[l] + 1);
      }
    }
  }
}
