/** The alphabets of a DEFLATE block (section 3.2.5 of RFC 1951): which code stands for a
    length or a distance, and which range of values each code covers. */
module Symbols {
  import opened Arith

  const MIN_MATCH: nat := 3
  const MAX_MATCH: nat := 258
  const LITERALS: nat := 256
  const END_BLOCK: nat := 256
  const LENGTH_CODES: nat := 29
  const L_CODES: nat := 286
  const HEAP_SIZE: nat := 573
  const D_CODES: nat := 30
  const WSIZE: nat := 32768

  /** `extra_lbits`: the extra bits of each length code. */
  const EXTRA_LBITS: seq<nat> :=
    [0, 0, 0, 0, 0, 0, 0, 0, 1, 1, 1, 1, 2, 2, 2, 2, 3, 3, 3, 3, 4, 4, 4, 4, 5, 5, 5, 5, 0]

  /** `extra_dbits`: the extra bits of each distance code. */
  const EXTRA_DBITS: seq<nat> :=
    [0, 0, 0, 0, 1, 1, 2, 2, 3, 3, 4, 4, 5, 5, 6, 6, 7, 7, 8, 8, 9, 9, 10, 10, 11, 11, 12, 12, 13, 13]

  /** The least length of each code, as the standard lists them. */
  const LENGTHS: seq<nat> :=
    [3, 4, 5, 6, 7, 8, 9, 10, 11, 13, 15, 17, 19, 23, 27, 31, 35, 43, 51, 59, 67, 83, 99, 115, 131, 163, 195, 227, 258]

  /** The least distance of each code, as the standard lists them. */
  const DISTS: seq<nat> :=
    [1, 2, 3, 4, 5, 7, 9, 13, 17, 25, 33, 49, 65, 97, 129, 193, 257, 385, 513, 769, 1025, 1537, 2049, 3073,
     4097, 6145, 8193, 12289, 16385, 24577]

  /** Where the range of code `c` starts when the codes cover consecutive ranges of `2^extra` values. */
  function Start(extra: seq<nat>, c: nat): (r: nat)
    requires c <= |extra|
  {
    if c == 0 then 0 else Start(extra, c - 1) + Pow2(extra[c - 1])
  }

  lemma {:induction false} StartMono(extra: seq<nat>, a: nat, b: nat)
    requires a <= b <= |extra|
    ensures Start(extra, a) <= Start(extra, b)
  {
    if a < b { StartMono(extra, a, b - 1); }
  }

  /** `c` is the code whose range holds `x`. */
  ghost predicate Covers(extra: seq<nat>, c: nat, x: nat) {
    c < |extra| && Start(extra, c) <= x < Start(extra, c + 1)
  }

  lemma CoversOnce(extra: seq<nat>, a: nat, b: nat, x: nat)
    requires Covers(extra, a, x) && Covers(extra, b, x)
    ensures a == b
  {
    if a < b {
      StartMono(extra, a + 1, b);
    } else if b < a {
      StartMono(extra, b + 1, a);
    }
  }

  lemma PowTable()
    ensures Pow2(0) == 1 && Pow2(1) == 2 && Pow2(2) == 4 && Pow2(3) == 8 && Pow2(4) == 16 && Pow2(5) == 32
    ensures Pow2(6) == 64 && Pow2(7) == 128 && Pow2(8) == 256 && Pow2(9) == 512 && Pow2(10) == 1024
    ensures Pow2(11) == 2048 && Pow2(12) == 4096 && Pow2(13) == 8192
  {
    assert Pow2(2) == 4 && Pow2(4) == 16 && Pow2(6) == 64 && Pow2(8) == 256 && Pow2(10) == 1024 && Pow2(12) == 4096;
  }

  lemma LengthStep(c: nat)
    requires c < 27
    ensures LENGTHS[c + 1] == LENGTHS[c] + Pow2(EXTRA_LBITS[c])
  {
    hide Pow2;
    PowTable();
  }

  lemma DistStep(c: nat)
    requires c < 29
    ensures DISTS[c + 1] == DISTS[c] + Pow2(EXTRA_DBITS[c])
  {
    hide Pow2;
    PowTable();
  }

  lemma {:induction false} LengthRange(c: nat)
    requires c < 28
    ensures 3 + Start(EXTRA_LBITS, c) == LENGTHS[c]
  {
    hide Pow2;
    if c > 0 {
      LengthRange(c - 1);
      LengthStep(c - 1);
    }
  }

  lemma {:induction false} DistRange(c: nat)
    requires c < 30
    ensures 1 + Start(EXTRA_DBITS, c) == DISTS[c]
  {
    hide Pow2;
    if c > 0 {
      DistRange(c - 1);
      DistStep(c - 1);
    }
  }

  /** The length codes but the last cover 3..258 in consecutive ranges, each as the standard says. */
  lemma LengthRanges()
    ensures Start(EXTRA_LBITS, 28) == 256
    ensures forall c :: 0 <= c < 28 ==> 3 + Start(EXTRA_LBITS, c) == LENGTHS[c]
  {
    hide Pow2;
    forall c | 0 <= c < 28 ensures 3 + Start(EXTRA_LBITS, c) == LENGTHS[c] {
      LengthRange(c);
    }
    PowTable();
    LengthRange(27);
  }

  /** The distance codes cover 1..32768 in consecutive ranges, each as the standard says. */
  lemma DistRanges()
    ensures Start(EXTRA_DBITS, 16) == 256 && Start(EXTRA_DBITS, 30) == WSIZE
    ensures forall c :: 0 <= c < 30 ==> 1 + Start(EXTRA_DBITS, c) == DISTS[c]
  {
    hide Pow2;
    forall c | 0 <= c < 30 ensures 1 + Start(EXTRA_DBITS, c) == DISTS[c] {
      DistRange(c);
    }
    PowTable();
    DistRange(29);
    DistRange(16);
    assert DISTS[29] == 24577 && EXTRA_DBITS[29] == 13 && DISTS[16] == 257;
    assert Start(EXTRA_DBITS, 30) == Start(EXTRA_DBITS, 29) + Pow2(13);
  }

  /** The first code from `c` on whose range ends after `x`. */
  function Locate(extra: seq<nat>, x: nat, c: nat): (r: nat)
    requires c <= |extra|
    ensures c <= r <= |extra|
    decreases |extra| - c
  {
    if c == |extra| || x < Start(extra, c + 1) then c else Locate(extra, x, c + 1)
  }

  lemma {:induction false} LocateCovers(extra: seq<nat>, x: nat, c: nat, n: nat)
    requires c <= n <= |extra| && Start(extra, c) <= x < Start(extra, n)
    ensures Locate(extra, x, c) < n && Covers(extra, Locate(extra, x, c), x)
    decreases n - c
  {
    if x >= Start(extra, c + 1) {
      LocateCovers(extra, x, c + 1, n);
    }
  }

  /** The code of a match length: the longest match has a code of its own. */
  function LengthCode(len: nat): (c: nat)
    requires MIN_MATCH <= len <= MAX_MATCH
    ensures c <= LENGTH_CODES
  {
    if len == MAX_MATCH then 28 else Locate(EXTRA_LBITS, len - MIN_MATCH, 0)
  }

  function DistCode(dist: nat): (c: nat)
    requires 1 <= dist <= WSIZE
    ensures c <= D_CODES
  {
    Locate(EXTRA_DBITS, dist - 1, 0)
  }

  /** The standard's code of a length stands for that length and no other extra bits. */
  lemma LengthCodeOk(len: nat)
    requires MIN_MATCH <= len <= MAX_MATCH
    ensures var c := LengthCode(len);
            c < LENGTH_CODES && LENGTHS[c] <= len < LENGTHS[c] + Pow2(EXTRA_LBITS[c])
  {
    hide Pow2, Locate;
    if len < MAX_MATCH {
      LengthRanges();
      var c := LengthCode(len);
      LocateCovers(EXTRA_LBITS, len - 3, 0, 28);
      assert 3 + Start(EXTRA_LBITS, c) == LENGTHS[c];
    } else {
      assert LENGTHS[28] == 258;
    }
  }

  lemma DistCodeOk(dist: nat)
    requires 1 <= dist <= WSIZE
    ensures var c := DistCode(dist);
            c < D_CODES && DISTS[c] <= dist < DISTS[c] + Pow2(EXTRA_DBITS[c])
  {
    hide Pow2, Locate;
    DistRanges();
    var c := DistCode(dist);
    LocateCovers(EXTRA_DBITS, dist - 1, 0, 30);
    assert 1 + Start(EXTRA_DBITS, c) == DISTS[c];
  }
}
