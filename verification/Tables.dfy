/** The tables `ct_init` computes: length and distance codes, and the static trees. */
module Tables {
  import opened Arith
  import opened Symbols

  // ----- lengths and distances -----

  /** Each entry below `n` holds the code whose range holds its index. */
  ghost predicate Mapped(codes: seq<nat>, extra: seq<nat>, n: nat) {
    n <= |codes| && forall x :: 0 <= x < n ==> Covers(extra, codes[x], x)
  }

  /** `code` goes into `n` consecutive entries. */
  method FillCodes(codes: array<nat>, from: nat, n: nat, code: nat) returns (next: nat)
    requires from + n <= codes.Length
    modifies codes
    ensures next == from + n
    ensures forall x :: 0 <= x < codes.Length ==> codes[x] == if from <= x < next then code else old(codes[x])
  {
    next := from;
    var k := 0;
    while k < n
      invariant 0 <= k <= n && next == from + k
      invariant forall x :: 0 <= x < codes.Length ==> codes[x] == if from <= x < next then code else old(codes[x])
    {
      codes[next] := code;
      next, k := next + 1, k + 1;
    }
  }

  lemma MappedStep(was: seq<nat>, codes: seq<nat>, extra: seq<nat>, c: nat)
    requires c < |extra| && |was| == |codes| && Start(extra, c + 1) <= |codes| && Mapped(was, extra, Start(extra, c))
    requires forall x ::
               0 <= x < |codes| ==> codes[x] == if Start(extra, c) <= x < Start(extra, c + 1) then c else was[x]
    ensures Mapped(codes, extra, Start(extra, c + 1))
  {
    hide Start;
    StartMono(extra, c, c + 1);
  }

  /** The first `n` codes and their ranges, in consecutive entries. */
  method InitRanges(extra: seq<nat>, n: nat, codes: array<nat>, base: array<nat>) returns (next: nat)
    requires codes != base && n <= |extra| && n <= base.Length && Start(extra, n) <= codes.Length
    modifies codes, base
    ensures next == Start(extra, n) && Mapped(codes[..], extra, next)
    ensures forall c :: 0 <= c < n ==> base[c] == Start(extra, c)
    ensures forall c :: n <= c < base.Length ==> base[c] == old(base[c])
    ensures forall x :: next <= x < codes.Length ==> codes[x] == old(codes[x])
  {
    hide Mapped, Pow2, Start;
    StartZero(extra);
    next := 0;
    var code := 0;
    assert Mapped(codes[..], extra, 0) by { MappedNone(codes[..], extra); }
    while code < n
      invariant 0 <= code <= n && next == Start(extra, code) && Mapped(codes[..], extra, next)
      invariant forall c :: 0 <= c < code ==> base[c] == Start(extra, c)
      invariant forall c :: n <= c < base.Length ==> base[c] == old(base[c])
      invariant forall x :: next <= x < codes.Length ==> codes[x] == old(codes[x])
    {
      base[code] := next;
      StartMono(extra, code + 1, n);
      StartStep(extra, code);
      ghost var was := codes[..];
      next := FillCodes(codes, next, Pow2(extra[code]), code);
      MappedStep(was, codes[..], extra, code);
      code := code + 1;
    }
  }

  lemma MappedNone(codes: seq<nat>, extra: seq<nat>)
    ensures Mapped(codes, extra, 0)
  {
  }

  ghost predicate LengthTables(lengthCode: seq<nat>, baseLength: seq<nat>) {
    && |lengthCode| == 256 && |baseLength| == LENGTH_CODES
    && (forall len :: MIN_MATCH <= len <= MAX_MATCH ==> lengthCode[len - MIN_MATCH] == LengthCode(len))
    && (forall c :: 0 <= c < LENGTH_CODES - 1 ==> MIN_MATCH + baseLength[c] == LENGTHS[c])
  }

  lemma LengthEntry(codes: seq<nat>, len: nat)
    requires |codes| == 256 && Mapped(codes, EXTRA_LBITS, 256) && MIN_MATCH <= len < MAX_MATCH
    ensures codes[len - MIN_MATCH] == LengthCode(len)
  {
    hide Start, Locate;
    assert Start(EXTRA_LBITS, 0) == 0 by { StartZero(EXTRA_LBITS); }
    LengthRanges();
    LocateCovers(EXTRA_LBITS, len - MIN_MATCH, 0, 28);
    CoversOnce(EXTRA_LBITS, codes[len - MIN_MATCH], LengthCode(len), len - MIN_MATCH);
  }

  lemma StartStep(extra: seq<nat>, c: nat)
    requires c < |extra|
    ensures Start(extra, c + 1) == Start(extra, c) + Pow2(extra[c])
  {
  }

  lemma StartZero(extra: seq<nat>)
    ensures Start(extra, 0) == 0
  {
  }

  /** Every match length gets the standard's code; the base of each code is the standard's,
      but for the last code, which has no extra bits. */
  method InitLengths(lengthCode: array<nat>, baseLength: array<nat>)
    requires lengthCode != baseLength && lengthCode.Length == 256 && baseLength.Length == LENGTH_CODES
    modifies lengthCode, baseLength
    ensures LengthTables(lengthCode[..], baseLength[..])
  {
    hide Start, LengthCode, Mapped;
    LengthRanges();
    var length := InitRanges(EXTRA_LBITS, LENGTH_CODES - 1, lengthCode, baseLength);
    ghost var codes := lengthCode[..];
    lengthCode[length - 1] := 28;
    forall len | MIN_MATCH <= len <= MAX_MATCH ensures lengthCode[len - MIN_MATCH] == LengthCode(len) {
      if len < MAX_MATCH {
        LengthEntry(codes, len);
        assert lengthCode[len - MIN_MATCH] == codes[len - MIN_MATCH];
      } else {
        LastLength();
      }
    }
  }

  lemma LastLength()
    ensures LengthCode(MAX_MATCH) == 28
  {
  }

  // Distances from 256 on are looked up by pages of 128.

  /** The page `y` lies in the range of code `c`. */
  ghost predicate PageIn(c: nat, y: nat) {
    c < D_CODES && Start(EXTRA_DBITS, c) <= 128 * y && 128 * y + 128 <= Start(EXTRA_DBITS, c + 1)
  }

  ghost predicate DistTables(distCode: seq<nat>, baseDist: seq<nat>) {
    && |distCode| == 512 && |baseDist| == D_CODES
    && (forall dist :: 1 <= dist <= WSIZE ==> DCode(distCode, dist - 1) == DistCode(dist))
    && (forall c :: 0 <= c < D_CODES ==> 1 + baseDist[c] == DISTS[c])
  }

  /** `D_CODE`: the code of a distance minus one. */
  function DCode(distCode: seq<nat>, d: nat): (c: nat)
    requires |distCode| == 512 && d < WSIZE
  {
    if d < 256 then distCode[d] else distCode[256 + d / 128]
  }

  lemma {:induction false} Pages(e: nat)
    requires e >= 7
    ensures Pow2(e) == 128 * Pow2(e - 7)
  {
    if e > 7 {
      Pages(e - 1);
    } else {
      Pow2Consts();
    }
  }

  lemma PageCode(codes: seq<nat>, d: nat)
    requires |codes| == 512 && 256 <= d < WSIZE && PageIn(codes[256 + d / 128], d / 128)
    ensures DCode(codes, d) == DistCode(d + 1)
  {
    hide Start, Locate;
    StartZero(EXTRA_DBITS);
    DistRanges();
    LocateCovers(EXTRA_DBITS, d, 0, 30);
    CoversOnce(EXTRA_DBITS, codes[256 + d / 128], DistCode(d + 1), d);
  }

  lemma NearCode(codes: seq<nat>, d: nat)
    requires |codes| == 512 && d < 256 && Mapped(codes, EXTRA_DBITS, 256)
    ensures DCode(codes, d) == DistCode(d + 1)
  {
    hide Start, Locate;
    StartZero(EXTRA_DBITS);
    DistRanges();
    LocateCovers(EXTRA_DBITS, d, 0, 30);
    CoversOnce(EXTRA_DBITS, codes[d], DistCode(d + 1), d);
  }

  /** The far codes: `from` is the first page. */
  ghost predicate PagesIn(codes: seq<nat>, y: nat) {
    |codes| == 512 && y <= 256 && forall x :: 258 <= x < 256 + y ==> PageIn(codes[x], x - 256)
  }

  lemma FarExtra(c: nat)
    requires 16 <= c < D_CODES
    ensures EXTRA_DBITS[c] >= 7
  {
  }

  lemma FarStep(c: nat, y: nat)
    requires 16 <= c < D_CODES && 128 * y == Start(EXTRA_DBITS, c)
    ensures EXTRA_DBITS[c] >= 7
    ensures var n := Pow2(EXTRA_DBITS[c] - 7);
            128 * (y + n) == Start(EXTRA_DBITS, c + 1) && y + n <= 256
            && forall p :: y <= p < y + n ==> PageIn(c, p)
  {
    hide Pow2, Start;
    FarExtra(c);
    Pages(EXTRA_DBITS[c]);
    StartStep(EXTRA_DBITS, c);
    StartMono(EXTRA_DBITS, c + 1, 30);
    DistRanges();
  }

  /** The second loop over distance codes, in units of 128. */
  method InitFar(distCode: array<nat>, baseDist: array<nat>, first: nat)
    requires 128 * first == Start(EXTRA_DBITS, 16)
    requires distCode != baseDist && distCode.Length == 512 && baseDist.Length == D_CODES
    modifies distCode, baseDist
    ensures PagesIn(distCode[..], 256)
    ensures forall x :: 0 <= x < 256 ==> distCode[x] == old(distCode[x])
    ensures forall c :: 0 <= c < 16 ==> baseDist[c] == old(baseDist[c])
    ensures forall c :: 16 <= c < D_CODES ==> baseDist[c] == Start(EXTRA_DBITS, c)
  {
    hide Start, PageIn, Pow2;
    DistRanges();
    var code, dist := 16, first;
    while code < D_CODES
      invariant 16 <= code <= D_CODES && 128 * dist == Start(EXTRA_DBITS, code) && 2 <= dist <= 256
      invariant PagesIn(distCode[..], dist)
      invariant forall x :: 0 <= x < 256 ==> distCode[x] == old(distCode[x])
      invariant forall c :: 0 <= c < 16 ==> baseDist[c] == old(baseDist[c])
      invariant forall c :: 16 <= c < code ==> baseDist[c] == Start(EXTRA_DBITS, c)
    {
      FarStep(code, dist);
      baseDist[code] := 128 * dist;
      var next := FillCodes(distCode, 256 + dist, Pow2(EXTRA_DBITS[code] - 7), code);
      dist, code := next - 256, code + 1;
    }
  }

  method InitDists(distCode: array<nat>, baseDist: array<nat>)
    requires distCode != baseDist && distCode.Length == 512 && baseDist.Length == D_CODES
    modifies distCode, baseDist
    ensures DistTables(distCode[..], baseDist[..])
  {
    hide Start, DCode, DistCode, Mapped, PagesIn;
    DistRanges();
    var dist := InitRanges(EXTRA_DBITS, 16, distCode, baseDist);
    ghost var near := distCode[..];
    InitFar(distCode, baseDist, dist / 128);
    ghost var codes := distCode[..];
    assert forall x :: 0 <= x < 256 ==> codes[x] == near[x];
    forall dist | 1 <= dist <= WSIZE ensures DCode(codes, dist - 1) == DistCode(dist) {
      DistEntry(near, codes, dist);
    }
  }

  lemma DistEntry(near: seq<nat>, codes: seq<nat>, dist: nat)
    requires |near| == |codes| == 512 && Mapped(near, EXTRA_DBITS, 256) && PagesIn(codes, 256) && 1 <= dist <= WSIZE
    requires forall x :: 0 <= x < 256 ==> codes[x] == near[x]
    ensures DCode(codes, dist - 1) == DistCode(dist)
  {
    hide DistCode, Covers, PageIn;
    if dist <= 256 {
      NearCode(near, dist - 1);
    } else {
      var p := (dist - 1) / 128;
      PageCode(codes, dist - 1);
    }
  }
}
