/** The coder's state (`G2` and the buffers of `G1`), and how a block collects tokens. */
module Coder {
  import opened Arith
  import opened BitWriter
  import opened BlockCode
  import opened Canonical
  import opened HuffInit
  import opened Record
  import opened RunLengths
  import opened StaticTrees
  import opened Symbols
  import opened Tables
  import opened Tallies
  import opened Tokens
  import opened TreeScan

  const ZERO: CtData := CtData(0, 0)

  /** The buffer sizes the three build options allow. */
  predicate LitBufSize(n: nat) {
    n == 0x2000 || n == 0x4000 || n == 0x8000
  }

  /** What a distance symbol is taken to cost when guessing the compressed length. */
  function DistGuess(): (r: seq<nat>)
    ensures |r| == D_CODES && forall c :: 0 <= c < D_CODES ==> r[c] == 5 + EXTRA_DBITS[c]
  {
    seq(D_CODES, c requires 0 <= c < D_CODES => 5 + EXTRA_DBITS[c])
  }

  /** The block is worth ending early: mostly literals, and well compressed. */
  ghost predicate EndEarly(lastLit: nat, lastDist: nat, dfreqs: seq<nat>, inLength: nat)
    requires |dfreqs| == D_CODES
  {
    && lastLit % 4096 == 0 && lastDist < lastLit / 2
    && (8 * lastLit + Dot(dfreqs, DistGuess())) / 8 < inLength / 2
  }

  class Coder {
    const w: Writer
    const fixed: Fixed
    const ltree: array<CtData>
    const dtree: array<CtData>
    const blTree: array<CtData>
    const heap: array<nat>
    const depth: array<nat>
    const blCount: array<nat>
    const lBuf: array<Byte>
    const dBuf: array<nat>
    const flagBuf: array<Byte>
    var lastLit: nat
    var lastDist: nat
    var lastFlags: nat
    var flags: nat
    var flagBit: nat
    var optLen: int
    var staticLen: int
    var compressedLen: nat
    /** The tokens of the current block. */
    ghost var toks: seq<Token>

    /** The arrays of the coder have their sizes and are different objects. */
    ghost predicate Sizes() {
      && FixedOk(fixed)
      && ltree.Length == HEAP_SIZE && dtree.Length == 2 * D_CODES + 1 && blTree.Length == 39
      && heap.Length == HEAP_SIZE && depth.Length == HEAP_SIZE && blCount.Length == MAX_BITS + 1
      && LitBufSize(lBuf.Length) && dBuf.Length == lBuf.Length && flagBuf.Length == lBuf.Length / 8
      && ltree != dtree && ltree != blTree && dtree != blTree
      && heap != depth && heap != blCount && depth != blCount && dBuf != heap && dBuf != depth && dBuf != blCount
      && lBuf != flagBuf && w.outbuf != lBuf && w.outbuf != flagBuf
    }

    /** The buffers hold the tokens. */
    ghost predicate Holds()
      reads this, lBuf, dBuf
    {
      Recorded(toks, lBuf[..], dBuf[..], lastLit, lastDist)
    }

    /** The block can take tokens: flags and frequencies are those of the tokens so far. */
    ghost predicate Open()
      reads this, lBuf, dBuf, flagBuf, ltree, dtree
    {
      && Holds() && Flagged(toks, flagBuf[..], lastFlags, flags, flagBit) && Frequent(toks, ltree[..], dtree[..])
    }

    constructor (writer: Writer, tables: Fixed, litBufSize: nat)
      requires LitBufSize(litBufSize) && FixedOk(tables)
      ensures Sizes() && w == writer && lBuf.Length == litBufSize
      ensures fresh(ltree) && fresh(dtree) && fresh(blTree) && fresh(heap) && fresh(depth) && fresh(blCount)
      ensures fresh(lBuf) && fresh(dBuf) && fresh(flagBuf)
      ensures compressedLen == 0 && Open() && toks == [] && lastLit == 0 && optLen == staticLen == 0
              && Counted(blTree[..], [])
    {
      hide FixedOk, Recorded, Flagged, Frequent, Counted;
      w, fixed, compressedLen := writer, tables, 0;
      ltree, dtree, blTree := new CtData[HEAP_SIZE](_ => ZERO), new CtData[2 * D_CODES + 1](_ => ZERO),
        new CtData[39](_ => ZERO);
      heap, depth, blCount := new nat[HEAP_SIZE](_ => 0), new nat[HEAP_SIZE](_ => 0), new nat[MAX_BITS + 1](_ => 0);
      lBuf, dBuf, flagBuf := new Byte[litBufSize](_ => 0), new nat[litBufSize](_ => 0),
        new Byte[litBufSize / 8](_ => 0);
      new;
      InitBlock();
    }

    /** `init_block`: no tokens yet, and the end of the block counted. */
    method InitBlock()
      requires Sizes()
      modifies this`lastLit, this`lastDist, this`lastFlags, this`flags, this`flagBit, this`toks, this`optLen,
                 this`staticLen
      modifies ltree, dtree, blTree
      ensures Open() && toks == [] && lastLit == 0 && optLen == staticLen == 0 && Counted(blTree[..], [])
    {
      hide FixedOk, Recorded, Flagged, Frequent, Counted;
      ClearFreqs(ltree, L_CODES);
      ClearFreqs(dtree, D_CODES);
      ClearFreqs(blTree, BL_CODES);
      ltree[END_BLOCK] := ltree[END_BLOCK].(fc := 1);
      optLen, staticLen := 0, 0;
      lastLit, lastDist, lastFlags := 0, 0, 0;
      flags, flagBit := 0, 1;
      toks := [];
      NothingYet(ltree[..], dtree[..], blTree[..], lBuf[..], dBuf[..], flagBuf[..]);
    }

    /** The test for ending the block early, with the guess of its compressed length. */
    method GuessEnd(inLength: nat) returns (end: bool)
      requires Sizes()
      ensures end == EndEarly(lastLit, lastDist, Freqs(dtree[..], D_CODES), inLength)
    {
      hide FixedOk;
      if lastLit % 4096 != 0 { return false; }
      ghost var fs, cs := Freqs(dtree[..], D_CODES), DistGuess();
      var outLength, dcode := lastLit * 8, 0;
      while dcode < D_CODES
        invariant 0 <= dcode <= D_CODES && outLength == lastLit * 8 + Dot(fs[..dcode], cs[..dcode])
      {
        outLength := outLength + dtree[dcode].fc * (5 + EXTRA_DBITS[dcode]);
        DotStep(fs, cs, dcode);
        dcode := dcode + 1;
      }
      assert fs[..D_CODES] == fs && cs[..D_CODES] == cs;
      end := lastDist < lastLit / 2 && outLength / 8 < inLength / 2;
    }

    /** The token's symbols are counted. */
    method CountToken(dist: nat, lc: Byte, ghost t: Token)
      requires Sizes() && Frequent(toks, ltree[..], dtree[..]) && dist <= WSIZE
      requires t == if dist == 0 then Lit(lc) else Match(lc + MIN_MATCH, dist)
      modifies ltree, dtree
      ensures Frequent(toks + [t], ltree[..], dtree[..])
    {
      hide Frequent, LengthCode, DistCode, DCode, CodesOk, Sendable;
      FrequentStep(toks, ltree[..], dtree[..], t);
      if dist == 0 {
        ltree[lc] := ltree[lc].(fc := ltree[lc].fc + 1);
      } else {
        var d := dist - 1;
        assert fixed.lengthCode[lc + MIN_MATCH - MIN_MATCH] == LengthCode(lc + MIN_MATCH);
        var lsym, dsym := fixed.lengthCode[lc] + LITERALS + 1, DCode(fixed.distCode, d);
        ltree[lsym] := ltree[lsym].(fc := ltree[lsym].fc + 1);
        dtree[dsym] := dtree[dsym].(fc := dtree[dsym].fc + 1);
      }
    }

    /** The flag of a token: whether it is a match. */
    method KeepFlag(t: Token)
      requires Sizes() && Flagged(toks, flagBuf[..], lastFlags, flags, flagBit) && lastLit == |toks| + 1 < lBuf.Length
      modifies this`lastFlags, this`flags, this`flagBit, flagBuf
      ensures Flagged(toks + [t], flagBuf[..], lastFlags, flags, flagBit)
    {
      hide Flagged, FixedOk, Or;
      FlaggedStep(toks, flagBuf[..], lastFlags, flags, flagBit, t);
      FlagRoom(toks, flagBuf[..], lastFlags, flags, flagBit);
      if t.Match? { flags := Or(flags, flagBit); }
      flagBit := flagBit * 2 % 256;
      if lastLit % 8 == 0 {
        flagBuf[lastFlags] := flags;
        lastFlags, flags, flagBit := lastFlags + 1, 0, 1;
      }
    }

    /** The token goes into the buffers, and its flag into the flags. */
    method KeepToken(dist: nat, lc: Byte, t: Token)
      requires Sizes() && Holds() && Flagged(toks, flagBuf[..], lastFlags, flags, flagBit) && lastLit + 1 < lBuf.Length
      requires dist <= WSIZE && t == if dist == 0 then Lit(lc) else Match(lc + MIN_MATCH, dist)
      modifies this`lastLit, this`lastDist, this`lastFlags, this`flags, this`flagBit, this`toks, lBuf, dBuf, flagBuf
      ensures Holds() && Flagged(toks, flagBuf[..], lastFlags, flags, flagBit)
      ensures toks == old(toks) + [t] && lastLit == old(lastLit) + 1
    {
      hide Recorded, Flagged, FixedOk, Or;
      RecordedStep(toks, lBuf[..], dBuf[..], lastLit, lastDist, t);
      RecordedLen(toks, lBuf[..], dBuf[..], lastLit, lastDist);
      lBuf[lastLit] := lc;
      lastLit := lastLit + 1;
      if dist != 0 {
        dBuf[lastDist] := dist - 1;
        lastDist := lastDist + 1;
      }
      KeepFlag(t);
      toks := toks + [t];
    }

    /** `ct_tally`: the token joins the block. The block must be flushed when the buffers
        are full, or when it looks worth it. */
    method CtTally(dist: nat, lc: Byte, inLength: nat) returns (flush: bool)
      requires Sizes() && Open() && lastLit + 1 < lBuf.Length && dist <= WSIZE
      modifies this`lastLit, this`lastDist, this`lastFlags, this`flags, this`flagBit, this`toks
      modifies lBuf, dBuf, flagBuf, ltree, dtree
      ensures Open() && lastLit == old(lastLit) + 1
      ensures toks == old(toks) + [if dist == 0 then Lit(lc) else Match(lc + MIN_MATCH, dist)]
      ensures flush == (EndEarly(lastLit, lastDist, Freqs(dtree[..], D_CODES), inLength) || lastLit == lBuf.Length - 1)
    {
      hide FixedOk, Recorded, Flagged, Frequent, Freqs, EndEarly;
      var t := if dist == 0 then Lit(lc) else Match(lc + MIN_MATCH, dist);
      CountToken(dist, lc, t);
      KeepToken(dist, lc, t);
      RecordedLen(toks, lBuf[..], dBuf[..], lastLit, lastDist);
      var end := GuessEnd(inLength);
      flush := end || lastLit == lBuf.Length - 1 || lastDist == dBuf.Length;
    }
  }

  lemma {:induction false} DotStep(fs: seq<nat>, cs: seq<nat>, k: nat)
    requires |fs| == |cs| && k < |fs|
    ensures Dot(fs[..k + 1], cs[..k + 1]) == Dot(fs[..k], cs[..k]) + fs[k] * cs[k]
    decreases k
  {
    if k > 0 {
      DotStep(fs[1..], cs[1..], k - 1);
      assert fs[..k + 1][1..] == fs[1..][..k] && cs[..k + 1][1..] == cs[1..][..k];
      assert fs[..k][1..] == fs[1..][..k - 1] && cs[..k][1..] == cs[1..][..k - 1];
    }
  }

  method ClearFreqs(tree: array<CtData>, n: nat)
    requires n <= tree.Length
    modifies tree
    ensures forall i :: 0 <= i < n ==> tree[i].fc == 0
  {
    var i := 0;
    while i < n
      invariant 0 <= i <= n && forall k :: 0 <= k < i ==> tree[k].fc == 0
    {
      tree[i] := tree[i].(fc := 0);
      i := i + 1;
    }
  }

  lemma NothingYet(lt: seq<CtData>, dt: seq<CtData>, bt: seq<CtData>, lb: seq<Byte>, db: seq<nat>, fb: seq<Byte>)
    requires |lt| == HEAP_SIZE && |dt| >= D_CODES && |bt| >= BL_CODES
    requires forall i :: 0 <= i < L_CODES ==> lt[i].fc == if i == END_BLOCK then 1 else 0
    requires forall i :: 0 <= i < D_CODES ==> dt[i].fc == 0
    requires forall i :: 0 <= i < BL_CODES ==> bt[i].fc == 0
    ensures Recorded([], lb, db, 0, 0) && Flagged([], fb, 0, 0, 1) && Frequent([], lt, dt) && Counted(bt, [])
  {
    TallyOne([], END_BLOCK, L_CODES);
    assert LSyms([]) == [] + [END_BLOCK];
    assert Freqs(lt, L_CODES) == Tally(LSyms([]), L_CODES);
  }

  lemma RecordedLen(toks: seq<Token>, lb: seq<Byte>, db: seq<nat>, lastLit: nat, lastDist: nat)
    requires Recorded(toks, lb, db, lastLit, lastDist)
    ensures |toks| == lastLit <= |lb| && lastDist <= lastLit
  {
  }

  lemma FlagRoom(toks: seq<Token>, fb: seq<Byte>, lastFlags: nat, flags: nat, flagBit: nat)
    requires Flagged(toks, fb, lastFlags, flags, flagBit)
    ensures lastFlags == |toks| / 8
  {
  }
}
