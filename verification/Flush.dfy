/** `flush_block`: the choice between the three forms of a block, and the output of it. */
module Flush {
  import opened Arith
  import opened Bits
  import opened BitWriter
  import opened BlockCode
  import opened BlockForms
  import opened Canonical
  import opened Coder
  import opened Compress
  import opened FlushTrees
  import opened HeaderCode
  import opened Inflate
  import opened Record
  import opened StaticTrees
  import opened StoredFits
  import opened Symbols
  import opened Tokens
  import opened TreeScan
  import opened TreeSend

  /** The bytes of the block, if they are still in the window. */
  datatype Buffer = Gone | Here(bytes: seq<Byte>)

  lemma PaddingAligns(n: nat, valid: nat)
    requires valid <= 16
    ensures Padding(valid) == Align(8 * n + valid) - (8 * n + valid)
  {
  }

  lemma StoredGroups(was: Bits, a: Bits, z: Bits, s: Bits)
    ensures was + a + z + s == was + (a + z + s)
  {
  }

  /** A stored block goes out. */
  method SendStored(w: Writer, data: seq<Byte>, eof: bool)
    requires w.Valid() && |data| < 65536
    modifies w, w.outbuf
    ensures w.Valid() && w.Sent() == old(w.Sent()) + StoredBits(|old(w.Sent())|, eof, data)
  {
    hide ByteBits, LsbBits, StoredBytes, Kind;
    ghost var was := w.Sent();
    KindSmall(STORED_BLOCK, eof);
    w.SendBits(Kind(STORED_BLOCK, eof), 3);
    PaddingAligns(|w.Bytes()|, w.biValid);
    assert |w.Sent()| == 8 * |w.Bytes()| + w.biValid == |was| + 3;
    ghost var pad := Padding(w.biValid);
    w.CopyBlock(data, true);
    StoredGroups(was, LsbBits(Kind(STORED_BLOCK, eof), 3), LsbBits(0, pad), ByteBits(StoredBytes(data, true)));
  }

  lemma KindSmall(kind: nat, eof: bool)
    requires kind < 4
    ensures Kind(kind, eof) < Pow2(3)
  {
    Pow2Consts();
  }

  method SendStatic(c: Coder, eof: bool)
    requires c.w.Valid() && c.Sizes() && c.Holds() && Packed(c.toks, c.flagBuf[..])
    requires AllCodable(FixedLit(), FixedDist(), c.toks) && Coded(FixedLit(), END_BLOCK)
    modifies c.w, c.w.outbuf
    ensures c.w.Valid() && c.w.Sent() == old(c.w.Sent()) + StaticBits(eof, c.toks)
  {
    hide c.w.Sent, FixedOk, FixedLit, FixedDist, AllCodable, LsbBits, Kind, DataBits, Code, Recorded, Packed, TreesFor;
    ghost var was := c.w.Sent();
    KindSmall(STATIC_TREES, eof);
    c.w.SendBits(Kind(STATIC_TREES, eof), 3);
    FixedTrees(c.fixed);
    CompressBlock(c, c.fixed.ltree, c.fixed.dtree, FixedLit(), FixedDist());
    Assoc(was, LsbBits(Kind(STATIC_TREES, eof), 3),
          DataBits(FixedLit(), FixedDist(), c.toks) + Code(FixedLit(), END_BLOCK));
  }

  lemma FixedTrees(f: Fixed)
    requires FixedOk(f)
    ensures TreesFor(f.ltree, f.dtree, FixedLit(), FixedDist())
  {
    hide FixedLit, FixedDist;
    forall s | 0 <= s < L_CODES && Coded(FixedLit(), s) ensures Sendable(f.ltree, FixedLit(), s) {
      CodesSendable(f.ltree, FixedLit(), s);
    }
  }

  lemma DynTrees(lt: seq<CtData>, dt: seq<CtData>, ll: seq<nat>, dl: seq<nat>)
    requires CodesOk(lt, ll) && CodesOk(dt, dl)
    ensures TreesFor(lt, dt, ll, dl)
  {
    hide CodesOk;
    forall s | 0 <= s < L_CODES && Coded(ll, s) ensures Sendable(lt, ll, s) { CodesSendable(lt, ll, s); }
    forall s | 0 <= s < D_CODES && Coded(dl, s) ensures Sendable(dt, dl, s) { CodesSendable(dt, dl, s); }
  }

  method SendDynamic(c: Coder, lmax: nat, dmax: nat, blcodes: nat, eof: bool, ghost cl: seq<nat>, ghost ll: seq<nat>,
                     ghost dl: seq<nat>)
    requires c.w.Valid() && c.Sizes() && c.Holds() && Packed(c.toks, c.flagBuf[..])
    requires |ll| == lmax + 1 && |dl| == dmax + 1
             && Ready(c.ltree[..], c.dtree[..], c.blTree[..], c.toks, cl, ll, dl, blcodes)
    modifies c.w, c.w.outbuf
    ensures c.w.Valid() && c.w.Sent() == old(c.w.Sent()) + DynBits(eof, c.toks, cl, ll, dl, blcodes)
  {
    hide c.w.Sent, FixedOk, AllCodable, LsbBits, Kind, DataBits, Code, Recorded, Packed, TreesFor, HeaderOk, HeaderBits,
      CodesOk, Guarded;
    ghost var was, toks, lt, dt := c.w.Sent(), c.toks, c.ltree[..], c.dtree[..];
    KindSmall(DYN_TREES, eof);
    c.w.SendBits(Kind(DYN_TREES, eof), 3);
    SendAllTrees(c.w, c.ltree, c.dtree, c.blTree, lmax + 1, dmax + 1, blcodes, cl, ll, dl);
    DynTrees(lt, dt, ll, dl);
    CompressBlock(c, c.ltree[..], c.dtree[..], ll, dl);
    StoredGroups(was, LsbBits(Kind(DYN_TREES, eof), 3), HeaderBits(cl, ll, dl, blcodes),
                 DataBits(ll, dl, toks) + Code(ll, END_BLOCK));
  }

  /** `compressed_len` has 32 bits: it is the number of bits sent since `start`, modulo 2^32. */
  ghost predicate Tracks(len: nat, start: nat, sent: nat) { start <= sent && len == (sent - start) % TWO32 }

  lemma WrapAdd(u: nat, d: nat)
    ensures (u % TWO32 + d) % TWO32 == (u + d) % TWO32
  {
  }

  lemma WrapAlign(v: nat)
    ensures v % TWO32 / 8 * 8 == v / 8 * 8 % TWO32
  {
  }

  lemma WrapByte(v: nat)
    ensures v % TWO32 / 8 == v / 8 % TWO29
  {
    var q, r := v / TWO32, v % TWO32;
    assert v == TWO32 * q + r;
    assert v / 8 == TWO29 * q + r / 8;
    Remainder(q, r / 8);
  }

  lemma Remainder(q: nat, y: nat)
    requires y < TWO29
    ensures (TWO29 * q + y) % TWO29 == y
  {
  }

  lemma TracksMore(len: nat, start: nat, sent: nat, d: nat)
    requires Tracks(len, start, sent)
    ensures Tracks((len + d) % TWO32, start, sent + d)
  {
    WrapAdd(sent - start, d);
  }

  /** The count of bits after a stored block: whole bytes before the data do not matter. */
  lemma StoredCount(len: nat, start: nat, sent: nat, stored: nat)
    requires start % 8 == 0 && Tracks(len, start, sent)
    ensures Tracks(((len + 3 + 7) % TWO32 / 8 * 8 + 8 * (stored + 4)) % TWO32, start, Align(sent + 3) + 32 + 8 * stored)
  {
    var u := sent - start;
    WrapAdd(u, 10);
    WrapAlign(u + 10);
    Aligned(start, u + 3);
    TracksMore((u + 10) / 8 * 8 % TWO32, start, Align(sent + 3), 8 * (stored + 4));
  }

  /** A stored block goes out and is counted. */
  method StoreBlock(c: Coder, data: seq<Byte>, eof: bool, ghost start: nat)
    requires c.w.Valid() && c.Sizes() && |data| < 65536 && start % 8 == 0
             && Tracks(c.compressedLen, start, |c.w.Sent()|)
    modifies c.w, c.w.outbuf, c`compressedLen
    ensures c.w.Valid() && c.w.Sent() == old(c.w.Sent()) + StoredBits(|old(c.w.Sent())|, eof, data)
    ensures Tracks(c.compressedLen, start, |c.w.Sent()|)
  {
    hide c.w.Sent, FixedOk, Align, LsbBits, ByteBits, StoredBytes;
    StoredCount(c.compressedLen, start, |c.w.Sent()|, |data|);
    SendStored(c.w, data, eof);
    c.compressedLen := (c.compressedLen + 3 + 7) % TWO32 / 8 * 8;
    c.compressedLen := (c.compressedLen + 8 * (|data| + 4)) % TWO32;
  }

  /** Which form is sent: the least length in bytes decides, with the stored form first and the
      static form before the dynamic one. */
  function Choice(opt: nat, stat: nat, stored: nat, here: bool): (kind: nat) {
    var optLenb, staticLenb := (opt + 3 + 7) / 8, (stat + 3 + 7) / 8;
    var least := if staticLenb <= optLenb then staticLenb else optLenb;
    if stored + 4 <= least && here then STORED_BLOCK else if staticLenb == least then STATIC_TREES else DYN_TREES
  }

  /** The chosen form is close to the shortest. */
  lemma ChoiceIsShort(opt: nat, stat: nat, stored: nat, here: bool, pos: nat)
    ensures var s, kind := Align(pos + 3) - pos + 32 + 8 * stored, Choice(opt, stat, stored, here);
            var b := if kind == STORED_BLOCK then s else if kind == STATIC_TREES then 3 + stat else 3 + opt;
            b <= 3 + opt + 17 && b <= 3 + stat + 17 && (here ==> b <= s)
            && (kind == STORED_BLOCK ==> here && stored + 4 <= (stat + 3 + 7) / 8)
  {
  }

  /** The trees are ready, `dyn` and `stc` are the two compressed forms of the block, and
      their lengths are known. */
  ghost predicate Forms(lt: seq<CtData>, dt: seq<CtData>, bt: seq<CtData>, toks: seq<Token>, eof: bool,
                        cl: seq<nat>, ll: seq<nat>, dl: seq<nat>, blcodes: nat, opt: int, stat: int, dyn: Bits,
                          stc: Bits) {
    && Ready(lt, dt, bt, toks, cl, ll, dl, blcodes) && dyn == DynBits(eof, toks, cl, ll, dl, blcodes)
       && |dyn| == 3 + opt
    && AllCodable(FixedLit(), FixedDist(), toks) && Coded(FixedLit(), END_BLOCK) && stc == StaticBits(eof, toks)
       && |stc| == 3 + stat
  }

  /** What the bytes `data` are to the block of `toks` after the text `out`. */
  ghost predicate StandsFor(toks: seq<Token>, out: seq<Byte>, data: seq<Byte>) {
    AllNear(toks) && Expand(out, toks) == Text(out + data)
  }

  lemma FormFacts(lt: seq<CtData>, dt: seq<CtData>, bt: seq<CtData>, toks: seq<Token>, eof: bool,
                  cl: seq<nat>, ll: seq<nat>, dl: seq<nat>, blcodes: nat, opt: int, stat: int, dyn: Bits, stc: Bits)
    requires Forms(lt, dt, bt, toks, eof, cl, ll, dl, blcodes, opt, stat, dyn, stc)
    ensures opt >= 0 && stat >= 0
    ensures HeaderOk(cl, ll, dl, blcodes) && AllCodable(ll, dl, toks) && Coded(ll, END_BLOCK)
            && Ready(lt, dt, bt, toks, cl, ll, dl, blcodes)
    ensures AllCodable(FixedLit(), FixedDist(), toks) && Coded(FixedLit(), END_BLOCK)
    ensures dyn == DynBits(eof, toks, cl, ll, dl, blcodes) && stc == StaticBits(eof, toks)
    ensures |dyn| == 3 + opt && |stc| == 3 + stat
    ensures stat == |DataBits(FixedLit(), FixedDist(), toks)| + |Code(FixedLit(), END_BLOCK)|
  {
    hide HeaderBits, DataBits, FixedLit, FixedDist, Code, LsbBits, HeaderOk, AllCodable, CodesOk, Guarded;
  }

  /** Each form decodes to the bytes. */
  lemma FormsMean(lt: seq<CtData>, dt: seq<CtData>, bt: seq<CtData>, toks: seq<Token>, eof: bool,
                  cl: seq<nat>, ll: seq<nat>, dl: seq<nat>, blcodes: nat, opt: int, stat: int, dyn: Bits, stc: Bits,
                  pos: nat, out: seq<Byte>, data: seq<Byte>)
    requires Forms(lt, dt, bt, toks, eof, cl, ll, dl, blcodes, opt, stat, dyn, stc) && StandsFor(toks, out, data)
    ensures Means(dyn, pos, eof, out, out + data) && Means(stc, pos, eof, out, out + data)
  {
    hide Forms, AllNear, Expand, Means, DynBits, StaticBits, HeaderOk, AllCodable, Coded, FixedLit;
    FormFacts(lt, dt, bt, toks, eof, cl, ll, dl, blcodes, opt, stat, dyn, stc);
    DynMeans(pos, eof, toks, cl, ll, dl, blcodes, out);
    StaticMeans(pos, eof, toks, out);
  }

  /** A stored block is short enough for its length field. */
  lemma StoredOk(lt: seq<CtData>, dt: seq<CtData>, bt: seq<CtData>, toks: seq<Token>, eof: bool,
                 cl: seq<nat>, ll: seq<nat>, dl: seq<nat>, blcodes: nat, opt: int, stat: int, dyn: Bits, stc: Bits,
                 out: seq<Byte>, data: seq<Byte>)
    requires Forms(lt, dt, bt, toks, eof, cl, ll, dl, blcodes, opt, stat, dyn, stc) && StandsFor(toks, out, data)
    requires AllOk(toks) && |toks| < 32768 && |data| + 4 <= (stat + 3 + 7) / 8
    ensures |data| < 65536
  {
    hide Forms, AllNear, Expand, AllCodable, FixedLit, DataBits;
    FormFacts(lt, dt, bt, toks, eof, cl, ll, dl, blcodes, opt, stat, dyn, stc);
    StoredIsShort(toks, out, data);
  }

  /** The block goes out in the form whose length in bytes is least: never more than 17 bits
      longer than the static or the dynamic form, and never longer than the stored one if the
      bytes are there. `compressed_len` grows by exactly the bits sent. */
  method SendBlock(c: Coder, lmax: nat, dmax: nat, maxBlindex: nat, buf: Buffer, storedLen: nat, eof: bool,
                   ghost cl: seq<nat>, ghost ll: seq<nat>, ghost dl: seq<nat>, ghost dyn: Bits, ghost stc: Bits,
                   ghost start: nat, ghost out: seq<Byte>, ghost data: seq<Byte>)
    returns (ghost b: Bits)
    requires c.w.Valid() && c.Sizes() && c.Holds() && Packed(c.toks, c.flagBuf[..]) && |c.toks| < 32768
    requires |ll| == lmax + 1 && |dl| == dmax + 1
    requires Forms(c.ltree[..], c.dtree[..], c.blTree[..], c.toks, eof, cl, ll, dl, maxBlindex + 1, c.optLen,
                   c.staticLen, dyn, stc)
    requires StandsFor(c.toks, out, data) && storedLen == |data| && (buf.Here? ==> buf.bytes == data)
    requires start % 8 == 0 && Tracks(c.compressedLen, start, |c.w.Sent()|)
    modifies c.w, c.w.outbuf, c`compressedLen
    ensures c.w.Valid() && c.w.Sent() == old(c.w.Sent()) + b && Means(b, |old(c.w.Sent())|, eof, out, out + data)
    ensures Tracks(c.compressedLen, start, |c.w.Sent()|)
    ensures |b| <= |dyn| + 17 && |b| <= |stc| + 17
    ensures buf.Here? ==> |b| <= Align(|old(c.w.Sent())| + 3) - |old(c.w.Sent())| + 32 + 8 * |data|
  {
    hide c.w.Sent, c.Sizes, Tracks, FixedDist, DataBits, Code, AllOk, FixedOk, FixedLit, AllCodable, Coded, Recorded,
      Packed, HeaderOk, Forms, StandsFor, Means, Ready, Align, DynBits, StaticBits, Choice, LsbBits, ByteBits,
      StoredBytes;
    ghost var pos, toks, lt, dt, bt := |c.w.Sent()|, c.toks, c.ltree[..], c.dtree[..], c.blTree[..];
    var opt, stat := c.optLen, c.staticLen;
    FormFacts(lt, dt, bt, toks, eof, cl, ll, dl, maxBlindex + 1, opt, stat, dyn, stc);
    FormsMean(lt, dt, bt, toks, eof, cl, ll, dl, maxBlindex + 1, opt, stat, dyn, stc, pos, out, data);
    ChoiceIsShort(opt, stat, storedLen, buf.Here?, pos);
    var kind := Choice(opt, stat, storedLen, buf.Here?);
    if kind == STORED_BLOCK {
      HoldsOk(toks, c.lBuf[..], c.dBuf[..], c.lastLit, c.lastDist);
      StoredOk(lt, dt, bt, toks, eof, cl, ll, dl, maxBlindex + 1, opt, stat, dyn, stc, out, data);
      b := StoredBits(pos, eof, data);
      StoredMeans(pos, eof, data, out);
      StoreBlock(c, buf.bytes, eof, start);
    } else if kind == STATIC_TREES {
      b := stc;
      SendStatic(c, eof);
      TracksMore(c.compressedLen, start, pos, 3 + stat);
      c.compressedLen := (c.compressedLen + 3 + stat) % TWO32;
    } else {
      b := dyn;
      SendDynamic(c, lmax, dmax, maxBlindex + 1, eof, cl, ll, dl);
      TracksMore(c.compressedLen, start, pos, 3 + opt);
      c.compressedLen := (c.compressedLen + 3 + opt) % TWO32;
    }
  }

  lemma HoldsOk(toks: seq<Token>, lb: seq<Byte>, db: seq<nat>, lastLit: nat, lastDist: nat)
    requires Recorded(toks, lb, db, lastLit, lastDist)
    ensures AllOk(toks)
  {
  }

  /** The predicted lengths are those of the forms. */
  lemma FormsReady(lt: seq<CtData>, dt: seq<CtData>, bt: seq<CtData>, toks: seq<Token>, eof: bool,
                   cl: seq<nat>, ll: seq<nat>, dl: seq<nat>, blcodes: nat, opt: int, stat: int)
    requires Ready(lt, dt, bt, toks, cl, ll, dl, blcodes)
    requires opt == |HeaderBits(cl, ll, dl, blcodes)| + |Body(ll, dl, toks)|
    requires AllCodable(FixedLit(), FixedDist(), toks) && Coded(FixedLit(), END_BLOCK)
             && stat == |Body(FixedLit(), FixedDist(), toks)|
    ensures Forms(lt, dt, bt, toks, eof, cl, ll, dl, blcodes, opt, stat, DynBits(eof, toks, cl, ll, dl, blcodes),
                  StaticBits(eof, toks))
  {
    hide HeaderBits, DataBits, FixedLit, FixedDist, Code, LsbBits, HeaderOk, AllCodable, CodesOk, Guarded;
  }

  /** What holds between blocks. */
  ghost predicate Between(c: Coder, start: nat)
    reads c, c.w, c.w.outbuf, c.lBuf, c.dBuf, c.flagBuf, c.ltree, c.dtree, c.blTree
  {
    && c.w.Valid() && c.Sizes() && c.Open() && c.lastLit < c.lBuf.Length && Counted(c.blTree[..], [])
       && c.optLen == c.staticLen == 0
    && start % 8 == 0 && Tracks(c.compressedLen, start, |c.w.Sent()|)
  }

  /** The padding after the last block completes the byte. */
  lemma LastByte(len: nat, start: nat, sent: nat)
    requires start % 8 == 0 && Tracks(len, start, sent)
    ensures (len + 7) % TWO32 / 8 == (Align(sent) - start) / 8 % TWO29
  {
    var u := sent - start;
    WrapAdd(u, 7);
    WrapByte(u + 7);
    Aligned(start, u);
  }

  lemma Aligned(start: nat, u: nat)
    requires start % 8 == 0
    ensures Align(start + u) - start == (u + 7) / 8 * 8
  {
  }

  /** The trees are built and the block goes out. */
  method EmitBlock(c: Coder, buf: Buffer, storedLen: nat, eof: bool, ghost start: nat, ghost out: seq<Byte>,
                   ghost data: seq<Byte>)
    returns (ghost b: Bits)
    requires Between(c, start) && StandsFor(c.toks, out, data) && storedLen == |data|
             && (buf.Here? ==> buf.bytes == data)
    modifies c`optLen, c`staticLen, c`compressedLen, c.w, c.w.outbuf, c.flagBuf, c.ltree, c.dtree, c.blTree, c.heap,
               c.depth, c.blCount
    ensures Means(b, |old(c.w.Sent())|, eof, out, out + data)
    ensures c.w.Valid() && c.w.Sent() == old(c.w.Sent()) + b && Tracks(c.compressedLen, start, |c.w.Sent()|)
  {
    hide c.w.Sent, FixedOk, FixedLit, AllCodable, Coded, Recorded, Flagged, Packed, Frequent, Counted, HeaderOk, Forms,
      StandsFor, Means, Ready, Align, DynBits, StaticBits,
      LsbBits, Body, HeaderBits;
    RecordedLen(c.toks, c.lBuf[..], c.dBuf[..], c.lastLit, c.lastDist);
    FlagRoom(c.toks, c.flagBuf[..], c.lastFlags, c.flags, c.flagBit);
    PackedLast(c.toks, c.flagBuf[..], c.lastFlags, c.flags, c.flagBit);
    c.flagBuf[c.lastFlags] := c.flags;
    var lmax, dmax, maxBlindex;
    ghost var cl, ll, dl;
    lmax, dmax, maxBlindex, cl, ll, dl := BuildTrees(c);
    FormsReady(c.ltree[..], c.dtree[..], c.blTree[..], c.toks, eof, cl, ll, dl, maxBlindex + 1, c.optLen, c.staticLen);
    ReadyFacts(c.ltree[..], c.dtree[..], c.blTree[..], c.toks, cl, ll, dl, maxBlindex + 1);
    b := SendBlock(c, lmax, dmax, maxBlindex, buf, storedLen, eof, cl, ll, dl,
                   DynBits(eof, c.toks, cl, ll, dl, maxBlindex + 1), StaticBits(eof, c.toks), start, out, data);
  }

  /** The last byte is completed with zero bits. */
  method EndStream(w: Writer) returns (ghost pad: nat)
    requires w.Valid()
    modifies w, w.outbuf
    ensures w.Valid() && w.biValid == 0 && w.Sent() == old(w.Sent()) + LsbBits(0, pad)
    ensures pad == Align(|old(w.Sent())|) - |old(w.Sent())|
  {
    hide LsbBits, ByteBits;
    PaddingAligns(|w.Bytes()|, w.biValid);
    pad := Padding(w.biValid);
    w.Windup();
  }

  /** `flush_block`: a decoder that has read everything before gets the bytes of the block from
      the bits sent, and stops at their end; after the last block the byte is completed. The
      length returned is the number of bytes so far, of which the count has 29 bits. */
  method FlushBlock(c: Coder, buf: Buffer, storedLen: nat, eof: bool, ghost start: nat, ghost out: seq<Byte>,
                    ghost data: seq<Byte>)
    returns (len: nat, ghost b: Bits)
    requires Between(c, start) && StandsFor(c.toks, out, data) && storedLen == |data|
             && (buf.Here? ==> buf.bytes == data)
    modifies c, c.w, c.w.outbuf, c.flagBuf, c.ltree, c.dtree, c.blTree, c.heap, c.depth, c.blCount
    ensures Means(b, |old(c.w.Sent())|, eof, out, out + data)
    ensures !eof ==> Between(c, start) && c.toks == [] && c.lastLit == 0 && c.w.Sent() == old(c.w.Sent()) + b
    ensures eof ==> c.w.Valid() && c.w.biValid == 0 && old(c.w.Sent()) + b <= c.w.Sent()
    ensures eof ==> |c.w.Sent()| == Align(|old(c.w.Sent())| + |b|)
    ensures start <= |c.w.Sent()| && len == (|c.w.Sent()| - start) / 8 % TWO29
  {
    hide c.w.Sent, FixedOk, Recorded, Flagged, Frequent, Counted, StandsFor, Means, Align, LsbBits;
    b := EmitBlock(c, buf, storedLen, eof, start, out, data);
    c.InitBlock();
    if eof {
      LastByte(c.compressedLen, start, |c.w.Sent()|);
      ghost var pad := EndStream(c.w);
      c.compressedLen := (c.compressedLen + 7) % TWO32;
    } else {
      WrapByte(|c.w.Sent()| - start);
    }
    len := c.compressedLen / 8;
  }

  lemma ReadyFacts(lt: seq<CtData>, dt: seq<CtData>, bt: seq<CtData>, toks: seq<Token>, cl: seq<nat>, ll: seq<nat>,
                   dl: seq<nat>, blcodes: nat)
    requires Ready(lt, dt, bt, toks, cl, ll, dl, blcodes)
    ensures HeaderOk(cl, ll, dl, blcodes) && AllCodable(ll, dl, toks) && Coded(ll, END_BLOCK)
  {
  }
}
