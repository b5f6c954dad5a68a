/** `compress_block`: sending the recorded tokens with a pair of trees. */
module Compress {
  import opened Arith
  import opened Bits
  import opened BitWriter
  import opened BlockCode
  import opened Canonical
  import opened Coder
  import opened Record
  import opened StaticTrees
  import opened Symbols
  import opened Tables
  import opened Tokens
  import opened TreeSend

  /** The trees hold the codes of the lengths `ll` and `dl`. */
  ghost predicate TreesFor(lt: seq<CtData>, dt: seq<CtData>, ll: seq<nat>, dl: seq<nat>) {
    && (forall s :: 0 <= s < L_CODES && Coded(ll, s) ==> Sendable(lt, ll, s))
    && (forall s :: 0 <= s < D_CODES && Coded(dl, s) ==> Sendable(dt, dl, s))
  }

  /** Extra bits, if there are any. */
  method SendExtra(w: Writer, value: nat, n: nat, ghost x: nat)
    requires w.Valid() && n <= BUF_SIZE && (n > 0 ==> value == x) && x < Pow2(n)
    modifies w, w.outbuf
    ensures w.Valid() && w.Sent() == old(w.Sent()) + LsbBits(x, n)
  {
    if n != 0 {
      w.SendBits(value, n);
    } else {
      assert w.Sent() + [] == w.Sent();
    }
  }

  lemma ExtraSmall(c: nat)
    ensures c < LENGTH_CODES ==> EXTRA_LBITS[c] <= 5 && (EXTRA_LBITS[c] > 0 ==> c < 28)
    ensures c < D_CODES ==> EXTRA_DBITS[c] <= 13
  {
  }

  /** A match length: its code and its extra bits. */
  method SendLength(w: Writer, f: Fixed, lt: seq<CtData>, lc: Byte, ghost ll: seq<nat>)
    requires w.Valid() && LengthTables(f.lengthCode, f.baseLength)
    requires Sendable(lt, ll, 257 + LengthCode(lc + MIN_MATCH))
    modifies w, w.outbuf
    ensures w.Valid() && w.Sent() == old(w.Sent()) + LengthBits(ll, lc + MIN_MATCH)
  {
    hide w.Sent, LengthCode, Code, LsbBits, Pow2, Reversed;
    ghost var was, len := w.Sent(), lc + MIN_MATCH;
    LengthCodeOk(len);
    assert f.lengthCode[len - MIN_MATCH] == LengthCode(len);
    var code := f.lengthCode[lc];
    SendCode(w, lt, code + LITERALS + 1, ll);
    ExtraSmall(code);
    var extra := EXTRA_LBITS[code];
    SendExtra(w, if extra != 0 then lc - f.baseLength[code] else lc, extra, len - LENGTHS[code]);
    Assoc(was, Code(ll, 257 + code), LsbBits(len - LENGTHS[code], extra));
  }

  method SendDist(w: Writer, f: Fixed, dt: seq<CtData>, d: nat, ghost dl: seq<nat>)
    requires w.Valid() && DistTables(f.distCode, f.baseDist) && d < WSIZE
    requires Sendable(dt, dl, DistCode(d + 1))
    modifies w, w.outbuf
    ensures w.Valid() && w.Sent() == old(w.Sent()) + DistBits(dl, d + 1)
  {
    hide w.Sent, DistCode, DCode, Code, LsbBits, Pow2, Reversed;
    ghost var was, dist := w.Sent(), d + 1;
    DistCodeOk(dist);
    assert DCode(f.distCode, dist - 1) == DistCode(dist);
    var code := DCode(f.distCode, d);
    SendCode(w, dt, code, dl);
    ExtraSmall(code);
    var extra := EXTRA_DBITS[code];
    SendExtra(w, d - f.baseDist[code], extra, dist - DISTS[code]);
    Assoc(was, Code(dl, code), LsbBits(dist - DISTS[code], extra));
  }

  /** One token goes out; `d` is the distance minus one if it is a match. */
  method SendToken(w: Writer, f: Fixed, lt: seq<CtData>, dt: seq<CtData>, isMatch: bool, lc: Byte, d: nat,
                   ghost t: Token, ghost ll: seq<nat>, ghost dl: seq<nat>)
    requires w.Valid() && FixedOk(f) && TreesFor(lt, dt, ll, dl) && Codable(ll, dl, t)
    requires isMatch == t.Match? && lc == Lc(t) && (t.Match? ==> d == t.dist - 1)
    modifies w, w.outbuf
    ensures w.Valid() && w.Sent() == old(w.Sent()) + TokenBits(ll, dl, t)
  {
    hide w.Sent, Sendable, LengthCode, DistCode, LengthBits, DistBits, Code, LengthTables, DistTables;
    LSymBelow(t);
    if !isMatch {
      SendCode(w, lt, lc, ll);
    } else {
      ghost var was := w.Sent();
      SendLength(w, f, lt, lc, ll);
      SendDist(w, f, dt, d, dl);
      Assoc(was, LengthBits(ll, t.len), DistBits(dl, t.dist));
    }
  }

  // ----- reading the record -----

  /** The flags left of the byte that holds the flag of token `n - 1`. */
  ghost function FlagsLeft(toks: seq<Token>, n: nat): (r: Bits)
    requires 1 <= n <= |toks|
  {
    var end := (n + 7) / 8 * 8;
    Marks(toks)[n .. if end <= |toks| then end else |toks|]
  }

  lemma FlagFirst(toks: seq<Token>, fb: seq<Byte>, n: nat)
    requires Packed(toks, fb) && n < |toks| && n % 8 == 0
    ensures n / 8 < |fb|
    ensures fb[n / 8] == LsbValue([toks[n].Match?] + FlagsLeft(toks, n + 1))
  {
    hide LsbValue;
    var k := n / 8;
    var end := if 8 * k + 8 <= |toks| then 8 * k + 8 else |toks|;
    assert 8 * k == n;
    assert Marks(toks)[8 * k .. end] == [toks[n].Match?] + FlagsLeft(toks, n + 1);
  }

  lemma FlagNext(toks: seq<Token>, n: nat)
    requires 1 <= n < |toks| && n % 8 != 0
    ensures FlagsLeft(toks, n) == [toks[n].Match?] + FlagsLeft(toks, n + 1)
  {
  }

  lemma FlagBitOf(x: bool, rest: Bits)
    ensures var v := LsbValue([x] + rest); (v % 2 == 1) == x && v / 2 == LsbValue(rest)
  {
    assert ([x] + rest)[1..] == rest;
  }

  /** Where the record of token `n` is. */
  lemma RecordAt(toks: seq<Token>, lb: seq<Byte>, db: seq<nat>, lastLit: nat, lastDist: nat, n: nat)
    requires Recorded(toks, lb, db, lastLit, lastDist) && n < |toks|
    ensures TokenOk(toks[n]) && lb[n] == Lc(toks[n])
    ensures var dx := |Dists(toks[..n])|;
            if toks[n].Match? then dx < |db| && db[dx] == toks[n].dist - 1 && |Dists(toks[..n + 1])| == dx + 1
            else |Dists(toks[..n + 1])| == dx
  {
    hide Lc, Dists;
    assert lb[..lastLit][n] == Lcs(toks)[n];
    if toks[n].Match? {
      DistsPrefix(toks, n);
      assert db[..lastDist][|Dists(toks[..n])|] == toks[n].dist - 1;
    } else {
      assert toks[..n + 1] == toks[..n] + [toks[n]];
      DistsStep(toks[..n], toks[n]);
    }
  }

  lemma DataStep(ll: seq<nat>, dl: seq<nat>, toks: seq<Token>, n: nat)
    requires AllCodable(ll, dl, toks) && n < |toks|
    ensures AllCodable(ll, dl, toks[..n]) && AllCodable(ll, dl, toks[..n + 1]) && Codable(ll, dl, toks[n])
    ensures DataBits(ll, dl, toks[..n + 1]) == DataBits(ll, dl, toks[..n]) + TokenBits(ll, dl, toks[n])
  {
    hide Codable, TokenBits;
    assert toks[..n + 1][..n] == toks[..n];
  }

  /** The position `lx` of the record: the next distance, and the flags left of a byte. */
  ghost predicate Reading(toks: seq<Token>, lx: nat, dx: nat, fx: nat, flag: nat) {
    && lx <= |toks| && AllOk(toks[..lx]) && dx == |Dists(toks[..lx])| && fx == (lx + 7) / 8
    && (lx % 8 != 0 ==> flag == LsbValue(FlagsLeft(toks, lx)))
  }

  lemma DataNone(ll: seq<nat>, dl: seq<nat>, toks: seq<Token>, was: Bits)
    requires AllCodable(ll, dl, toks)
    ensures AllCodable(ll, dl, toks[..0]) && was + DataBits(ll, dl, toks[..0]) == was
    ensures Reading(toks, 0, 0, 0, 0)
  {
    assert toks[..0] == [];
  }

  /** The next token of the record. */
  method NextToken(c: Coder, lx: nat, dx0: nat, fx0: nat, flag0: nat)
    returns (isMatch: bool, lc: Byte, d: nat, dx: nat, fx: nat, flag: nat)
    requires c.Sizes() && c.Holds() && Packed(c.toks, c.flagBuf[..]) && lx < |c.toks|
    requires Reading(c.toks, lx, dx0, fx0, flag0)
    ensures var t := c.toks[lx]; TokenOk(t) && isMatch == t.Match? && lc == Lc(t) && (t.Match? ==> d == t.dist - 1)
    ensures Reading(c.toks, lx + 1, dx, fx, flag)
  {
    hide FixedOk, Recorded, Packed, FlagsLeft, Dists, Lc, LsbValue;
    ghost var toks, t := c.toks, c.toks[lx];
    dx, fx, flag, d := dx0, fx0, flag0, 0;
    if lx % 8 == 0 {
      FlagFirst(toks, c.flagBuf[..], lx);
      flag := c.flagBuf[fx];
      fx := fx + 1;
    } else {
      FlagNext(toks, lx);
    }
    FlagBitOf(t.Match?, FlagsLeft(toks, lx + 1));
    RecordedLen(toks, c.lBuf[..], c.dBuf[..], c.lastLit, c.lastDist);
    RecordAt(toks, c.lBuf[..], c.dBuf[..], c.lastLit, c.lastDist, lx);
    assert toks[..lx + 1] == toks[..lx] + [t];
    lc, isMatch := c.lBuf[lx], flag % 2 != 0;
    if isMatch {
      d := c.dBuf[dx];
      dx := dx + 1;
    }
    flag := flag / 2;
  }

  /** The block's data goes out: every token, in order, and the end of the block. */
  method CompressBlock(c: Coder, lt: seq<CtData>, dt: seq<CtData>, ghost ll: seq<nat>, ghost dl: seq<nat>)
    requires c.w.Valid() && c.Sizes() && c.Holds() && Packed(c.toks, c.flagBuf[..])
    requires TreesFor(lt, dt, ll, dl) && AllCodable(ll, dl, c.toks) && Coded(ll, END_BLOCK)
    modifies c.w, c.w.outbuf
    ensures c.w.Valid() && c.w.Sent() == old(c.w.Sent()) + (DataBits(ll, dl, c.toks) + Code(ll, END_BLOCK))
  {
    hide c.w.Sent, FixedOk, TreesFor, DataBits, TokenBits, Recorded, Packed, Reading, AllCodable, Code, Lc;
    ghost var was, toks := c.w.Sent(), c.toks;
    var flag, lx, dx, fx := 0, 0, 0, 0;
    RecordedLen(toks, c.lBuf[..], c.dBuf[..], c.lastLit, c.lastDist);
    DataNone(ll, dl, toks, was);
    if c.lastLit != 0 {
      while true
        invariant 0 <= lx < |toks| && c.Holds() && Packed(toks, c.flagBuf[..])
        invariant Reading(toks, lx, dx, fx, flag)
        invariant AllCodable(ll, dl, toks[..lx]) && c.w.Valid() && c.w.Sent() == was + DataBits(ll, dl, toks[..lx])
        decreases |toks| - lx
      {
        var isMatch, lc, d;
        DataStep(ll, dl, toks, lx);
        isMatch, lc, d, dx, fx, flag := NextToken(c, lx, dx, fx, flag);
        SendToken(c.w, c.fixed, lt, dt, isMatch, lc, d, toks[lx], ll, dl);
        Assoc(was, DataBits(ll, dl, toks[..lx]), TokenBits(ll, dl, toks[lx]));
        lx := lx + 1;
        if lx >= c.lastLit { break; }
      }
    }
    assert toks[..lx] == toks;
    EndSendable(lt, dt, ll, dl);
    SendCode(c.w, lt, END_BLOCK, ll);
    Assoc(was, DataBits(ll, dl, toks), Code(ll, END_BLOCK));
  }

  lemma EndSendable(lt: seq<CtData>, dt: seq<CtData>, ll: seq<nat>, dl: seq<nat>)
    requires TreesFor(lt, dt, ll, dl) && Coded(ll, END_BLOCK)
    ensures Sendable(lt, ll, END_BLOCK)
  {
  }
}
