/** Tokens and blocks against the text: what `deflate` tells the coder. */
module Telling {
  import opened Arith
  import opened Bits
  import opened BlockForms
  import opened Coder
  import opened DeflateText
  import opened Flush
  import opened Inflate
  import opened Record
  import opened StaticTrees
  import opened Symbols
  import opened Tokens
  import opened TreeScan

  /** The tokens of the current block stand for the text from `from` to `p`; a decoder gets
      everything before from the bits sent. */
  ghost predicate Writing(c: Coder, pre: Bits, text: seq<Byte>, from: nat, p: nat)
    reads c, c.w, c.w.outbuf, c.lBuf, c.dBuf, c.flagBuf, c.ltree, c.dtree, c.blTree
  {
    Between(c, |pre|) && pre <= c.w.Sent() && Spells(text, from, c.toks, p) && Leads(c.w.Sent(), |pre|, text[..from])
  }

  lemma SpellsBounds(text: seq<Byte>, from: nat, toks: seq<Token>, p: nat)
    requires Spells(text, from, toks, p)
    ensures from <= p <= |text|
  {
  }

  /** The token that comes next in the text joins the block. */
  method Tell(c: Coder, dist: nat, lc: Byte, inLength: nat, ghost pre: Bits, ghost text: seq<Byte>, ghost from: nat,
              ghost p: nat)
    returns (flush: bool)
    requires Writing(c, pre, text, from, p) && c.lastLit + 1 < c.lBuf.Length
    requires if dist == 0 then p < |text| && lc == text[p] else Usable(text, p, lc + MIN_MATCH, dist)
    modifies c`lastLit, c`lastDist, c`lastFlags, c`flags, c`flagBit, c`toks, c.lBuf, c.dBuf, c.flagBuf, c.ltree, c.dtree
    ensures Writing(c, pre, text, from, p + if dist == 0 then 1 else lc + MIN_MATCH)
    ensures c.lastLit < c.lBuf.Length && (!flush ==> c.lastLit + 1 < c.lBuf.Length)
  {
    hide Spells, Leads, c.w.Sent, Recorded, Flagged, Frequent, Counted, FixedOk, TextMatch;
    if dist == 0 {
      SpellsLiteral(text, from, c.toks, p);
    } else {
      SpellsMatch(text, from, c.toks, p, lc + MIN_MATCH, dist);
    }
    flush := c.CtTally(dist, lc, inLength);
  }

  /** `FLUSH_BLOCK(0)`. */
  method FlushHere(c: Coder, buf: Buffer, storedLen: nat, ghost pre: Bits, ghost text: seq<Byte>, ghost from: nat,
                   ghost p: nat)
    requires Writing(c, pre, text, from, p) && from <= p <= |text|
    requires storedLen == p - from && (buf.Here? ==> buf.bytes == text[from..p])
    modifies c, c.w, c.w.outbuf, c.flagBuf, c.ltree, c.dtree, c.blTree, c.heap, c.depth, c.blCount
    ensures Writing(c, pre, text, p, p) && c.lastLit == 0
  {
    hide Spells, Leads, c.w.Sent, Recorded, Flagged, Frequent, Counted, FixedOk, StandsFor, Means;
    ghost var sent := c.w.Sent();
    SpellsStands(text, from, c.toks, p);
    ghost var b;
    var _, b' := FlushBlock(c, buf, storedLen, false, |pre|, text[..from], text[from..p]);
    b := b';
    assert text[..from] + text[from..p] == text[..p];
    LeadsOn(sent, |pre|, text[..from], b, text[..p]);
    SpellsNone(text, p);
  }

  /** `FLUSH_BLOCK(1)`: what was sent decodes to the whole text, up to the last byte. */
  method FlushLast(c: Coder, buf: Buffer, storedLen: nat, ghost pre: Bits, ghost text: seq<Byte>, ghost from: nat)
    returns (len: nat, ghost next: nat)
    requires Writing(c, pre, text, from, |text|) && from <= |text|
    requires storedLen == |text| - from && (buf.Here? ==> buf.bytes == text[from..])
    modifies c, c.w, c.w.outbuf, c.flagBuf, c.ltree, c.dtree, c.blTree, c.heap, c.depth, c.blCount
    ensures c.w.Valid() && c.w.biValid == 0 && Decodes(c.w.Sent(), |pre|, text, next)
    ensures |c.w.Sent()| == Align(next) && pre <= c.w.Sent() && len == (|c.w.Sent()| - |pre|) / 8 % TWO29
  {
    hide Spells, Leads, c.w.Sent, Recorded, Flagged, Frequent, Counted, FixedOk, StandsFor, Means, Align, Decodes;
    ghost var sent := c.w.Sent();
    SpellsStands(text, from, c.toks, |text|);
    assert text[from..|text|] == text[from..] && text[..|text|] == text;
    ghost var b;
    var n, b' := FlushBlock(c, buf, storedLen, true, |pre|, text[..from], text[from..]);
    len, b := n, b';
    assert text[..from] + text[from..] == text;
    LeadsEnd(sent, |pre|, text[..from], b, text, c.w.Sent());
    next := |sent| + |b|;
  }
}
