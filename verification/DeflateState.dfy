/** The invariant of the main loop of `deflate`. */
module DeflateState {
  import opened Bits
  import opened Coder
  import opened DeflateText
  import opened Matcher
  import opened Symbols
  import opened Telling

  /** The arrays of the match finder and of the coder are different objects. */
  ghost predicate Apart(m: Matcher, c: Coder) {
    && m.window != c.lBuf && m.window != c.flagBuf && m.window != c.w.outbuf
    && m.head != c.heap && m.head != c.depth && m.head != c.blCount && m.head != c.dBuf
    && m.prev != c.heap && m.prev != c.depth && m.prev != c.blCount && m.prev != c.dBuf
  }

  /** At the top of the loop: the byte before `strstart` may still be undecided (`avail`), and if
      so there may be a match of length `len` for it. */
  ghost predicate Top(m: Matcher, c: Coder, pre: Bits, avail: bool, len: nat)
    reads m, m.window, m.head, m.prev, c, c.w, c.w.outbuf, c.lBuf, c.dBuf, c.flagBuf, c.ltree, c.dtree, c.blTree
  {
    && m.Valid() && (m.lookahead >= 1 ==> m.Rolled(m.strstart))
    && 0 <= m.base + m.blockStart && m.blockStart <= m.strstart && (avail ==> m.strstart >= 1)
    && Writing(c, pre, m.text, m.base + m.blockStart, m.base + m.strstart - if avail then 1 else 0)
    && c.lastLit + 1 < c.lBuf.Length
    && len <= MAX_MATCH && (m.lookahead >= 1 ==> len >= 2)
    && (len >= MIN_MATCH ==> avail && len <= m.lookahead + 1
                             && Usable(m.text, m.base + m.strstart - 1, len, m.strstart - 1 - m.matchStart))
  }
}
