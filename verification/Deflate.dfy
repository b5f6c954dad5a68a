/** `lm_init` and `deflate`: the whole input goes through the window into blocks. */
module Deflate {
  import opened Arith
  import opened StaticTrees
  import opened Record
  import opened TreeScan
  import opened Bits
  import opened Coder
  import opened DeflateState
  import opened DeflateText
  import opened Flush
  import opened Hash
  import opened Inflate
  import opened Longest
  import opened Input
  import opened Matcher
  import opened StoredFits
  import opened Symbols
  import opened Telling
  import opened Window

  /** A true match in the window is a match in the text. */
  lemma SameInText(win: seq<Byte>, text: seq<Byte>, base: nat, end: nat, s: nat, ms: nat, best: nat, len: nat)
    requires InText(win, text, base, end) && Same(win, ms, s, best) && ms < s && len <= best && s + len <= end
    ensures TextMatch(text, base + s, len, s - ms)
  {
    hide InText;
    SameLess(win, ms, s, best, len);
    InTextAt(win, text, base, end, s, len);
    InTextAt(win, text, base, end, ms, len);
  }

  /** The effort suffices for the positions within reach that have the hash of the string at `s`. */
  ghost predicate Unhurried(win: seq<Byte>, hb: nat, s: nat, e: Effort, prevLength: nat) {
    |Rivals(win, hb, s)| <= Budget(e, prevLength) && e.niceMatch >= MAX_MATCH
  }

  /** No match longer than `prevLength` that may be sent is longer than `len`. Matches with the first
      string in the window are not looked for, nor those at the largest distance, as the head of a chain
      apart. */
  ghost predicate LongestOf(text: seq<Byte>, base: nat, s: nat, look: nat, prevLength: nat, len: nat) {
    forall n: nat, d: nat | prevLength < n <= look && d < MAX_DIST && d < s && Reaches(text, base, s, n, d) :: n <= len
  }

  ghost predicate Reaches(text: seq<Byte>, base: nat, s: nat, n: nat, d: nat) {
    Usable(text, base + s, n, d)
  }

  lemma TextSame(win: seq<Byte>, text: seq<Byte>, base: nat, end: nat, s: nat, n: nat, d: nat)
    requires InText(win, text, base, end) && s + n <= end && d < s && Usable(text, base + s, n, d)
    ensures 1 <= d && MIN_MATCH <= n <= MAX_MATCH && Same(win, s - d, s, n) && (n == MIN_MATCH ==> d <= TOO_FAR)
  {
    hide InText;
    InTextAt(win, text, base, end, s, n);
    InTextAt(win, text, base, end, s - d, n);
    InTextSize(win, text, base, end);
    InTextEnd(win, text, base, end);
    var p, v := base + s, s - d;
    assert p - d == base + v;
    assert win[v .. v + n] == text[base + v .. base + v + n] == text[p .. p + n] == win[s .. s + n];
  }

  /** What a search has found that left out nothing is the longest. */
  lemma SearchedAll(win: seq<Byte>, head: seq<nat>, prev: seq<nat>, hb: nat, s: nat, hashHead: nat, visited: seq<nat>,
                    prevLength: nat, best: nat, ms: int, was: int, n: nat, d: nat)
    requires Chains(win, head, prev, hb, s + 1) && s < WINDOW_SIZE && hashHead == prev[s % WSIZE]
    requires Follows(prev, hashHead, visited) && Exhausted(win, prev, hb, s, visited)
    requires NoneBetter(win, s, visited, best)
    requires Descends(win, hb, s, visited, hashHead, 0) && Nearest(win, s, visited, prevLength, best, ms)
    requires Best(win, s, prevLength, best, ms, was) && 2 <= prevLength
    requires 1 <= d < MAX_DIST && d < s && MIN_MATCH <= n <= MAX_MATCH && Same(win, s - d, s, n) && n > prevLength
    ensures n <= best && (n == best ==> ms >= s - d)
  {
    hide Chains, Same, Candidate, Follows, Exhausted, Descends, HashAt, NoneBetter;
    WindowSize(win, head, prev, hb, s + 1);
    if n > best {
      SameLess(win, s - d, s, n, best + 1);
      NoneLonger(win, head, prev, hb, s, hashHead, visited, best, s - d);
    } else if n == best {
      SameHashes(win, hb, s - d, s, n);
      AllLookedAt(win, head, prev, hb, s, hashHead, visited, s - d);
    }
  }

  /** The match at `strstart`, if there is one longer than `prevLength`: a match in the text,
      not longer than the lookahead; with enough effort the longest there is, but for the last three bytes
      of the input. */
  method FindMatch(m: Matcher, prevLength: nat, hashHead: nat) returns (matchLength: nat)
    requires m.Midway() && 2 <= prevLength <= MAX_MATCH && m.strstart < WINDOW_SIZE
    requires hashHead == m.prev[m.strstart % WSIZE]
    requires hashHead == 0
             || (hashHead < m.strstart
                 && HashAt(m.window[..], hashHead, m.hashBits) == HashAt(m.window[..], m.strstart, m.hashBits))
    modifies m`matchStart
    ensures m.Midway()
    ensures 1 <= matchLength <= MAX_MATCH && (matchLength < 2 ==> m.lookahead == 1)
    ensures matchLength > prevLength ==>
              matchLength <= m.lookahead && Usable(m.text, m.base + m.strstart, matchLength, m.strstart - m.matchStart)
    ensures Unhurried(m.window[..], m.hashBits, m.strstart, m.effort, prevLength) && prevLength < m.maxLazy
            && m.lookahead > MIN_MATCH ==>
              LongestOf(m.text, m.base, m.strstart, m.lookahead, prevLength, matchLength)
  {
    hide InText, Chains, HashAt, Rolling, Same, NoneBetter, TextMatch, Descends, Nearest, Follows, AtEnd, LongestOf;
    matchLength := MIN_MATCH - 1;
    ghost var win, was, end := m.window[..], m.matchStart, m.strstart + m.lookahead;
    if hashHead != 0 && prevLength < m.maxLazy && m.strstart - hashHead <= MAX_DIST {
      ghost var visited;
      var best, ms;
      best, ms, visited :=
        LongestMatch(m.window, m.prev, m.strstart, prevLength, hashHead, m.matchStart, m.effort, m.head[..],
                     m.hashBits);
      m.matchStart, matchLength := ms, best;
      if matchLength > m.lookahead {
        matchLength := m.lookahead;
      }
      if best > prevLength {
        SameInText(win, m.text, m.base, end, m.strstart, ms, best, matchLength);
      }
      if matchLength == MIN_MATCH && m.strstart - m.matchStart > TOO_FAR {
        matchLength := matchLength - 1;
      }
      if Unhurried(win, m.hashBits, m.strstart, m.effort, prevLength) && m.lookahead > MIN_MATCH {
        FoundLongest(win, m.text, m.base, end, m.head[..], m.prev[..], m.hashBits, m.strstart, hashHead, visited,
                     m.effort, prevLength, best, ms, was, matchLength);
      }
    } else if prevLength < m.maxLazy {
      NoneFound(win, m.text, m.base, end, m.head[..], m.prev[..], m.hashBits, m.strstart, prevLength);
    }
  }

  lemma FoundLongest(win: seq<Byte>, text: seq<Byte>, base: nat, end: nat, head: seq<nat>, prev: seq<nat>, hb: nat,
                     s: nat, hashHead: nat, visited: seq<nat>, e: Effort, prevLength: nat, best: nat, ms: int,
                     was: int, len: nat)
    requires InText(win, text, base, end) && Chains(win, head, prev, hb, s + 1) && s + MIN_MATCH < end
    requires s < WINDOW_SIZE && hashHead == prev[s % WSIZE] && hashHead < s
    requires Follows(prev, hashHead, visited) && Descends(win, hb, s, visited, hashHead, 0)
    requires AtEnd(prev, s, visited) || Spent(e, prevLength, best, |visited|)
    requires NoneBetter(win, s, visited, best) && Nearest(win, s, visited, prevLength, best, ms)
    requires Best(win, s, prevLength, best, ms, was) && 2 <= prevLength && Unhurried(win, hb, s, e, prevLength)
    requires var n := if best > end - s then end - s else best;
             len == if n == MIN_MATCH && s - ms > TOO_FAR then 2 else n
    ensures LongestOf(text, base, s, end - s, prevLength, len)
  {
    hide InText, Chains, Same, NoneBetter, Descends, Nearest, Follows, AtEnd, Usable, Rivals;
    forall n: nat, d: nat | prevLength < n <= end - s && d < MAX_DIST && d < s && Reaches(text, base, s, n, d)
      ensures n <= len
    {
      TextSame(win, text, base, end, s, n, d);
      if best < MAX_MATCH {
        SearchedAll(win, head, prev, hb, s, hashHead, visited, prevLength, best, ms, was, n, d);
      }
    }
  }

  lemma NoneFound(win: seq<Byte>, text: seq<Byte>, base: nat, end: nat, head: seq<nat>, prev: seq<nat>, hb: nat, s: nat,
                  prevLength: nat)
    requires InText(win, text, base, end) && Chains(win, head, prev, hb, s + 1) && s < WINDOW_SIZE && s <= end
    requires prev[s % WSIZE] == 0 || (prev[s % WSIZE] < s && s - prev[s % WSIZE] > MAX_DIST)
    ensures LongestOf(text, base, s, end - s, prevLength, 2)
  {
    hide InText, Same, Usable, LinkOk, HeadOk;
    forall n: nat, d: nat | prevLength < n <= end - s && d < MAX_DIST && d < s
      ensures !Reaches(text, base, s, n, d)
    {
      if Reaches(text, base, s, n, d) {
        TextSame(win, text, base, end, s, n, d);
        NoneAtAll(win, head, prev, hb, s, s - d, n);
      }
    }
  }

  /** The part of the window a block comes from, if it is all there. */
  method BlockBytes(m: Matcher) returns (buf: Buffer)
    requires m.Sizes() && InText(m.window[..], m.text, m.base, m.strstart + m.lookahead)
    requires 0 <= m.base + m.blockStart && m.blockStart <= m.strstart
    ensures buf.Here? ==> buf.bytes == m.text[m.base + m.blockStart .. m.base + m.strstart]
    ensures buf.Here? <==> m.blockStart >= 0
  {
    if m.blockStart >= 0 {
      InTextAt(m.window[..], m.text, m.base, m.strstart + m.lookahead, m.blockStart, m.strstart - m.blockStart);
      buf := Here(m.window[m.blockStart .. m.strstart]);
    } else {
      buf := Gone;
    }
  }

  /** `FLUSH_BLOCK(0)`, and the next block starts here. */
  method FlushWindow(m: Matcher, c: Coder, ghost pre: Bits)
    requires m.Sizes() && InText(m.window[..], m.text, m.base, m.strstart + m.lookahead) && Apart(m, c)
    requires 0 <= m.base + m.blockStart && m.blockStart <= m.strstart
    requires Writing(c, pre, m.text, m.base + m.blockStart, m.base + m.strstart)
    modifies m`blockStart, c, c.w, c.w.outbuf, c.flagBuf, c.ltree, c.dtree, c.blTree, c.heap, c.depth, c.blCount
    ensures m.blockStart == m.strstart && c.lastLit == 0
    ensures Writing(c, pre, m.text, m.base + m.strstart, m.base + m.strstart)
  {
    hide InText, Writing;
    InTextSize(m.window[..], m.text, m.base, m.strstart + m.lookahead);
    var buf := BlockBytes(m);
    FlushHere(c, buf, m.strstart - m.blockStart, pre, m.text, m.base + m.blockStart, m.base + m.strstart);
    m.blockStart := m.strstart;
  }

  lemma InTextSize(win: seq<Byte>, text: seq<Byte>, base: nat, end: nat)
    requires InText(win, text, base, end)
    ensures base + end == |text| && end <= WINDOW_SIZE
  {
  }

  /** The previous match is adopted: it is told, all its strings join their chains, and the
      window moves on behind it. */
  method EndMatch(m: Matcher, c: Coder, prevMatch: int, prevLength: nat, ghost pre: Bits)
    requires m.Midway() && Apart(m, c) && m.strstart >= 1 && 0 <= m.base + m.blockStart && m.blockStart <= m.strstart
    requires Writing(c, pre, m.text, m.base + m.blockStart, m.base + m.strstart - 1) && c.lastLit + 1 < c.lBuf.Length
    requires Usable(m.text, m.base + m.strstart - 1, prevLength, m.strstart - 1 - prevMatch)
             && prevLength <= m.lookahead + 1
    modifies m`insH, m`strstart, m`lookahead, m`blockStart, m.head, m.prev
    modifies c, c.w, c.w.outbuf, c.lBuf, c.dBuf, c.flagBuf, c.ltree, c.dtree, c.blTree, c.heap, c.depth, c.blCount
    ensures m.Valid() && m.Rolled(m.strstart)
    ensures m.strstart == old(m.strstart) - 1 + prevLength && m.strstart + m.lookahead == old(m.strstart + m.lookahead)
    ensures 0 <= m.base + m.blockStart && m.blockStart <= m.strstart
    ensures Writing(c, pre, m.text, m.base + m.blockStart, m.base + m.strstart) && c.lastLit + 1 < c.lBuf.Length
  {
    hide m.Valid, m.Midway, m.Rolled, InText, Usable, Writing;
    UsableDist(m.text, m.base + m.strstart - 1, prevLength, m.strstart - 1 - prevMatch);
    var flush := TellMatch(m, c, prevMatch, prevLength, pre);
    PassMatch(m, c, prevLength, flush, pre);
  }

  /** The window moves on behind a match that has been told, and the block ends if it must. */
  method PassMatch(m: Matcher, c: Coder, n: nat, flush: bool, ghost pre: Bits)
    requires m.Midway() && Apart(m, c) && m.strstart >= 1 && 0 <= m.base + m.blockStart && m.blockStart <= m.strstart
    requires MIN_MATCH <= n <= m.lookahead + 1
    requires Writing(c, pre, m.text, m.base + m.blockStart, m.base + m.strstart - 1 + n)
             && (!flush ==> c.lastLit + 1 < c.lBuf.Length)
    modifies m`insH, m`strstart, m`lookahead, m`blockStart, m.head, m.prev
    modifies c, c.w, c.w.outbuf, c.flagBuf, c.ltree, c.dtree, c.blTree, c.heap, c.depth, c.blCount
    ensures m.Valid() && m.Rolled(m.strstart)
    ensures m.strstart == old(m.strstart) - 1 + n && m.strstart + m.lookahead == old(m.strstart + m.lookahead)
    ensures 0 <= m.base + m.blockStart && m.blockStart <= m.strstart
    ensures Writing(c, pre, m.text, m.base + m.blockStart, m.base + m.strstart) && c.lastLit + 1 < c.lBuf.Length
  {
    hide m.Valid, m.Midway, m.Rolled, InText, Writing;
    MoveOn(m, n);
    ValidText(m);
    FlushIf(m, c, flush, pre);
  }

  /** The match for the byte before `strstart` is told. */
  method TellMatch(m: Matcher, c: Coder, prevMatch: int, prevLength: nat, ghost pre: Bits) returns (flush: bool)
    requires m.strstart >= 1 && 0 <= m.base + m.blockStart && m.blockStart <= m.strstart
    requires Writing(c, pre, m.text, m.base + m.blockStart, m.base + m.strstart - 1) && c.lastLit + 1 < c.lBuf.Length
    requires Usable(m.text, m.base + m.strstart - 1, prevLength, m.strstart - 1 - prevMatch)
    modifies c`lastLit, c`lastDist, c`lastFlags, c`flags, c`flagBit, c`toks, c.lBuf, c.dBuf, c.flagBuf, c.ltree, c.dtree
    ensures Writing(c, pre, m.text, m.base + m.blockStart, m.base + m.strstart - 1 + prevLength)
    ensures !flush ==> c.lastLit + 1 < c.lBuf.Length
  {
    hide Usable, Writing;
    ghost var p := m.base + m.strstart - 1;
    var dist := m.strstart - 1 - prevMatch;
    UsableDist(m.text, p, prevLength, dist);
    flush := Tell(c, dist, prevLength - MIN_MATCH, m.strstart - m.blockStart, pre, m.text, m.base + m.blockStart, p);
  }

  lemma MidwayText(m: Matcher)
    requires m.Midway()
    ensures m.Sizes() && m.lookahead >= 1 && InText(m.window[..], m.text, m.base, m.strstart + m.lookahead)
  {
  }

  lemma ValidText(m: Matcher)
    requires m.Valid()
    ensures m.Sizes() && InText(m.window[..], m.text, m.base, m.strstart + m.lookahead)
  {
  }

  /** The strings of a match of length `n` join their chains, all but the first two. */
  method MoveOn(m: Matcher, n: nat)
    requires m.Midway() && MIN_MATCH <= n <= m.lookahead + 1
    modifies m`insH, m`strstart, m`lookahead, m.head, m.prev
    ensures m.Valid() && m.Rolled(m.strstart)
    ensures m.strstart == old(m.strstart) - 1 + n && m.lookahead == old(m.lookahead) - (n - 1)
  {
    hide InText, Chains, Rolling;
    InTextSize(m.window[..], m.text, m.base, m.strstart + m.lookahead);
    m.lookahead := m.lookahead - (n - 1);
    m.InsertRest(n - 2);
    m.strstart := m.strstart + 1;
  }

  lemma UsableDist(text: seq<Byte>, p: nat, len: nat, dist: int)
    requires Usable(text, p, len, dist)
    ensures 1 <= dist <= MAX_DIST && MIN_MATCH <= len <= MAX_MATCH
  {
  }

  /** The byte before `strstart` is told as a literal, and the window moves on by one. */
  method EndLiteral(m: Matcher, c: Coder, ghost pre: Bits)
    requires m.Midway() && Apart(m, c) && m.strstart >= 1 && 0 <= m.base + m.blockStart && m.blockStart <= m.strstart
    requires Writing(c, pre, m.text, m.base + m.blockStart, m.base + m.strstart - 1) && c.lastLit + 1 < c.lBuf.Length
    modifies m`strstart, m`lookahead, m`blockStart
    modifies c, c.w, c.w.outbuf, c.lBuf, c.dBuf, c.flagBuf, c.ltree, c.dtree, c.blTree, c.heap, c.depth, c.blCount
    ensures m.Valid() && m.Rolled(m.strstart)
    ensures m.strstart == old(m.strstart) + 1 && m.strstart + m.lookahead == old(m.strstart + m.lookahead)
    ensures 0 <= m.base + m.blockStart && m.blockStart < m.strstart
    ensures Writing(c, pre, m.text, m.base + m.blockStart, m.base + m.strstart - 1) && c.lastLit + 1 < c.lBuf.Length
  {
    hide m.Valid, m.Midway, m.Rolled, InText, Writing;
    MidwayText(m);
    TellAndFlush(m, c, pre);
    Wait(m);
  }

  /** The byte before `strstart` is told, and the block ends if it must. */
  method TellAndFlush(m: Matcher, c: Coder, ghost pre: Bits)
    requires m.Sizes() && InText(m.window[..], m.text, m.base, m.strstart + m.lookahead) && Apart(m, c)
    requires m.strstart >= 1 && 0 <= m.base + m.blockStart && m.blockStart <= m.strstart
    requires Writing(c, pre, m.text, m.base + m.blockStart, m.base + m.strstart - 1) && c.lastLit + 1 < c.lBuf.Length
    modifies m`blockStart
    modifies c, c.w, c.w.outbuf, c.lBuf, c.dBuf, c.flagBuf, c.ltree, c.dtree, c.blTree, c.heap, c.depth, c.blCount
    ensures 0 <= m.base + m.blockStart && m.blockStart <= m.strstart
    ensures Writing(c, pre, m.text, m.base + m.blockStart, m.base + m.strstart) && c.lastLit + 1 < c.lBuf.Length
  {
    hide InText, Writing;
    var flush := TellByte(m, c, pre);
    FlushIf(m, c, flush, pre);
  }

  /** The block ends here if it must. */
  method FlushIf(m: Matcher, c: Coder, flush: bool, ghost pre: Bits)
    requires m.Sizes() && InText(m.window[..], m.text, m.base, m.strstart + m.lookahead) && Apart(m, c)
    requires 0 <= m.base + m.blockStart && m.blockStart <= m.strstart
    requires Writing(c, pre, m.text, m.base + m.blockStart, m.base + m.strstart)
             && (!flush ==> c.lastLit + 1 < c.lBuf.Length)
    modifies m`blockStart
    modifies c, c.w, c.w.outbuf, c.flagBuf, c.ltree, c.dtree, c.blTree, c.heap, c.depth, c.blCount
    ensures 0 <= m.base + m.blockStart && m.blockStart <= m.strstart
    ensures Writing(c, pre, m.text, m.base + m.blockStart, m.base + m.strstart) && c.lastLit + 1 < c.lBuf.Length
  {
    hide InText, Writing;
    if flush {
      FlushWindow(m, c, pre);
      BufferSize(c, pre, m.text, m.base + m.blockStart, m.base + m.strstart);
    }
  }

  lemma BufferSize(c: Coder, pre: Bits, text: seq<Byte>, from: nat, p: nat)
    requires Writing(c, pre, text, from, p)
    ensures c.lBuf.Length >= 2
  {
    hide Spells, Leads, c.w.Sent, Recorded, Flagged, Frequent, FixedOk;
  }

  /** The byte before `strstart` is told. */
  method TellByte(m: Matcher, c: Coder, ghost pre: Bits) returns (flush: bool)
    requires m.Sizes() && InText(m.window[..], m.text, m.base, m.strstart + m.lookahead) && Apart(m, c)
    requires m.strstart >= 1 && 0 <= m.base + m.blockStart && m.blockStart <= m.strstart
    requires Writing(c, pre, m.text, m.base + m.blockStart, m.base + m.strstart - 1) && c.lastLit + 1 < c.lBuf.Length
    modifies c`lastLit, c`lastDist, c`lastFlags, c`flags, c`flagBit, c`toks, c.lBuf, c.dBuf, c.flagBuf, c.ltree, c.dtree
    ensures Writing(c, pre, m.text, m.base + m.blockStart, m.base + m.strstart)
    ensures c.lastLit < c.lBuf.Length && (!flush ==> c.lastLit + 1 < c.lBuf.Length)
  {
    hide InText, Writing;
    InTextByte(m.window[..], m.text, m.base, m.strstart + m.lookahead, m.strstart - 1);
    flush := Tell(c, 0, m.window[m.strstart - 1], m.strstart - m.blockStart, pre, m.text, m.base + m.blockStart,
                  m.base + m.strstart - 1);
  }

  lemma InTextByte(win: seq<Byte>, text: seq<Byte>, base: nat, end: nat, i: nat)
    requires InText(win, text, base, end) && i < end
    ensures base + i < |text| && i < |win| && win[i] == text[base + i]
  {
    assert win[..end][i] == text[base..][i];
  }

  /** Enough lookahead, or the end of the input. */
  method Refill(m: Matcher, ghost all: seq<Byte>)
    requires m.Valid() && m.text + Remaining(m.chunks) == all
    requires !m.eofile ==> m.strstart == 0 || m.lookahead >= 2
    modifies m`chunks, m`lookahead, m`eofile, m`isize, m`text, m`strstart, m`matchStart, m`blockStart, m`base,
               m.window, m.head, m.prev
    ensures m.Valid() && m.text + Remaining(m.chunks) == all && (m.eofile || m.lookahead >= MIN_LOOKAHEAD)
    ensures m.base + m.strstart == old(m.base + m.strstart) && m.base + m.matchStart == old(m.base + m.matchStart)
    ensures m.base + m.blockStart == old(m.base + m.blockStart) && m.blockStart <= old(m.blockStart)
    ensures old(m.text) <= m.text && m.lookahead >= old(m.lookahead)
            && (old(m.eofile) ==> m.lookahead == old(m.lookahead))
    ensures |Remaining(m.chunks)| + m.lookahead == old(|Remaining(m.chunks)| + m.lookahead)
    ensures m.strstart <= old(m.strstart) && (m.strstart < old(m.strstart) ==> m.strstart >= MAX_DIST)
    ensures (old(m.eofile) || old(m.lookahead) >= 2) && old(m.Rolled(m.strstart)) ==> m.Rolled(m.strstart)
  {
    hide InText, Chains, Rolling, Remaining;
    ghost var rolled := m.lookahead >= 2 && m.Rolled(m.strstart);
    while m.lookahead < MIN_LOOKAHEAD && !m.eofile
      invariant m.Valid() && m.text + Remaining(m.chunks) == all
      invariant !m.eofile ==> m.strstart == 0 || m.lookahead >= 2
      invariant m.base + m.strstart == old(m.base + m.strstart) && m.base + m.matchStart == old(m.base + m.matchStart)
      invariant m.base + m.blockStart == old(m.base + m.blockStart) && m.blockStart <= old(m.blockStart)
      invariant old(m.text) <= m.text && m.lookahead >= old(m.lookahead)
      invariant |Remaining(m.chunks)| + m.lookahead == old(|Remaining(m.chunks)| + m.lookahead)
      invariant m.strstart <= old(m.strstart) && (m.strstart < old(m.strstart) ==> m.strstart >= MAX_DIST)
      invariant rolled ==> m.Rolled(m.strstart)
      invariant old(m.eofile) ==>
                  m.eofile && m.insH == old(m.insH) && m.window[..] == old(m.window[..])
                  && m.strstart == old(m.strstart) && m.lookahead == old(m.lookahead)
      decreases |Remaining(m.chunks)| + if m.eofile then 0 else 1
    {
      m.FillWindow();
    }
  }

  /** The string at `strstart` joins its chain; the search for a match there comes next. */
  method Enter(m: Matcher) returns (hashHead: nat)
    requires m.Valid() && m.lookahead >= 1 && m.Rolled(m.strstart)
    modifies m`insH, m.head, m.prev
    ensures m.Midway() && m.strstart < WINDOW_SIZE && hashHead == m.prev[m.strstart % WSIZE]
    ensures hashHead == 0
            || (hashHead < m.strstart
                && HashAt(m.window[..], hashHead, m.hashBits) == HashAt(m.window[..], m.strstart, m.hashBits))
  {
    hide InText, Chains, Rolling, HashAt;
    InTextSize(m.window[..], m.text, m.base, m.strstart + m.lookahead);
    hashHead := m.InsertString(m.strstart);
  }

  /** One turn of the loop but for the refill: the lazy evaluation of matches. The match before is taken
      if the one found here is no longer; otherwise this one waits for the next turn. */
  method Step(m: Matcher, c: Coder, avail: bool, len: nat, ghost pre: Bits)
    returns (avail': bool, len': nat, ghost found: nat)
    requires Apart(m, c) && Top(m, c, pre, avail, len) && m.lookahead >= 1 && (m.eofile || m.lookahead >= MIN_LOOKAHEAD)
    modifies m`insH, m`matchStart, m`strstart, m`lookahead, m`blockStart, m.head, m.prev
    modifies c, c.w, c.w.outbuf, c.lBuf, c.dBuf, c.flagBuf, c.ltree, c.dtree, c.blTree, c.heap, c.depth, c.blCount
    ensures Top(m, c, pre, avail', len') && m.Rolled(m.strstart) && (m.eofile || m.lookahead >= 2)
    ensures m.strstart + m.lookahead == old(m.strstart + m.lookahead) && m.lookahead < old(m.lookahead)
    ensures len >= MIN_MATCH && found <= len ==>
              !avail' && len' == MIN_MATCH - 1 && m.strstart == old(m.strstart) - 1 + len
    ensures len < MIN_MATCH || found > len ==> avail' && len' == found && m.strstart == old(m.strstart) + 1
    ensures Unhurried(old(m.window[..]), m.hashBits, old(m.strstart), m.effort, len) && len < m.maxLazy
            && old(m.lookahead) > MIN_MATCH ==>
              LongestOf(m.text, m.base, old(m.strstart), old(m.lookahead), len, found)
  {
    hide m.Valid, m.Midway, m.Rolled, HashAt, Usable, Writing, LongestOf, Unhurried;
    var hashHead := Enter(m);
    var prevLength, prevMatch := len, m.matchStart;
    len' := FindMatch(m, prevLength, hashHead);
    found := len';
    if prevLength >= MIN_MATCH && len' <= prevLength {
      EndMatch(m, c, prevMatch, prevLength, pre);
      avail', len' := false, MIN_MATCH - 1;
    } else {
      avail' := true;
      if avail {
        EndLiteral(m, c, pre);
      } else {
        Wait(m);
      }
    }
  }

  /** The byte at `strstart` stays undecided for now. */
  method Wait(m: Matcher)
    requires m.Midway()
    modifies m`strstart, m`lookahead
    ensures m.Valid() && m.Rolled(m.strstart) && m.strstart == old(m.strstart) + 1
            && m.lookahead == old(m.lookahead) - 1
  {
    hide InText, Chains, Rolling;
    m.strstart, m.lookahead := m.strstart + 1, m.lookahead - 1;
  }

  /** Nothing is lost when more is read. */
  lemma WritingMore(c: Coder, pre: Bits, text: seq<Byte>, text': seq<Byte>, from: nat, p: nat)
    requires Writing(c, pre, text, from, p) && text <= text'
    ensures Writing(c, pre, text', from, p)
  {
    hide Spells, Leads, c.w.Sent, Between;
    SpellsBounds(text, from, c.toks, p);
    SpellsMore(text, text', from, c.toks, p);
    assert text'[..from] == text[..from];
  }

  /** The refill keeps the invariant. */
  method Resume(m: Matcher, c: Coder, avail: bool, len: nat, ghost pre: Bits, ghost all: seq<Byte>)
    requires Apart(m, c) && Top(m, c, pre, avail, len) && m.Rolled(m.strstart) && (m.eofile || m.lookahead >= 2)
    requires m.text + Remaining(m.chunks) == all
    modifies m`chunks, m`lookahead, m`eofile, m`isize, m`text, m`strstart, m`matchStart, m`blockStart, m`base,
               m.window, m.head, m.prev
    ensures Top(m, c, pre, avail, len) && m.text + Remaining(m.chunks) == all
            && (m.eofile || m.lookahead >= MIN_LOOKAHEAD)
    ensures |Remaining(m.chunks)| + m.lookahead == old(|Remaining(m.chunks)| + m.lookahead)
  {
    hide m.Valid, m.Rolled, Usable, Writing, Remaining;
    ghost var text, from, p := m.text, m.base + m.blockStart, m.base + m.strstart;
    ghost var dist := m.strstart - 1 - m.matchStart;
    Refill(m, all);
    WritingMore(c, pre, text, m.text, from, p - if avail then 1 else 0);
    if len >= MIN_MATCH {
      UsableMore(text, m.text, p - 1, len, dist);
    }
  }

  /** Before anything is told. */
  lemma StartWriting(c: Coder, pre: Bits, text: seq<Byte>)
    requires Between(c, |pre|) && c.toks == [] && c.w.Sent() == pre
    ensures Writing(c, pre, text, 0, 0)
  {
    hide Spells, Leads, c.w.Sent, Recorded, Flagged, Frequent, Counted, FixedOk;
    SpellsNone(text, 0);
    LeadsStart(c.w.Sent());
    assert text[..0] == [];
  }

  lemma ChainsNone(win: seq<Byte>, head: seq<nat>, prev: seq<nat>, hb: nat)
    requires |win| == WINDOW_BYTES && |head| == Pow2(hb) && |prev| == WSIZE
             && forall h :: 0 <= h < |head| ==> head[h] == 0
    ensures Chains(win, head, prev, hb, 0)
  {
  }

  /** `lm_init`: empty chains, the first input, and the hash of its first two bytes. */
  method LmInit(m: Matcher, ghost all: seq<Byte>)
    requires m.Sizes() && Remaining(m.chunks) == all && m.isize == 0
    modifies m, m.window, m.head, m.prev
    ensures m.Valid() && m.text + Remaining(m.chunks) == all
    ensures m.base == m.strstart == 0 && m.blockStart == 0 && (m.eofile || m.lookahead >= MIN_LOOKAHEAD)
    ensures m.lookahead >= 1 ==> m.Rolled(0)
  {
    hide m.Valid, InText, Chains, Rolling, Remaining, Update;
    ReadFirst(m, all);
    if m.eofile { return; }
    Refill(m, all);
    m.insH := 0;
    m.insH := Update(m.insH, m.window[0], m.hashBits);
    m.insH := Update(m.insH, m.window[1], m.hashBits);
    RollingStart(m.window[0], m.window[1], m.hashBits);
  }

  /** The window is empty, and nothing is in the chains. */
  method Reset(m: Matcher)
    requires m.Sizes()
    modifies m`strstart, m`blockStart, m`lookahead, m`text, m`base, m.head
    ensures m.strstart == m.lookahead == m.base == 0 && m.blockStart == 0 && m.text == []
    ensures InText(m.window[..], [], 0, 0) && Chains(m.window[..], m.head[..], m.prev[..], m.hashBits, 0)
  {
    hide Chains, Pow2;
    forall i | 0 <= i < m.head.Length { m.head[i] := 0; }
    m.strstart, m.blockStart, m.lookahead, m.text, m.base := 0, 0, 0, [], 0;
    ChainsNone(m.window[..], m.head[..], m.prev[..], m.hashBits);
  }

  /** The first read may fill the whole window. */
  method ReadFirst(m: Matcher, ghost all: seq<Byte>)
    requires m.Sizes() && Remaining(m.chunks) == all && m.isize == 0
    modifies m, m.window, m.head
    ensures m.Valid() && m.text + Remaining(m.chunks) == all
    ensures m.lookahead == 0 <==> m.eofile
    ensures m.base == m.strstart == 0 && m.blockStart == 0
  {
    hide InText, Chains, Remaining;
    Reset(m);
    var s;
    s, m.chunks := FileRead(m.chunks, WINDOW_SIZE);
    m.eofile := s == [];
    if s != [] {
      m.Append(s);
      m.isize := (m.isize + |s|) % TWO32;
    }
  }

  /** The end of the input: the last literal, and the last block. */
  method Finish(m: Matcher, c: Coder, avail: bool, ghost len: nat, ghost pre: Bits)
    returns (bytes: nat, ghost next: nat)
    requires Apart(m, c) && Top(m, c, pre, avail, len) && m.lookahead == 0
    modifies c, c.w, c.w.outbuf, c.lBuf, c.dBuf, c.flagBuf, c.ltree, c.dtree, c.blTree, c.heap, c.depth, c.blCount
    ensures c.w.Valid() && c.w.biValid == 0 && Decodes(c.w.Sent(), |pre|, m.text, next)
    ensures |c.w.Sent()| == Align(next) && pre <= c.w.Sent() && bytes == (|c.w.Sent()| - |pre|) / 8 % TWO29
  {
    hide m.Valid, m.Rolled, InText, Usable, Writing, Align, Decodes, c.w.Sent, FixedOk;
    ValidText(m);
    ghost var from := m.base + m.blockStart;
    InTextSize(m.window[..], m.text, m.base, m.strstart);
    if avail {
      var _ := TellByte(m, c, pre);
    }
    var buf := BlockBytes(m);
    assert m.text[from .. |m.text|] == m.text[from..];
    bytes, next := FlushLast(c, buf, m.strstart - m.blockStart, pre, m.text, from);
  }

  /** `deflate`: a decoder of the format gets back exactly what was read, however the reads
      split it, and stops in the last byte sent. The length returned is the number of bytes, of which the
      count has 29 bits. */
  method Deflate(m: Matcher, c: Coder, ghost pre: Bits, ghost all: seq<Byte>) returns (bytes: nat, ghost next: nat)
    requires m.Valid() && m.text + Remaining(m.chunks) == all && Apart(m, c)
    requires m.base == m.strstart == 0 && m.blockStart == 0 && (m.eofile || m.lookahead >= MIN_LOOKAHEAD)
    requires m.lookahead >= 1 ==> m.Rolled(0)
    requires Between(c, |pre|) && c.toks == [] && c.lastLit == 0 && c.w.Sent() == pre
    modifies m, m.window, m.head, m.prev
    modifies c, c.w, c.w.outbuf, c.lBuf, c.dBuf, c.flagBuf, c.ltree, c.dtree, c.blTree, c.heap, c.depth, c.blCount
    ensures c.w.Valid() && c.w.biValid == 0 && Decodes(c.w.Sent(), |pre|, all, next) && m.isize == |all| % TWO32
    ensures |c.w.Sent()| == Align(next) && pre <= c.w.Sent() && bytes == (|c.w.Sent()| - |pre|) / 8 % TWO29
  {
    hide InText, Chains, Rolling, Usable, Spells, Leads, c.w.Sent, Recorded, Flagged, Frequent, Counted, FixedOk, Align,
      Decodes, Remaining, Writing;
    var avail := false;
    var len: nat := MIN_MATCH - 1;
    StartWriting(c, pre, m.text);
    while m.lookahead != 0
      invariant Top(m, c, pre, avail, len) && m.text + Remaining(m.chunks) == all
      invariant m.eofile || m.lookahead >= MIN_LOOKAHEAD
      decreases m.lookahead + |Remaining(m.chunks)|
    {
      ghost var found;
      avail, len, found := Step(m, c, avail, len, pre);
      Resume(m, c, avail, len, pre, all);
    }
    assert m.text + [] == m.text;
    bytes, next := Finish(m, c, avail, len, pre);
  }
}
