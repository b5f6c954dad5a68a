/** What the sliding window and the hash chains hold. */
module Window {
  import opened Arith
  import opened Hash
  import opened Symbols

  const WINDOW_SIZE: nat := 2 * WSIZE
  const MIN_LOOKAHEAD: nat := MAX_MATCH + MIN_MATCH + 1
  const MAX_DIST: nat := WSIZE - MIN_LOOKAHEAD

  /** The window array: comparisons near its end look at up to `MAX_MATCH` bytes behind it. */
  const WINDOW_BYTES: nat := WINDOW_SIZE + MAX_MATCH

  /** The window holds the text from `base` on, up to `end`. */
  ghost predicate InText(win: seq<Byte>, text: seq<Byte>, base: nat, end: nat) {
    && |win| == WINDOW_BYTES && end <= WINDOW_SIZE && base + end == |text|
    && win[..end] == text[base..]
  }

  lemma InTextAt(win: seq<Byte>, text: seq<Byte>, base: nat, end: nat, i: nat, n: nat)
    requires InText(win, text, base, end) && i + n <= end
    ensures base + i + n <= |text| && win[i .. i + n] == text[base + i .. base + i + n]
  {
    assert win[..end][i .. i + n] == win[i .. i + n];
    assert text[base..][i .. i + n] == text[base + i .. base + i + n];
  }

  ghost function HashAt(win: seq<Byte>, p: nat, hb: nat): (h: nat)
    requires p + 2 < |win|
    ensures h < Pow2(hb)
  {
    Hash3(win[p], win[p + 1], win[p + 2], hb)
  }

  /** No position between `lo` and `hi` has the hash `h`. */
  ghost predicate NoneAt(win: seq<Byte>, hb: nat, lo: nat, hi: nat, h: nat)
    requires |win| == WINDOW_BYTES && hi <= WINDOW_SIZE
  {
    forall x :: lo < x < hi ==> HashAt(win, x, hb) != h
  }

  /** The head of chain `h` is the last position before `ins` with that hash, or none if there is none
      but the first in the window. */
  ghost predicate HeadOk(win: seq<Byte>, head: seq<nat>, hb: nat, ins: nat, h: nat)
    requires h < |head| && |win| == WINDOW_BYTES && ins <= WINDOW_SIZE
  {
    (head[h] == 0 || (head[h] < ins && HashAt(win, head[h], hb) == h)) && NoneAt(win, hb, head[h], ins, h)
  }

  /** The link of position `p` is the last position before it with the same hash, or none. */
  ghost predicate LinkOk(win: seq<Byte>, prev: seq<nat>, hb: nat, p: nat)
    requires |prev| == WSIZE && |win| == WINDOW_BYTES && p < WINDOW_SIZE
  {
    var q := prev[p % WSIZE];
    && (q == 0 || (q < p && HashAt(win, q, hb) == HashAt(win, p, hb)))
    && NoneAt(win, hb, q, p, HashAt(win, p, hb))
  }

  /** The positions before `ins` are in the chains of their hashes, and nothing else is: every link leads
      to the next position of its hash. Links are kept for the last `WSIZE` positions. */
  ghost predicate Chains(win: seq<Byte>, head: seq<nat>, prev: seq<nat>, hb: nat, ins: nat) {
    && |win| == WINDOW_BYTES && |head| == Pow2(hb) && |prev| == WSIZE && ins <= WINDOW_SIZE
    && (forall h :: 0 <= h < |head| ==> HeadOk(win, head, hb, ins, h))
    && (forall p :: 0 <= p < ins && ins <= p + WSIZE ==> LinkOk(win, prev, hb, p))
  }

  lemma SlotsDiffer(p: nat, s: nat)
    requires p < s < p + WSIZE
    ensures p % WSIZE != s % WSIZE
  {
  }

  /** `INSERT_STRING`: position `s` becomes the head of its chain. */
  lemma ChainsInsert(win: seq<Byte>, head: seq<nat>, prev: seq<nat>, hb: nat, s: nat)
    requires Chains(win, head, prev, hb, s) && s < WINDOW_SIZE
    ensures var h := HashAt(win, s, hb); Chains(win, head[h := s], prev[s % WSIZE := head[h]], hb, s + 1)
  {
    hide HashAt, Pow2;
    var h := HashAt(win, s, hb);
    var head', prev', n := head[h := s], prev[s % WSIZE := head[h]], s + 1;
    assert HeadOk(win, head, hb, s, h);
    forall g | 0 <= g < |head'| ensures HeadOk(win, head', hb, n, g) {
      if g != h { assert HeadOk(win, head, hb, s, g); }
    }
    forall p | 0 <= p < s + 1 && s + 1 <= p + WSIZE ensures LinkOk(win, prev', hb, p) {
      if p < s {
        assert LinkOk(win, prev, hb, p);
        SlotsDiffer(p, s);
      }
    }
  }

  /** New bytes behind everything that was hashed do not disturb the chains. */
  lemma ChainsExtend(win: seq<Byte>, win': seq<Byte>, head: seq<nat>, prev: seq<nat>, hb: nat, ins: nat, end: nat)
    requires Chains(win, head, prev, hb, ins) && |win'| == |win| && end <= |win| && (ins == 0 || ins + 1 < end)
    requires win'[..end] == win[..end]
    ensures Chains(win', head, prev, hb, ins)
  {
    hide Hash3, Pow2;
    forall p | 0 <= p < ins ensures HashAt(win', p, hb) == HashAt(win, p, hb) { SameHash(win, win', p, end, hb); }
    forall h | 0 <= h < |head| ensures HeadOk(win', head, hb, ins, h) { assert HeadOk(win, head, hb, ins, h); }
    forall p | 0 <= p < ins && ins <= p + WSIZE ensures LinkOk(win', prev, hb, p) { assert LinkOk(win, prev, hb, p); }
  }

  lemma SameHash(win: seq<Byte>, win': seq<Byte>, p: nat, end: nat, hb: nat)
    requires p + 2 < end <= |win| == |win'| && win'[..end] == win[..end]
    ensures HashAt(win', p, hb) == HashAt(win, p, hb)
  {
    assert win'[p] == win'[..end][p] && win'[p + 1] == win'[..end][p + 1] && win'[p + 2] == win'[..end][p + 2];
    assert win[p] == win[..end][p] && win[p + 1] == win[..end][p + 1] && win[p + 2] == win[..end][p + 2];
  }

  // ----- sliding -----

  /** The upper half moves to the lower half. */
  ghost predicate Slid(win: seq<Byte>, win': seq<Byte>) {
    |win| == |win'| == WINDOW_BYTES && win'[..WSIZE] == win[WSIZE .. WINDOW_SIZE] && win'[WSIZE..] == win[WSIZE..]
  }

  function Down(m: nat): (r: nat) {
    if m >= WSIZE then m - WSIZE else 0
  }

  ghost predicate AllDown(a: seq<nat>, b: seq<nat>) {
    |a| == |b| && forall i :: 0 <= i < |a| ==> b[i] == Down(a[i])
  }

  lemma SlidHash(win: seq<Byte>, win': seq<Byte>, p: nat, hb: nat)
    requires Slid(win, win') && WSIZE <= p && p + 2 < WINDOW_SIZE
    ensures HashAt(win', p - WSIZE, hb) == HashAt(win, p, hb)
  {
    hide Hash3;
    var up := win[WSIZE .. WINDOW_SIZE];
    var q := p - WSIZE;
    assert win'[q] == win'[..WSIZE][q] && win'[q + 1] == win'[..WSIZE][q + 1] && win'[q + 2] == win'[..WSIZE][q + 2];
    assert up[q] == win[p] && up[q + 1] == win[p + 1] && up[q + 2] == win[p + 2];
  }

  lemma NoneSlides(win: seq<Byte>, win': seq<Byte>, hb: nat, lo: nat, hi: nat, h: nat)
    requires Slid(win, win') && WSIZE <= hi && hi + 1 < WINDOW_SIZE && NoneAt(win, hb, lo, hi, h)
    ensures NoneAt(win', hb, Down(lo), hi - WSIZE, h)
  {
    hide HashAt, Slid;
    SlidSizes(win, win');
    forall x | Down(lo) < x < hi - WSIZE ensures HashAt(win', x, hb) != h { SlidHash(win, win', x + WSIZE, hb); }
  }

  lemma SlidSizes(win: seq<Byte>, win': seq<Byte>)
    requires Slid(win, win')
    ensures |win| == |win'| == WINDOW_BYTES
  {
  }

  /** Sliding keeps the chains: what falls out of the window is dropped. */
  lemma ChainsSlide(win: seq<Byte>, win': seq<Byte>, head: seq<nat>, head': seq<nat>, prev: seq<nat>, prev': seq<nat>,
                    hb: nat, ins: nat)
    requires Chains(win, head, prev, hb, ins) && WSIZE <= ins && ins + 1 < WINDOW_SIZE
    requires Slid(win, win') && AllDown(head, head') && AllDown(prev, prev')
    ensures Chains(win', head', prev', hb, ins - WSIZE)
  {
    hide HashAt, Pow2;
    var n := ins - WSIZE;
    forall h | 0 <= h < |head'| ensures HeadOk(win', head', hb, n, h) {
      assert HeadOk(win, head, hb, ins, h);
      if head[h] >= WSIZE { SlidHash(win, win', head[h], hb); }
      NoneSlides(win, win', hb, head[h], ins, h);
    }
    forall p | 0 <= p < n && n <= p + WSIZE ensures LinkOk(win', prev', hb, p) {
      var o := p + WSIZE;
      assert LinkOk(win, prev, hb, o);
      assert o % WSIZE == p % WSIZE;
      SlidHash(win, win', o, hb);
      var m := prev[o % WSIZE];
      if m >= WSIZE { SlidHash(win, win', m, hb); }
      NoneSlides(win, win', hb, m, o, HashAt(win, o, hb));
    }
  }

  lemma InTextSlide(win: seq<Byte>, win': seq<Byte>, text: seq<Byte>, base: nat, end: nat)
    requires InText(win, text, base, end) && Slid(win, win') && WSIZE <= end
    ensures InText(win', text, base + WSIZE, end - WSIZE)
  {
    assert win'[..end - WSIZE] == win'[..WSIZE][..end - WSIZE] == win[WSIZE .. WINDOW_SIZE][..end - WSIZE]
             == win[WSIZE..end];
    assert win[WSIZE..end] == win[..end][WSIZE..];
    assert text[base..][WSIZE..] == text[base + WSIZE..];
  }

  lemma InTextExtend(win: seq<Byte>, win': seq<Byte>, text: seq<Byte>, base: nat, end: nat, s: seq<Byte>)
    requires InText(win, text, base, end) && end + |s| <= WINDOW_SIZE && |win'| == |win|
    requires win'[..end] == win[..end] && win'[end .. end + |s|] == s
    ensures InText(win', text + s, base, end + |s|)
  {
    assert win'[..end + |s|] == win'[..end] + win'[end .. end + |s|];
    assert (text + s)[base..] == text[base..] + s;
  }
}
