/** The match finder's state (`G1`): the window over the input, and its hash chains. */
module Matcher {
  import opened Arith
  import opened Hash
  import opened Input
  import opened Longest
  import opened Symbols
  import opened Window

  /** `file_read`: at most `size` bytes, and none only at the end. */
  method FileRead(chunks: seq<seq<Byte>>, size: nat) returns (s: seq<Byte>, rest: seq<seq<Byte>>)
    requires size >= 1
    ensures |s| <= size && s + Remaining(rest) == Remaining(chunks)
    ensures s == [] ==> Remaining(chunks) == []
  {
    s, rest := SafeRead(chunks, size);
  }

  class Matcher {
    const window: array<Byte>
    const head: array<nat>
    const prev: array<nat>
    const hashBits: nat
    const effort: Effort
    const maxLazy: nat
    var chunks: seq<seq<Byte>>
    var strstart: nat
    var matchStart: int
    var lookahead: nat
    var insH: nat
    var blockStart: int
    var eofile: bool
    /** A 32-bit counter. */
    var isize: nat
    /** What was read so far, and where in it the window starts. */
    ghost var text: seq<Byte>
    ghost var base: nat

    ghost predicate Sizes() {
      && window.Length == WINDOW_BYTES && HashBits(hashBits) && head.Length == Pow2(hashBits) && prev.Length == WSIZE
         && head != prev
    }

    /** The window shows the input, and the chains hold the positions before `strstart`. */
    ghost predicate Valid()
      reads this`strstart, this`lookahead, this`isize, this`text, this`base, this`eofile, this`chunks, window, head,
              prev
    {
      && Sizes()
      && InText(window[..], text, base, strstart + lookahead)
      && Chains(window[..], head[..], prev[..], hashBits, strstart)
      && isize == |text| % TWO32
      && (eofile ==> Remaining(chunks) == [] && strstart + lookahead + 2 <= WINDOW_SIZE)
    }

    /** The hash is ready for the string at `p`. */
    ghost predicate Rolled(p: nat)
      reads this`insH, window
    {
      p + 1 < window.Length && Rolling(insH, window[p], window[p + 1], hashBits)
    }

    /** As `Valid`, with the string at `strstart` in its chain already. */
    ghost predicate Midway()
      reads this`strstart, this`lookahead, this`insH, this`isize, this`text, this`base, this`eofile, this`chunks,
              window, head, prev
    {
      && Sizes() && lookahead >= 1
      && InText(window[..], text, base, strstart + lookahead)
      && Chains(window[..], head[..], prev[..], hashBits, strstart + 1) && Rolled(strstart + 1)
      && isize == |text| % TWO32
      && (eofile ==> Remaining(chunks) == [] && strstart + lookahead + 2 <= WINDOW_SIZE)
    }

    constructor (input: seq<seq<Byte>>, bits: nat, e: Effort, lazy: nat)
      requires HashBits(bits)
      ensures Sizes() && fresh(window) && fresh(head) && fresh(prev)
      ensures isize == 0 && chunks == input && hashBits == bits && effort == e && maxLazy == lazy
    {
      window := new Byte[WINDOW_BYTES](_ => 0);
      head, prev := new nat[Pow2(bits)](_ => 0), new nat[WSIZE](_ => 0);
      hashBits, effort, maxLazy, chunks := bits, e, lazy, input;
      strstart, matchStart, lookahead, insH, blockStart, eofile, isize := 0, 0, 0, 0, 0, false, 0;
      text, base := [], 0;
    }

    /** `INSERT_STRING`: the string at `s` joins its chain; the former head of the chain is an
        earlier position with the same hash, if there is one. */
    method InsertString(s: nat) returns (matchHead: nat)
      requires Sizes() && s < WINDOW_SIZE && Chains(window[..], head[..], prev[..], hashBits, s) && Rolled(s)
      modifies this`insH, head, prev
      ensures Chains(window[..], head[..], prev[..], hashBits, s + 1) && Rolled(s + 1)
      ensures matchHead == prev[s % WSIZE]
      ensures matchHead == 0
              || (matchHead < s && HashAt(window[..], matchHead, hashBits) == HashAt(window[..], s, hashBits))
    {
      hide Update, Chains, Rolling;
      ghost var win := window[..];
      RollingStep(insH, win[s], win[s + 1], win[s + 2], hashBits);
      insH := Update(insH, window[s + MIN_MATCH - 1], hashBits);
      assert insH == HashAt(win, s, hashBits);
      ChainsInsert(win, head[..], prev[..], hashBits, s);
      HeadFacts(win, head[..], prev[..], hashBits, s, insH);
      matchHead := head[insH];
      prev[s % WSIZE] := matchHead;
      head[insH] := s;
    }

    /** All the strings of a match but the first two join their chains. */
    method InsertRest(n: nat)
      requires Sizes() && 1 <= n && strstart + n < WINDOW_SIZE
      requires Chains(window[..], head[..], prev[..], hashBits, strstart + 1) && Rolled(strstart + 1)
      modifies this`insH, this`strstart, head, prev
      ensures strstart == old(strstart) + n
      ensures Chains(window[..], head[..], prev[..], hashBits, strstart + 1) && Rolled(strstart + 1)
    {
      hide Chains, Rolling;
      ghost var s := strstart;
      var left := n;
      while true
        invariant 1 <= left <= n && strstart == s + (n - left)
        invariant Chains(window[..], head[..], prev[..], hashBits, strstart + 1) && Rolled(strstart + 1)
        decreases left
      {
        strstart := strstart + 1;
        var _ := InsertString(strstart);
        left := left - 1;
        if left == 0 { break; }
      }
    }

    /** The window moves by half its size, and everything that counts positions with it. */
    method Slide()
      requires Valid() && strstart >= WSIZE + MAX_DIST && lookahead >= 2
      modifies this`strstart, this`matchStart, this`blockStart, this`base, window, head, prev
      ensures Valid() && base == old(base) + WSIZE && strstart == old(strstart) - WSIZE
      ensures matchStart == old(matchStart) - WSIZE && blockStart == old(blockStart) - WSIZE
      ensures old(Rolled(strstart)) ==> Rolled(strstart)
    {
      hide InText, Chains, Rolling;
      ghost var win, h, p, end := window[..], head[..], prev[..], strstart + lookahead;
      InTextEnd(win, text, base, end);
      forall i | 0 <= i < WSIZE { window[i] := window[i + WSIZE]; }
      assert window[..WSIZE] == win[WSIZE .. WINDOW_SIZE] && window[WSIZE..] == win[WSIZE..];
      ShiftDown(head);
      ShiftDown(prev);
      ChainsSlide(win, window[..], h, head[..], p, prev[..], hashBits, strstart);
      InTextSlide(win, window[..], text, base, end);
      matchStart, strstart, blockStart := matchStart - WSIZE, strstart - WSIZE, blockStart - WSIZE;
      base := base + WSIZE;
      assert window[strstart] == win[strstart + WSIZE] && window[strstart + 1] == win[strstart + 1 + WSIZE];
    }

    /** The bytes `s` go behind what the window shows. */
    method Append(s: seq<Byte>)
      requires Sizes() && InText(window[..], text, base, strstart + lookahead)
               && strstart + lookahead + |s| <= WINDOW_SIZE
      requires Chains(window[..], head[..], prev[..], hashBits, strstart) && (strstart == 0 || lookahead >= 2)
      modifies this`lookahead, this`text, window
      ensures InText(window[..], text, base, strstart + lookahead)
              && Chains(window[..], head[..], prev[..], hashBits, strstart)
      ensures text == old(text) + s && lookahead == old(lookahead) + |s|
      ensures old(lookahead) >= 2 && old(Rolled(strstart)) ==> Rolled(strstart)
    {
      hide InText, Chains, Rolling;
      ghost var win, end := window[..], strstart + lookahead;
      InTextEnd(win, text, base, end);
      StoreBytes(window, strstart + lookahead, s);
      ChainsExtend(win, window[..], head[..], prev[..], hashBits, strstart, end);
      InTextExtend(win, window[..], text, base, end, s);
      if lookahead >= 2 {
        assert window[..][..end][strstart] == win[..end][strstart]
               && window[..][..end][strstart + 1] == win[..end][strstart + 1];
      }
      text, lookahead := text + s, lookahead + |s|;
    }

    /** More input goes behind what the window shows. */
    method ReadMore(more: nat)
      requires Valid() && !eofile && more >= 2 && strstart + lookahead + more == WINDOW_SIZE
               && (strstart == 0 || lookahead >= 2)
      modifies this`chunks, this`lookahead, this`eofile, this`isize, this`text, window
      ensures Valid() && text + Remaining(chunks) == old(text) + old(Remaining(chunks))
      ensures eofile ==> lookahead == old(lookahead)
      ensures !eofile ==> lookahead > old(lookahead)
      ensures |Remaining(chunks)| + lookahead == old(|Remaining(chunks)| + lookahead)
      ensures old(text) <= text
      ensures old(lookahead) >= 2 && old(Rolled(strstart)) ==> Rolled(strstart)
    {
      hide InText, Chains, Rolling, Remaining;
      var s;
      s, chunks := FileRead(chunks, more);
      Joined(text, s, Remaining(chunks));
      if s == [] {
        eofile := true;
      } else {
        SizeWraps(|text|, |s|);
        Append(s);
        isize := (isize + |s|) % TWO32;
      }
    }

    /** `fill_window`: makes room if necessary and reads on. Positions keep their place in the text. */
    method FillWindow()
      requires Valid() && !eofile && lookahead < MIN_LOOKAHEAD && (strstart == 0 || lookahead >= 2)
      modifies this`chunks, this`lookahead, this`eofile, this`isize, this`text, this`strstart, this`matchStart,
                 this`blockStart, this`base, window, head, prev
      ensures Valid() && text + Remaining(chunks) == old(text) + old(Remaining(chunks)) && old(text) <= text
      ensures base + strstart == old(base + strstart) && base + matchStart == old(base + matchStart)
              && base + blockStart == old(base + blockStart)
      ensures strstart <= old(strstart) && (strstart < old(strstart) ==> strstart >= MAX_DIST)
      ensures lookahead >= old(lookahead) && (eofile || lookahead > old(lookahead))
      ensures |Remaining(chunks)| + lookahead == old(|Remaining(chunks)| + lookahead)
      ensures old(lookahead) >= 2 && old(Rolled(strstart)) ==> Rolled(strstart)
    {
      hide InText, Chains, Rolling;
      InTextEnd(window[..], text, base, strstart + lookahead);
      var more := WINDOW_SIZE - lookahead - strstart;
      if strstart >= WSIZE + MAX_DIST {
        Slide();
        more := more + WSIZE;
      }
      ReadMore(more);
    }
  }

  lemma SizeWraps(a: nat, b: nat)
    ensures (a % TWO32 + b) % TWO32 == (a + b) % TWO32
  {
  }

  lemma Joined(a: seq<Byte>, b: seq<Byte>, c: seq<Byte>)
    ensures a + (b + c) == a + b + c
  {
  }

  method StoreBytes(a: array<Byte>, at: nat, s: seq<Byte>)
    requires at + |s| <= a.Length
    modifies a
    ensures a[..][..at] == old(a[..])[..at] && a[..][at .. at + |s|] == s
  {
    var i := 0;
    while i < |s|
      invariant 0 <= i <= |s| && a[..at] == old(a[..at]) && a[at .. at + i] == s[..i]
    {
      a[at + i] := s[i];
      i := i + 1;
    }
    assert s[..i] == s;
  }

  lemma InTextEnd(win: seq<Byte>, text: seq<Byte>, base: nat, end: nat)
    requires InText(win, text, base, end)
    ensures end <= WINDOW_SIZE && |win| == WINDOW_BYTES
  {
  }

  lemma HeadFacts(win: seq<Byte>, head: seq<nat>, prev: seq<nat>, hb: nat, ins: nat, h: nat)
    requires Chains(win, head, prev, hb, ins) && h < Pow2(hb)
    ensures h < |head|
            && (head[h] == 0
                || (head[h] < ins <= WINDOW_SIZE && |win| == WINDOW_BYTES && HashAt(win, head[h], hb) == h))
  {
    hide HashAt, Pow2;
    assert HeadOk(win, head, hb, ins, h);
  }

  /** Positions below the new start of the window become "none". */
  method ShiftDown(a: array<nat>)
    modifies a
    ensures AllDown(old(a[..]), a[..])
  {
    var n := 0;
    while n < a.Length
      invariant 0 <= n <= a.Length
      invariant forall i :: 0 <= i < n ==> a[i] == Down(old(a[i]))
      invariant forall i :: n <= i < a.Length ==> a[i] == old(a[i])
    {
      var m := a[n];
      a[n] := if m >= WSIZE then m - WSIZE else 0;
      n := n + 1;
    }
  }
}
