/** Sending the codes of a dynamic block: `send_tree` and `send_all_trees`. */
module TreeSend {
  import opened Arith
  import opened Bits
  import opened BitWriter
  import opened Canonical
  import opened RunLengths
  import opened Inflate
  import opened BlockCode
  import opened HeaderCode
  import opened TreeScan

  /** The code of symbol `c` is appended to the output. */
  method SendCode(w: Writer, tree: seq<CtData>, c: nat, ghost lens: seq<nat>)
    requires w.Valid() && Sendable(tree, lens, c)
    modifies w, w.outbuf
    ensures w.Valid() && w.Sent() == old(w.Sent()) + Code(lens, c)
  {
    hide w.Sent, Code, LsbBits, Pow2, LsbValue;
    ReversedSends(lens, c);
    w.SendBits(tree[c].fc, tree[c].dl);
  }

  /** A bit length symbol and its extra bits. */
  method SendTok(w: Writer, blTree: array<CtData>, sym: nat, extra: nat, ghost cl: seq<nat>)
    requires w.Valid() && CodesOk(blTree[..], cl) && Coded(cl, sym) && TokOk(Tok(sym, extra)) && ExtraBits(sym) > 0
    modifies w, w.outbuf
    ensures w.Valid() && w.Sent() == old(w.Sent()) + TokBits(cl, Tok(sym, extra))
  {
    hide w.Sent, Code, LsbBits, Pow2, CodesOk;
    ghost var was := w.Sent();
    CodesSendable(blTree[..], cl, sym);
    SendCode(w, blTree[..], sym, cl);
    w.SendBits(extra, ExtraBits(sym));
    Assoc(was, Code(cl, sym), LsbBits(extra, ExtraBits(sym)));
  }

  lemma PlainBits(cl: seq<nat>, sym: nat)
    requires Coded(cl, sym) && sym < 16
    ensures TokBits(cl, Tok(sym, 0)) == Code(cl, sym)
  {
    assert Code(cl, sym) + [] == Code(cl, sym);
  }

  lemma {:induction false} CopiesBits(cl: seq<nat>, sym: nat, k: nat)
    requires Coded(cl, sym) && sym < 16
    ensures var toks := seq(k + 1, _ => Tok(sym, 0)); var rest := seq(k, _ => Tok(sym, 0));
            AllCoded(cl, toks) && AllCoded(cl, rest) && RunBits(cl, toks) == RunBits(cl, rest) + Code(cl, sym)
  {
    var toks, rest := seq(k + 1, _ => Tok(sym, 0)), seq(k, _ => Tok(sym, 0));
    assert toks == rest + [Tok(sym, 0)];
    RunBitsAppend(cl, rest, [Tok(sym, 0)]);
    OneTok(cl, Tok(sym, 0));
    PlainBits(cl, sym);
  }

  lemma OneTok(cl: seq<nat>, t: Tok)
    requires Coded(cl, t.sym)
    ensures AllCoded(cl, [t]) && RunBits(cl, [t]) == TokBits(cl, t)
  {
    hide TokBits, Coded;
    assert [t][1..] == [];
    assert TokBits(cl, t) + [] == TokBits(cl, t);
  }

  lemma TwoToks(cl: seq<nat>, cur: nat, t: Tok)
    requires Coded(cl, cur) && cur < 16 && Coded(cl, t.sym)
    ensures AllCoded(cl, [Tok(cur, 0), t]) && RunBits(cl, [Tok(cur, 0), t]) == Code(cl, cur) + TokBits(cl, t)
  {
    hide TokBits, Coded, RunBits;
    assert [Tok(cur, 0), t] == [Tok(cur, 0)] + [t];
    OneTok(cl, Tok(cur, 0));
    OneTok(cl, t);
    RunBitsAppend(cl, [Tok(cur, 0)], [t]);
    PlainBits(cl, cur);
  }

  method SendCopies(w: Writer, blTree: array<CtData>, cur: nat, count: nat, ghost cl: seq<nat>)
    requires w.Valid() && CodesOk(blTree[..], cl) && cur < 16 && count >= 1 && Coded(cl, cur)
    modifies w, w.outbuf
    ensures AllCoded(cl, seq(count, _ => Tok(cur, 0)))
    ensures w.Valid() && w.Sent() == old(w.Sent()) + RunBits(cl, seq(count, _ => Tok(cur, 0)))
  {
    hide w.Sent, Code, CodesOk, RunBits;
    ghost var was := w.Sent();
    var left := count;
    ghost var k := 0;
    assert AllCoded(cl, seq(0, _ => Tok(cur, 0)))
           && was + RunBits(cl, seq(0, _ => Tok(cur, 0)))
                == was by { NoTok(cl, was); assert seq(0, _ => Tok(cur, 0)) == []; }
    while true
      invariant 1 <= left <= count && k == count - left
      invariant w.Valid() && AllCoded(cl, seq(k, _ => Tok(cur, 0)))
      invariant w.Sent() == was + RunBits(cl, seq(k, _ => Tok(cur, 0)))
      decreases left
    {
      CodesSendable(blTree[..], cl, cur);
      SendCode(w, blTree[..], cur, cl);
      CopiesBits(cl, cur, k);
      Assoc(was, RunBits(cl, seq(k, _ => Tok(cur, 0))), Code(cl, cur));
      left, k := left - 1, k + 1;
      if left == 0 { break; }
    }
  }

  lemma NoTok(cl: seq<nat>, b: Bits)
    ensures AllCoded(cl, []) && b + RunBits(cl, []) == b
  {
  }

  /** The symbols of one run are sent. */
  method SendRun(w: Writer, blTree: array<CtData>, cur: nat, prev: int, count: nat, minCount: nat, ghost cl: seq<nat>)
    requires w.Valid() && CodesOk(blTree[..], cl) && cur < 16
    requires 1 <= count <= MaxCount(prev, cur) && minCount == MinCount(prev, cur)
    requires AllCoded(cl, Flush(cur, prev, count, minCount))
    requires forall t :: t in Flush(cur, prev, count, minCount) ==> TokOk(t)
    modifies w, w.outbuf
    ensures w.Valid() && w.Sent() == old(w.Sent()) + RunBits(cl, Flush(cur, prev, count, minCount))
  {
    hide w.Sent, Code, CodesOk, RunBits, TokBits, TokOk;
    ghost var was, fl := w.Sent(), Flush(cur, prev, count, minCount);
    assert forall t :: t in fl ==> Coded(cl, t.sym);
    if count < minCount {
      assert Tok(cur, 0) == fl[0];
      SendCopies(w, blTree, cur, count, cl);
    } else if cur != 0 {
      var left := count;
      if cur != prev {
        assert Tok(cur, 0) == fl[0] && fl[1] in fl;
        CodesSendable(blTree[..], cl, cur);
        SendCode(w, blTree[..], cur, cl);
        left := left - 1;
      }
      assert Tok(REP_3_6, left - 3) in fl;
      SendTok(w, blTree, REP_3_6, left - 3, cl);
      if cur != prev {
        TwoToks(cl, cur, Tok(REP_3_6, left - 3));
        Assoc(was, Code(cl, cur), TokBits(cl, Tok(REP_3_6, left - 3)));
      } else {
        OneTok(cl, fl[0]);
      }
    } else if count <= 10 {
      OneTok(cl, fl[0]);
      SendTok(w, blTree, REPZ_3_10, count - 3, cl);
    } else {
      OneTok(cl, fl[0]);
      SendTok(w, blTree, REPZ_11_138, count - 11, cl);
    }
  }

  lemma PendingStart(lens: seq<nat>)
    requires lens != [] && forall i :: 0 <= i < |lens| ==> lens[i] <= MAX_BITS
    ensures Pending(lens, 0, -1, 0, MaxCount(-1, lens[0]), MinCount(-1, lens[0]))
  {
  }

  lemma PendingStep(lens: seq<nat>, n: nat, prev: int, count: nat, maxCount: nat, minCount: nat)
    requires Pending(lens, n, prev, count, maxCount, minCount) && n < |lens|
    ensures lens[n] < 16 && count + 1 <= MaxCount(prev, lens[n]) == maxCount && minCount == MinCount(prev, lens[n])
    ensures var cur, next := lens[n], NextLen(lens, n);
            if count + 1 < maxCount && cur == next then Pending(lens, n + 1, prev, count + 1, maxCount, minCount)
            else Pending(lens, n + 1, cur, 0, MaxCount(cur, next), MinCount(cur, next))
  {
  }

  /** The next run to be emitted is made of proper symbols that have codes. */
  lemma NextRun(cl: seq<nat>, lens: seq<nat>, done: seq<Tok>, n: nat, prev: int, count: nat, maxCount: nat,
                minCount: nat)
    requires Emitted(lens, done, n, prev, count, maxCount, minCount) && n < |lens|
    requires !(count + 1 < maxCount && lens[n] == NextLen(lens, n))
    requires AllCoded(cl, Runs(lens)) && forall i :: 0 <= i < |lens| ==> lens[i] <= MAX_BITS
    ensures var f := Flush(lens[n], prev, count + 1, minCount);
            AllCoded(cl, done) && AllCoded(cl, f) && (forall t :: t in f ==> TokOk(t))
            && AllCoded(cl, done + f) && RunBits(cl, done + f) == RunBits(cl, done) + RunBits(cl, f)
  {
    hide Flush, TokOk, Coded, RunBits, Runs;
    RunsDecode([], lens);
    var f := Flush(lens[n], prev, count + 1, minCount);
    EmittedRun(lens, done, n, prev, count, maxCount, minCount);
    var df, all := done + f, Runs(lens);
    assert df <= all && done <= all;
    forall i | 0 <= i < |f| ensures Coded(cl, f[i].sym) && TokOk(f[i]) { assert f[i] == all[|done| + i]; }
    forall i | 0 <= i < |done| ensures Coded(cl, done[i].sym) { assert done[i] == all[i]; }
    RunBitsAppend(cl, done, f);
  }

  /** The lengths of the tree go out in the run-length code. */
  method SendTree(w: Writer, tree: array<CtData>, maxCode: nat, blTree: array<CtData>, ghost lens: seq<nat>,
                  ghost cl: seq<nat>)
    requires w.Valid() && CodesOk(blTree[..], cl)
    requires |lens| == maxCode + 1 && Guarded(tree[..], lens) && forall i :: 0 <= i < |lens| ==> lens[i] <= MAX_BITS
    requires AllCoded(cl, Runs(lens))
    modifies w, w.outbuf
    ensures w.Valid() && w.Sent() == old(w.Sent()) + RunBits(cl, Runs(lens))
  {
    hide w.Sent, CodesOk, AllCoded, Pending, Emitted, Runs, RunBits, Flush, Guarded, TokOk;
    ghost var was, t := w.Sent(), tree[..];
    GuardedNext(t, lens, 0);
    var prev: int, nextLen := -1, tree[0].dl;
    var count, maxCount, minCount := 0, 7, 4;
    if nextLen == 0 {
      maxCount, minCount := 138, 3;
    }
    PendingStart(lens);
    EmittedStart(lens);
    ghost var done: seq<Tok> := [];
    NoTok(cl, was);
    var n := 0;
    while n <= maxCode
      invariant 0 <= n <= maxCode + 1 && tree[..] == t
      invariant nextLen == if n < |lens| then lens[n] else GUARD
      invariant Emitted(lens, done, n, prev, count, maxCount, minCount)
                && Pending(lens, n, prev, count, maxCount, minCount)
      invariant w.Valid() && AllCoded(cl, done) && w.Sent() == was + RunBits(cl, done)
    {
      var cur := nextLen;
      GuardedNext(t, lens, n);
      PendingStep(lens, n, prev, count, maxCount, minCount);
      nextLen := tree[n + 1].dl;
      count := count + 1;
      if count < maxCount && cur == nextLen {
        EmittedSkip(lens, done, n, prev, count - 1, maxCount, minCount);
      } else {
        NextRun(cl, lens, done, n, prev, count - 1, maxCount, minCount);
        EmittedRun(lens, done, n, prev, count - 1, maxCount, minCount);
        ghost var f := Flush(cur, prev, count, minCount);
        SendRun(w, blTree, cur, prev, count, minCount, cl);
        Assoc(was, RunBits(cl, done), RunBits(cl, f));
        done := done + f;
        count, prev := 0, cur;
        if nextLen == 0 {
          maxCount, minCount := 138, 3;
        } else if cur == nextLen {
          maxCount, minCount := 6, 3;
        } else {
          maxCount, minCount := 7, 4;
        }
      }
      n := n + 1;
    }
    EmittedAll(lens, done, prev, count, maxCount, minCount);
  }

  /** The lengths of the bit length codes, in their order. */
  method SendOrdered(w: Writer, blTree: array<CtData>, blcodes: nat, ghost cl: seq<nat>)
    requires w.Valid() && CodesOk(blTree[..], cl) && |cl| == BL_CODES && blcodes <= |BL_ORDER|
    requires forall i :: 0 <= i < BL_CODES ==> cl[i] < 8
    modifies w, w.outbuf
    ensures w.Valid() && w.Sent() == old(w.Sent()) + OrderedBits(cl, 0, blcodes)
  {
    hide w.Sent, LsbBits, Pow2, Ranked, Reversed;
    ghost var was := w.Sent();
    Pow2Consts();
    OrderedNone(cl, was);
    var rank := 0;
    while rank < blcodes
      invariant 0 <= rank <= blcodes
      invariant w.Valid() && w.Sent() == was + OrderedBits(cl, 0, rank)
    {
      var s := Ranked(rank);
      assert blTree[..][s].dl == cl[s];
      OrderedLast(cl, 0, rank);
      w.SendBits(blTree[s].dl, 3);
      Assoc(was, OrderedBits(cl, 0, rank), LsbBits(cl[s], 3));
      rank := rank + 1;
    }
  }

  lemma OrderedNone(cl: seq<nat>, b: Bits)
    requires |cl| == BL_CODES
    ensures b + OrderedBits(cl, 0, 0) == b
  {
  }

  lemma {:induction false} OrderedLast(cl: seq<nat>, k: nat, n: nat)
    requires k <= n < |BL_ORDER| && |cl| == BL_CODES
    ensures OrderedBits(cl, k, n + 1) == OrderedBits(cl, k, n) + LsbBits(cl[Ranked(n)], 3)
    decreases n - k
  {
    hide LsbBits, Ranked;
    if k < n {
      OrderedLast(cl, k + 1, n);
      Assoc(LsbBits(cl[Ranked(k)], 3), OrderedBits(cl, k + 1, n), LsbBits(cl[Ranked(n)], 3));
    } else {
      assert OrderedBits(cl, n + 1, n + 1) == [];
    }
  }

  /** The whole header of a dynamic block. */
  method SendAllTrees(w: Writer, ltree: array<CtData>, dtree: array<CtData>, blTree: array<CtData>,
                      lcodes: nat, dcodes: nat, blcodes: nat, ghost cl: seq<nat>, ghost ll: seq<nat>,
                        ghost dl: seq<nat>)
    requires w.Valid() && CodesOk(blTree[..], cl) && HeaderOk(cl, ll, dl, blcodes)
    requires |ll| == lcodes && |dl| == dcodes && Guarded(ltree[..], ll) && Guarded(dtree[..], dl)
    modifies w, w.outbuf
    ensures w.Valid() && w.Sent() == old(w.Sent()) + HeaderBits(cl, ll, dl, blcodes)
  {
    hide w.Sent, LsbBits, Pow2, CodesOk, AllCoded, Guarded, OrderedBits, RunBits, Runs, Fill, BlCount;
    Pow2Consts();
    ghost var was := w.Sent();
    w.SendBits(lcodes - 257, 5);
    w.SendBits(dcodes - 1, 5);
    w.SendBits(blcodes - 4, 4);
    SendOrdered(w, blTree, blcodes, cl);
    SendTree(w, ltree, lcodes - 1, blTree, ll, cl);
    SendTree(w, dtree, dcodes - 1, blTree, dl, cl);
    HeaderGroups(was, LsbBits(lcodes - 257, 5), LsbBits(dcodes - 1, 5), LsbBits(blcodes - 4, 4),
                 OrderedBits(cl, 0, blcodes), RunBits(cl, Runs(ll)), RunBits(cl, Runs(dl)));
  }

  lemma HeaderGroups(was: Bits, a: Bits, b: Bits, c: Bits, d: Bits, e: Bits, f: Bits)
    ensures was + a + b + c + d + e + f == was + (a + b + c + d + (e + f))
  {
    Assoc(was, a, b);
    Assoc(was, a + b, c);
    Assoc(was, a + b + c, d);
    Assoc(was + (a + b + c + d), e, f);
    Assoc(was, a + b + c + d, e + f);
  }
}
