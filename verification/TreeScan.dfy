/** `scan_tree`: counting the symbols that `send_tree` will send. */
module TreeScan {
  import opened Canonical
  import opened HuffInit
  import opened RunLengths
  import opened Tallies

  function Syms(toks: seq<Tok>): (r: seq<nat>)
    ensures |r| == |toks| && forall i :: 0 <= i < |r| ==> r[i] == toks[i].sym
  {
    seq(|toks|, i requires 0 <= i < |toks| => toks[i].sym)
  }

  lemma SymsAppend(a: seq<Tok>, b: seq<Tok>)
    ensures Syms(a + b) == Syms(a) + Syms(b)
  {
  }

  /** The bit length tree holds the frequencies of `syms`. */
  ghost predicate Counted(t: seq<CtData>, syms: seq<nat>) {
    BL_CODES <= |t| && Below(syms, BL_CODES) && Freqs(t, BL_CODES) == Tally(syms, BL_CODES)
  }

  lemma CountOneMore(t: seq<CtData>, syms: seq<nat>, s: nat)
    requires Counted(t, syms) && s < BL_CODES
    ensures Counted(t[s := t[s].(fc := t[s].fc + 1)], syms + [s])
  {
    TallyOne(syms, s, BL_CODES);
  }

  lemma CountMore(t: seq<CtData>, syms: seq<nat>, s: nat, k: nat)
    requires Counted(t, syms) && s < BL_CODES
    ensures Counted(t[s := t[s].(fc := t[s].fc + k)], syms + seq(k, _ => s))
  {
    TallyCopies(syms, s, k, BL_CODES);
  }

  method Bump(blTree: array<CtData>, s: nat, ghost syms: seq<nat>)
    requires s < BL_CODES && Counted(blTree[..], syms)
    modifies blTree
    ensures Counted(blTree[..], syms + [s])
  {
    CountOneMore(blTree[..], syms, s);
    blTree[s] := blTree[s].(fc := blTree[s].fc + 1);
  }

  /** Counting the symbols of one run. */
  method ScanRun(blTree: array<CtData>, cur: nat, prev: int, count: nat, minCount: nat, ghost syms: seq<nat>)
    requires cur < 16 && Counted(blTree[..], syms)
    modifies blTree
    ensures Counted(blTree[..], syms + Syms(Flush(cur, prev, count, minCount)))
  {
    hide Counted;
    ghost var fl := Flush(cur, prev, count, minCount);
    if count < minCount {
      CountedRoom(blTree[..], syms);
      CountMore(blTree[..], syms, cur, count);
      blTree[cur] := blTree[cur].(fc := blTree[cur].fc + count);
      assert Syms(fl) == seq(count, _ => cur);
    } else if cur != 0 {
      if cur != prev {
        Bump(blTree, cur, syms);
        Bump(blTree, REP_3_6, syms + [cur]);
        assert syms + [cur] + [REP_3_6] == syms + Syms(fl);
      } else {
        Bump(blTree, REP_3_6, syms);
        assert [REP_3_6] == Syms(fl);
      }
    } else if count <= 10 {
      Bump(blTree, REPZ_3_10, syms);
      assert [REPZ_3_10] == Syms(fl);
    } else {
      Bump(blTree, REPZ_11_138, syms);
      assert [REPZ_11_138] == Syms(fl);
    }
  }

  lemma CountedRoom(t: seq<CtData>, syms: seq<nat>)
    requires Counted(t, syms)
    ensures BL_CODES <= |t|
  {
  }

  /** What is still to come once the symbols `done` have been emitted. */
  ghost predicate Emitted(lens: seq<nat>, done: seq<Tok>, n: nat, prev: int, count: nat, maxCount: nat, minCount: nat) {
    n <= |lens| && done + RunsFrom(lens, n, prev, count, maxCount, minCount) == Runs(lens)
  }

  lemma EmittedSkip(lens: seq<nat>, done: seq<Tok>, n: nat, prev: int, count: nat, maxCount: nat, minCount: nat)
    requires Emitted(lens, done, n, prev, count, maxCount, minCount) && n < |lens|
    requires count + 1 < maxCount && lens[n] == NextLen(lens, n)
    ensures Emitted(lens, done, n + 1, prev, count + 1, maxCount, minCount)
  {
  }

  lemma EmittedRun(lens: seq<nat>, done: seq<Tok>, n: nat, prev: int, count: nat, maxCount: nat, minCount: nat)
    requires Emitted(lens, done, n, prev, count, maxCount, minCount) && n < |lens|
    requires !(count + 1 < maxCount && lens[n] == NextLen(lens, n))
    ensures var cur, next := lens[n], NextLen(lens, n);
            Emitted(lens, done + Flush(cur, prev, count + 1, minCount), n + 1, cur, 0, MaxCount(cur, next),
                    MinCount(cur, next))
  {
    var cur, next := lens[n], NextLen(lens, n);
    var f, rest := Flush(cur, prev, count + 1, minCount),
      RunsFrom(lens, n + 1, cur, 0, MaxCount(cur, next), MinCount(cur, next));
    assert done + (f + rest) == done + f + rest;
  }

  lemma EmittedStart(lens: seq<nat>)
    requires lens != []
    ensures Emitted(lens, [], 0, -1, 0, MaxCount(-1, lens[0]), MinCount(-1, lens[0]))
  {
    assert [] + Runs(lens) == Runs(lens);
  }

  lemma EmittedAll(lens: seq<nat>, done: seq<Tok>, prev: int, count: nat, maxCount: nat, minCount: nat)
    requires Emitted(lens, done, |lens|, prev, count, maxCount, minCount)
    ensures done == Runs(lens)
  {
    assert done + [] == done;
  }

  /** The lengths in a tree, with the guard after them. */
  ghost predicate Guarded(t: seq<CtData>, lens: seq<nat>) {
    |lens| < |t| && (forall i :: 0 <= i < |lens| ==> t[i].dl == lens[i]) && t[|lens|].dl == GUARD
  }

  lemma GuardedNext(t: seq<CtData>, lens: seq<nat>, n: nat)
    requires Guarded(t, lens) && n < |lens|
    ensures n + 1 < |t| && t[n + 1].dl == NextLen(lens, n) && t[n].dl == lens[n]
  {
  }

  /** The frequencies counted are those of the symbols for the lengths of the tree. */
  method ScanTree(tree: array<CtData>, maxCode: nat, blTree: array<CtData>, ghost lens: seq<nat>, ghost syms: seq<nat>)
    requires tree != blTree && maxCode + 1 < tree.Length && |lens| == maxCode + 1
    requires forall i :: 0 <= i < |lens| ==> tree[i].dl == lens[i] < 16
    requires Counted(blTree[..], syms)
    modifies tree, blTree
    ensures Counted(blTree[..], syms + Syms(Runs(lens)))
    ensures Guarded(tree[..], lens)
    ensures tree[..] == old(tree[..])[maxCode + 1 := CtData(old(tree[maxCode + 1].fc), GUARD)]
  {
    hide Counted, Emitted, Runs, Flush, Guarded;
    var prev: int, nextLen := -1, tree[0].dl;
    var count, maxCount, minCount := 0, 7, 4;
    if nextLen == 0 {
      maxCount, minCount := 138, 3;
    }
    tree[maxCode + 1] := tree[maxCode + 1].(dl := GUARD);
    ghost var t := tree[..];
    assert Guarded(t, lens) by { GuardedIntro(t, lens); }
    EmittedStart(lens);
    ghost var done: seq<Tok> := [];
    assert syms + Syms(done) == syms;
    var n := 0;
    while n <= maxCode
      invariant 0 <= n <= maxCode + 1 && tree[..] == t
      invariant nextLen == if n < |lens| then lens[n] else GUARD
      invariant Emitted(lens, done, n, prev, count, maxCount, minCount)
      invariant Counted(blTree[..], syms + Syms(done))
    {
      var cur := nextLen;
      GuardedNext(t, lens, n);
      nextLen := tree[n + 1].dl;
      count := count + 1;
      if count < maxCount && cur == nextLen {
        EmittedSkip(lens, done, n, prev, count - 1, maxCount, minCount);
      } else {
        EmittedRun(lens, done, n, prev, count - 1, maxCount, minCount);
        ScanRun(blTree, cur, prev, count, minCount, syms + Syms(done));
        ghost var f := Flush(cur, prev, count, minCount);
        SymsAppend(done, f);
        assert syms + Syms(done) + Syms(f) == syms + Syms(done + f);
        done := done + f;
        count, prev, maxCount, minCount := 0, cur, 7, 4;
        if nextLen == 0 {
          maxCount, minCount := 138, 3;
        } else if cur == nextLen {
          maxCount, minCount := 6, 3;
        }
      }
      n := n + 1;
    }
    EmittedAll(lens, done, prev, count, maxCount, minCount);
  }

  lemma GuardedIntro(t: seq<CtData>, lens: seq<nat>)
    requires |lens| < |t| && (forall i :: 0 <= i < |lens| ==> t[i].dl == lens[i]) && t[|lens|].dl == GUARD
    ensures Guarded(t, lens)
  {
  }
}
