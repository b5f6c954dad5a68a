/** `longest_match`: the search along a hash chain. */
module Longest {
  import opened Arith
  import opened Hash
  import opened Symbols
  import opened Window

  /** The `n` bytes at `a` and at `b` are the same. */
  ghost predicate Same(win: seq<Byte>, a: nat, b: nat, n: nat) {
    a + n <= |win| && b + n <= |win| && win[a .. a + n] == win[b .. b + n]
  }

  lemma SameStep(win: seq<Byte>, a: nat, b: nat, n: nat)
    requires Same(win, a, b, n) && a + n < |win| && b + n < |win|
    ensures win[a + n] == win[b + n] <==> Same(win, a, b, n + 1)
  {
    assert win[a .. a + n + 1] == win[a .. a + n] + [win[a + n]];
    assert win[b .. b + n + 1] == win[b .. b + n] + [win[b + n]];
  }

  lemma SameLess(win: seq<Byte>, a: nat, b: nat, n: nat, m: nat)
    requires Same(win, a, b, n) && m <= n
    ensures Same(win, a, b, m)
  {
    assert win[a .. a + m] == win[a .. a + n][..m];
    assert win[b .. b + m] == win[b .. b + n][..m];
  }

  lemma SameAt(win: seq<Byte>, a: nat, b: nat, n: nat, i: nat)
    requires Same(win, a, b, n) && i < n
    ensures win[a + i] == win[b + i]
  {
    assert win[a .. a + n][i] == win[a + i] && win[b .. b + n][i] == win[b + i];
  }

  /** A position the search may look at: near enough behind `s`, and of the same hash. */
  ghost predicate Candidate(win: seq<Byte>, hb: nat, s: nat, v: nat) {
    && |win| == WINDOW_BYTES && 1 <= v < s < WINDOW_SIZE && s - v <= MAX_DIST
    && HashAt(win, v, hb) == HashAt(win, s, hb)
  }

  /** Two equal bytes and equal hashes make three equal bytes. */
  lemma ThreeSame(win: seq<Byte>, hb: nat, s: nat, v: nat)
    requires Candidate(win, hb, s, v) && HashBits(hb) && win[v] == win[s] && win[v + 1] == win[s + 1]
    ensures Same(win, v, s, 3)
  {
    hide Hash3;
    ThirdByte(win[s], win[s + 1], win[v + 2], win[s + 2], hb);
    assert win[v .. v + 3] == [win[v], win[v + 1], win[v + 2]];
    assert win[s .. s + 3] == [win[s], win[s + 1], win[s + 2]];
  }

  /** The comparison loop: eight bytes at a time from the third on, and the end of the
      longest match looked at only between them. */
  method MatchLength(window: array<Byte>, scan: nat, match_: nat) returns (len: nat)
    requires window.Length == WINDOW_BYTES && match_ < scan < WINDOW_SIZE && Same(window[..], match_, scan, 3)
    ensures MIN_MATCH <= len <= MAX_MATCH && Same(window[..], match_, scan, len)
    ensures len < MAX_MATCH ==> !Same(window[..], match_, scan, len + 1)
  {
    hide Same;
    ghost var win := window[..];
    len := 2;
    while true
      invariant 2 <= len < MAX_MATCH && (len - 2) % 8 == 0 && Same(win, match_, scan, len + 1)
      decreases MAX_MATCH - len
    {
      ghost var first := len;
      var k := 0;
      while k < 8
        invariant 0 <= k <= 8 && len == first + k <= MAX_MATCH && Same(win, match_, scan, len + 1)
      {
        len, k := len + 1, k + 1;
        SameStep(win, match_, scan, len);
        if window[scan + len] != window[match_ + len] {
          return;
        }
      }
      if len >= MAX_MATCH { break; }
    }
    SameLess(win, match_, scan, MAX_MATCH + 1, MAX_MATCH);
  }

  /** How the search may be cut short (`max_chain_length`, `good_match`, `nice_match`). */
  datatype Effort = Effort(maxChain: nat, goodMatch: nat, niceMatch: nat)

  /** The best match so far at `s`: none better than `least`, or a true one at `ms`. */
  ghost predicate Best(win: seq<Byte>, s: nat, least: nat, best: nat, ms: int, was: int) {
    && least <= best <= MAX_MATCH
    && (best == least ==> ms == was)
    && (best > least ==> MIN_MATCH <= best && 0 < ms < s && s - ms <= MAX_DIST && Same(win, ms, s, best))
  }

  /** A candidate that fails one of the first comparisons agrees on no more than `best` bytes. */
  lemma Rejected(win: seq<Byte>, s: nat, v: nat, best: nat)
    requires |win| == WINDOW_BYTES && v < s < WINDOW_SIZE && 2 <= best <= MAX_MATCH
    requires win[v + best] != win[s + best] || win[v + best - 1] != win[s + best - 1] || win[v] != win[s]
             || win[v + 1] != win[s + 1]
    ensures !Same(win, v, s, best + 1)
  {
    hide Same;
    if Same(win, v, s, best + 1) {
      SameAt(win, v, s, best + 1, best);
      SameAt(win, v, s, best + 1, best - 1);
      SameAt(win, v, s, best + 1, 0);
      SameAt(win, v, s, best + 1, 1);
    }
  }

  /** No position visited agrees with `s` on more than `best` bytes. */
  ghost predicate NoneBetter(win: seq<Byte>, s: nat, visited: seq<nat>, best: nat) {
    best < MAX_MATCH ==> forall i :: 0 <= i < |visited| ==> !Same(win, visited[i], s, best + 1)
  }

  lemma NoneBetterStep(win: seq<Byte>, s: nat, visited: seq<nat>, best: nat, v: nat, best': nat)
    requires NoneBetter(win, s, visited, best) && best <= best' && (best' < MAX_MATCH ==> !Same(win, v, s, best' + 1))
    ensures NoneBetter(win, s, visited + [v], best')
  {
    hide Same;
    if best' < MAX_MATCH {
      forall i | 0 <= i <= |visited| ensures !Same(win, (visited + [v])[i], s, best' + 1) {
        if i < |visited| && Same(win, visited[i], s, best' + 1) { SameLess(win, visited[i], s, best' + 1, best + 1); }
      }
    }
  }

  /** One position of the chain: is it a longer match? */
  method TryCandidate(window: array<Byte>, s: nat, cur: nat, best: nat, ghost hb: nat) returns (len: nat)
    requires window.Length == WINDOW_BYTES && HashBits(hb) && Candidate(window[..], hb, s, cur)
             && 2 <= best <= MAX_MATCH
    ensures len >= best && (len > best ==> MIN_MATCH <= len <= MAX_MATCH && Same(window[..], cur, s, len))
    ensures len < MAX_MATCH ==> !Same(window[..], cur, s, len + 1)
  {
    hide Same, HashAt;
    if window[cur + best] != window[s + best] || window[cur + best - 1] != window[s + best - 1]
       || window[cur] != window[s] || window[cur + 1] != window[s + 1] {
      Rejected(window[..], s, cur, best);
      return best;
    }
    ThreeSame(window[..], hb, s, cur);
    len := MatchLength(window, s, cur);
    if len <= best {
      if best < MAX_MATCH && Same(window[..], cur, s, best + 1) { SameLess(window[..], cur, s, best + 1, len + 1); }
      len := best;
    }
  }

  /** The link of a candidate leads to a candidate, to none, or too far back. */
  lemma NextCandidate(win: seq<Byte>, head: seq<nat>, prev: seq<nat>, hb: nat, s: nat, cur: nat)
    requires Chains(win, head, prev, hb, s + 1) && Candidate(win, hb, s, cur)
    ensures var q := prev[cur % WSIZE]; q == 0 || (q < cur && (s - q <= MAX_DIST ==> Candidate(win, hb, s, q)))
  {
    hide HashAt, Pow2;
    assert LinkOk(win, prev, hb, cur);
  }

  // ----- the walk -----

  /** Positions up to this one are too far back, or none. */
  function Limit(s: nat): (r: nat) { if s > MAX_DIST then s - MAX_DIST else 0 }

  /** How many positions are looked at at most: the count is unsigned, and zero is counted down from 2^32. */
  function Budget(e: Effort, prevLength: nat): (n: nat)
    ensures n >= 1
  {
    var c := if prevLength >= e.goodMatch then e.maxChain % TWO32 / 4 else e.maxChain % TWO32;
    if c == 0 then TWO32 else c
  }

  /** The positions visited are the links of the chain from its head on, in order. */
  ghost predicate Follows(prev: seq<nat>, hashHead: nat, visited: seq<nat>) {
    && |prev| == WSIZE && visited != [] && visited[0] == hashHead
    && forall i :: 1 <= i < |visited| ==> visited[i] == prev[visited[i - 1] % WSIZE]
  }

  /** The link behind the last position leads too far back, or nowhere. */
  ghost predicate AtEnd(prev: seq<nat>, s: nat, visited: seq<nat>)
    requires |prev| == WSIZE && visited != []
  {
    prev[visited[|visited| - 1] % WSIZE] <= Limit(s)
  }

  /** The search has been cut short: as many positions as allowed, or a match that is good enough. */
  predicate Spent(e: Effort, prevLength: nat, best: nat, count: nat) {
    count == Budget(e, prevLength) || (best > prevLength && best >= e.niceMatch)
  }

  /** The positions visited come down to `cur`, each within reach. */
  ghost predicate Descends(win: seq<Byte>, hb: nat, s: nat, visited: seq<nat>, top: nat, cur: nat) {
    && (forall i :: 0 <= i < |visited| ==> Candidate(win, hb, s, visited[i]) && cur < visited[i])
    && (forall i, j :: 0 <= i < j < |visited| ==> visited[j] < visited[i]) && cur + |visited| <= top
    && (forall i :: 1 <= i < |visited| ==> Limit(s) < visited[i])
  }

  lemma DescendsStep(win: seq<Byte>, hb: nat, s: nat, visited: seq<nat>, top: nat, cur: nat, next: nat)
    requires Descends(win, hb, s, visited, top, cur) && Candidate(win, hb, s, cur) && next < cur
    requires visited == [] || Limit(s) < cur
    ensures Descends(win, hb, s, visited + [cur], top, next)
  {
    hide HashAt;
    var all := visited + [cur];
    forall i | 0 <= i < |all| ensures Candidate(win, hb, s, all[i]) && next < all[i] {
      assert i < |visited| ==> all[i] == visited[i];
    }
  }

  lemma FollowsStep(prev: seq<nat>, hashHead: nat, visited: seq<nat>, cur: nat)
    requires |prev| == WSIZE
    requires if visited == [] then cur == hashHead
             else Follows(prev, hashHead, visited) && cur == prev[visited[|visited| - 1] % WSIZE]
    ensures Follows(prev, hashHead, visited + [cur])
  {
  }

  /** Of the longest matches the nearest is kept. */
  ghost predicate Nearest(win: seq<Byte>, s: nat, visited: seq<nat>, least: nat, best: nat, ms: int) {
    best > least ==>
      ms in visited && forall i :: 0 <= i < |visited| && visited[i] > ms ==> !Same(win, visited[i], s, best)
  }

  lemma NearestStep(win: seq<Byte>, s: nat, visited: seq<nat>, least: nat, best: nat, ms: int, cur: nat, len: nat)
    requires Nearest(win, s, visited, least, best, ms) && NoneBetter(win, s, visited, best) && least <= best <= len
    requires best <= MAX_MATCH && len <= MAX_MATCH && forall i :: 0 <= i < |visited| ==> cur < visited[i]
    ensures Nearest(win, s, visited + [cur], least, len, if len > best then cur else ms)
  {
    hide Same;
    var all := visited + [cur];
    if len > best {
      assert all[|visited|] == cur;
      forall i | 0 <= i < |all| && all[i] > cur ensures !Same(win, all[i], s, len) {
        assert i < |visited| && all[i] == visited[i];
        if Same(win, visited[i], s, len) { SameLess(win, visited[i], s, len, best + 1); }
      }
    } else if best > least {
      var j :| 0 <= j < |visited| && visited[j] == ms;
      assert all[j] == ms;
      forall i | 0 <= i < |all| && all[i] > ms ensures !Same(win, all[i], s, best) {
        assert i < |visited| ==> all[i] == visited[i];
      }
    }
  }

  /** The search follows the chain from its head: every position looked at is within reach and has the
      hash of the current string, and it stops only where the chain leads too far back, or when the
      effort is spent. The length returned is that of a true match longer than `prevLength` at the
      position returned, the nearest of that length, or `prevLength` itself; and no position looked at
      gives a longer match. */
  method LongestMatch(window: array<Byte>, prev: array<nat>, strstart: nat, prevLength: nat, hashHead: nat,
                      matchStart: int, effort: Effort, ghost head: seq<nat>, ghost hb: nat)
    returns (best: nat, ms: int, ghost visited: seq<nat>)
    requires window.Length == WINDOW_BYTES && HashBits(hb) && Chains(window[..], head, prev[..], hb, strstart + 1)
    requires Candidate(window[..], hb, strstart, hashHead) && 2 <= prevLength <= MAX_MATCH
    ensures Best(window[..], strstart, prevLength, best, ms, matchStart)
    ensures Follows(prev[..], hashHead, visited) && Descends(window[..], hb, strstart, visited, hashHead, 0)
    ensures AtEnd(prev[..], strstart, visited) || Spent(effort, prevLength, best, |visited|)
    ensures |visited| <= Budget(effort, prevLength)
    ensures NoneBetter(window[..], strstart, visited, best)
    ensures Nearest(window[..], strstart, visited, prevLength, best, ms)
  {
    hide Chains, Candidate, Same, NoneBetter, Descends, Nearest, Follows;
    ghost var win, links := window[..], prev[..];
    WindowSize(win, head, links, hb, strstart + 1);
    CandidateFacts(win, hb, strstart, hashHead);
    var chain: int := effort.maxChain % TWO32;
    best, ms, visited := prevLength, matchStart, [];
    var limit := if strstart > MAX_DIST then strstart - MAX_DIST else 0;
    if prevLength >= effort.goodMatch {
      chain := chain / 4;
    }
    ghost var count := chain;
    var cur: nat := hashHead;
    NothingVisited(win, hb, strstart, hashHead, prevLength, ms);
    while true
      invariant Candidate(win, hb, strstart, cur) && Best(win, strstart, prevLength, best, ms, matchStart)
      invariant NoneBetter(win, strstart, visited, best) && Nearest(win, strstart, visited, prevLength, best, ms)
      invariant Descends(win, hb, strstart, visited, hashHead, cur) && (visited == [] || limit < cur)
      invariant if visited == [] then cur == hashHead
                else Follows(links, hashHead, visited) && cur == links[visited[|visited| - 1] % WSIZE]
      invariant |visited| < Budget(effort, prevLength) && |visited| <= WINDOW_SIZE
      invariant chain == if count == 0 && |visited| > 0 then TWO32 - |visited| else count - |visited|
      decreases cur
    {
      CandidateFacts(win, hb, strstart, cur);
      var len := TryCandidate(window, strstart, cur, best, hb);
      DescendsAbove(win, hb, strstart, visited, hashHead, cur);
      NoneBetterStep(win, strstart, visited, best, cur, len);
      NearestStep(win, strstart, visited, prevLength, best, ms, cur, len);
      NextCandidate(win, head, links, hb, strstart, cur);
      DescendsStep(win, hb, strstart, visited, hashHead, cur, links[cur % WSIZE]);
      DescendsZero(win, hb, strstart, visited + [cur], hashHead, links[cur % WSIZE]);
      FollowsStep(links, hashHead, visited, cur);
      visited := visited + [cur];
      if len > best {
        ms, best := cur, len;
        if len >= effort.niceMatch { break; }
      }
      cur := prev[cur % WSIZE];
      if cur <= limit { break; }
      CountDown(chain);
      chain := (chain - 1) % TWO32;
      if chain == 0 { break; }
    }
  }

  lemma DescendsZero(win: seq<Byte>, hb: nat, s: nat, visited: seq<nat>, top: nat, cur: nat)
    requires Descends(win, hb, s, visited, top, cur)
    ensures Descends(win, hb, s, visited, top, 0)
  {
    hide Candidate;
  }

  lemma CountDown(c: int)
    requires 0 <= c < TWO32
    ensures (c - 1) % TWO32 == if c == 0 then TWO32 - 1 else c - 1
  {
  }

  lemma NothingVisited(win: seq<Byte>, hb: nat, s: nat, top: nat, best: nat, ms: int)
    ensures NoneBetter(win, s, [], best) && Nearest(win, s, [], best, best, ms) && Descends(win, hb, s, [], top, top)
  {
  }

  lemma DescendsAbove(win: seq<Byte>, hb: nat, s: nat, visited: seq<nat>, top: nat, cur: nat)
    requires Descends(win, hb, s, visited, top, cur)
    ensures (forall i :: 0 <= i < |visited| ==> cur < visited[i]) && cur + |visited| <= top
  {
  }

  lemma CandidateFacts(win: seq<Byte>, hb: nat, s: nat, v: nat)
    requires Candidate(win, hb, s, v)
    ensures |win| == WINDOW_BYTES && 1 <= v < s < WINDOW_SIZE && s - v <= MAX_DIST
  {
  }

  // ----- nothing is missed -----

  /** Between two links of the chain, and behind its last one within reach, no position has its hash. */
  lemma {:induction false} Gap(win: seq<Byte>, head: seq<nat>, prev: seq<nat>, hb: nat, s: nat, hashHead: nat,
                               visited: seq<nat>, i: nat, v: nat)
    requires Chains(win, head, prev, hb, s + 1) && s < WINDOW_SIZE && Follows(prev, hashHead, visited)
    requires forall j :: 0 <= j < |visited| ==> Candidate(win, hb, s, visited[j])
    requires AtEnd(prev, s, visited) && i < |visited| && Limit(s) < v < visited[i] && v !in visited && v < s
    ensures HashAt(win, v, hb) != HashAt(win, s, hb)
    decreases |visited| - i
  {
    hide HashAt, Pow2;
    var p := visited[i];
    assert Candidate(win, hb, s, p);
    assert LinkOk(win, prev, hb, p);
    if i + 1 < |visited| && v < visited[i + 1] {
      Gap(win, head, prev, hb, s, hashHead, visited, i + 1, v);
    } else if i + 1 < |visited| {
      assert visited[i + 1] == prev[p % WSIZE] && visited[i + 1] in visited;
    }
  }

  /** The positions within reach that have the hash of the string at `s`. */
  ghost function Rivals(win: seq<Byte>, hb: nat, s: nat): (r: set<nat>) {
    set v: nat | v < s && Candidate(win, hb, s, v)
  }

  lemma {:induction false} Distinct(visited: seq<nat>, all: set<nat>)
    requires forall i, j :: 0 <= i < j < |visited| ==> visited[j] < visited[i]
    requires forall i :: 0 <= i < |visited| ==> visited[i] in all
    ensures |visited| <= |all|
  {
    if visited == [] {
    } else {
      var k := |visited| - 1;
      Distinct(visited[..k], all - {visited[k]});
    }
  }

  /** A search that has left out a position within reach has looked at fewer than there are. */
  lemma Crowded(win: seq<Byte>, hb: nat, s: nat, visited: seq<nat>, top: nat, v: nat)
    requires Descends(win, hb, s, visited, top, 0) && Candidate(win, hb, s, v) && v !in visited
    ensures |visited| < |Rivals(win, hb, s)|
  {
    hide HashAt;
    var all := Rivals(win, hb, s);
    forall i | 0 <= i < |visited| ensures visited[i] in all - {v} {
      assert Candidate(win, hb, s, visited[i]);
    }
    Distinct(visited, all - {v});
  }

  /** The search has come to the end of its chain, or has looked at as many positions as there are. */
  ghost predicate Exhausted(win: seq<Byte>, prev: seq<nat>, hb: nat, s: nat, visited: seq<nat>)
    requires |prev| == WSIZE && visited != []
  {
    AtEnd(prev, s, visited) || |Rivals(win, hb, s)| <= |visited|
  }

  /** Such a search has looked at every position within reach that has the hash of the current string. */
  lemma AllLookedAt(win: seq<Byte>, head: seq<nat>, prev: seq<nat>, hb: nat, s: nat, hashHead: nat,
                    visited: seq<nat>, v: nat)
    requires Chains(win, head, prev, hb, s + 1) && s < WINDOW_SIZE && hashHead == prev[s % WSIZE]
    requires Follows(prev, hashHead, visited) && Exhausted(win, prev, hb, s, visited)
    requires Descends(win, hb, s, visited, hashHead, 0)
    requires Limit(s) < v < s && HashAt(win, v, hb) == HashAt(win, s, hb)
    ensures v in visited
  {
    hide HashAt, Pow2, Rivals;
    assert LinkOk(win, prev, hb, s);
    if v !in visited {
      Crowded(win, hb, s, visited, hashHead, v);
      assert v != visited[0] && Candidate(win, hb, s, visited[0]);
      if v < visited[0] { Gap(win, head, prev, hb, s, hashHead, visited, 0, v); }
    }
  }

  /** Three equal bytes make equal hashes. */
  lemma SameHashes(win: seq<Byte>, hb: nat, v: nat, s: nat, n: nat)
    requires |win| == WINDOW_BYTES && v < WINDOW_SIZE && s < WINDOW_SIZE && n >= 3 && Same(win, v, s, n)
    ensures HashAt(win, v, hb) == HashAt(win, s, hb)
  {
    hide Same, Hash3;
    SameAt(win, v, s, n, 0);
    SameAt(win, v, s, n, 1);
    SameAt(win, v, s, n, 2);
  }

  /** After such a search no position within reach matches more bytes. */
  lemma NoneLonger(win: seq<Byte>, head: seq<nat>, prev: seq<nat>, hb: nat, s: nat, hashHead: nat,
                   visited: seq<nat>, best: nat, v: nat)
    requires Chains(win, head, prev, hb, s + 1) && s < WINDOW_SIZE && hashHead == prev[s % WSIZE]
    requires Follows(prev, hashHead, visited) && Exhausted(win, prev, hb, s, visited)
    requires Descends(win, hb, s, visited, hashHead, 0) && NoneBetter(win, s, visited, best)
    requires Limit(s) < v < s && 2 <= best < MAX_MATCH
    ensures !Same(win, v, s, best + 1)
  {
    hide HashAt, Chains, Same, Follows, Exhausted, Descends;
    if Same(win, v, s, best + 1) {
      WindowSize(win, head, prev, hb, s + 1);
      SameHashes(win, hb, v, s, best + 1);
      AllLookedAt(win, head, prev, hb, s, hashHead, visited, v);
    }
  }

  lemma WindowSize(win: seq<Byte>, head: seq<nat>, prev: seq<nat>, hb: nat, ins: nat)
    requires Chains(win, head, prev, hb, ins)
    ensures |win| == WINDOW_BYTES && |prev| == WSIZE
  {
  }

  /** Where the chain of the current string has no head within reach, nothing matches three bytes. */
  lemma NoneAtAll(win: seq<Byte>, head: seq<nat>, prev: seq<nat>, hb: nat, s: nat, v: nat, n: nat)
    requires Chains(win, head, prev, hb, s + 1) && s < WINDOW_SIZE && prev[s % WSIZE] <= Limit(s) < v < s && n >= 3
    ensures !Same(win, v, s, n)
  {
    hide HashAt, Pow2, Same;
    assert LinkOk(win, prev, hb, s);
    if Same(win, v, s, n) { SameHashes(win, hb, v, s, n); }
  }
}
