/** The heights of the nodes of the Huffman tree, which decide between equally frequent ones: the
    order of the merges takes them into account, and Fibonacci numbers bound them. */
module HuffHeight {
  import opened Canonical
  import opened HuffHeap
  import opened HuffMerge
  import opened HuffOptimal
  import opened HuffTree

  /** A leaf has height 0, and a father is one above the higher of its sons. */
  ghost predicate Heights(h: seq<nat>, elems: nat, k: nat, rem: seq<nat>, leaves: set<nat>) {
    && |rem| == 2 * k && elems + k <= |h|
    && (forall x :: x in leaves ==> x < |h| && h[x] == 0)
    && forall u :: 0 <= u < k ==> Above(h, rem[2 * u], rem[2 * u + 1], elems + u)
  }

  /** Nodes leave the heap in the order of their frequencies and heights. */
  ghost predicate ByRank(t: seq<CtData>, h: seq<nat>, rem: seq<nat>, act: set<nat>) {
    && |t| <= |h| && (forall j :: 0 <= j < |rem| ==> rem[j] < |t|) && (forall x :: x in act ==> x < |t|)
    && (forall i, j :: 0 <= i < j < |rem| ==> Smaller(t, h, rem[i], rem[j]))
    && (forall j, x :: 0 <= j < |rem| && x in act ==> Smaller(t, h, rem[j], x))
  }

  function Fib(n: nat): (f: nat) {
    if n < 2 then n else Fib(n - 1) + Fib(n - 2)
  }

  /** A high node is frequent. */
  ghost predicate Heavy(t: seq<CtData>, h: seq<nat>, elems: nat, k: nat, leaves: set<nat>) {
    forall x: nat :: IsNode(elems, k, leaves, x) ==> x < |t| && x < |h| && HeavyAt(t, h, x)
  }

  ghost predicate HeavyAt(t: seq<CtData>, h: seq<nat>, x: nat)
    requires x < |t| && x < |h|
  {
    t[x].fc >= Fib(h[x] + 2)
  }

  ghost predicate Ranked(t: seq<CtData>, h: seq<nat>, elems: nat, k: nat, rem: seq<nat>, act: set<nat>,
                         leaves: set<nat>) {
    Heights(h, elems, k, rem, leaves) && ByRank(t, h, rem, act) && Heavy(t, h, elems, k, leaves)
  }

  lemma {:induction false} FibMono(a: nat, b: nat)
    requires a <= b
    ensures Fib(a) <= Fib(b)
    decreases b
  {
    if a < b { FibMono(a, b - 1); }
  }

  /** No node of a tree of fewer than 65536 symbols is higher than 22. */
  lemma LowTree(h: nat)
    requires Fib(h + 2) < 65536
    ensures h <= 22
  {
    assert Fib(5) == 5 && Fib(6) == 8;
    assert Fib(7) == 13 && Fib(8) == 21;
    assert Fib(9) == 34 && Fib(10) == 55;
    assert Fib(11) == 89 && Fib(12) == 144;
    assert Fib(13) == 233 && Fib(14) == 377;
    assert Fib(15) == 610 && Fib(16) == 987;
    assert Fib(17) == 1597 && Fib(18) == 2584;
    assert Fib(19) == 4181 && Fib(20) == 6765;
    assert Fib(21) == 10946 && Fib(22) == 17711;
    assert Fib(23) == 28657 && Fib(24) == 46368;
    assert Fib(25) == 75025;
    if h > 22 { FibMono(25, h + 2); }
  }

  // ----- one merge -----

  lemma HeightsStep(h0: seq<nat>, h: seq<nat>, elems: nat, k: nat, rem: seq<nat>, leaves: set<nat>, n: nat, m: nat)
    requires Heights(h0, elems, k, rem, leaves) && (forall x :: x in leaves ==> x < elems)
    requires (forall j :: 0 <= j < |rem| ==> rem[j] < elems + k) && n < elems + k && m < elems + k
    requires Deepened(h0, h, n, m, elems + k) && h0[n] < 255 && h0[m] < 255
    ensures Heights(h, elems, k + 1, rem + [n, m], leaves)
  {
    var r := rem + [n, m];
    forall u | 0 <= u < k + 1 ensures Above(h, r[2 * u], r[2 * u + 1], elems + u) {
      if u < k { assert Above(h0, rem[2 * u], rem[2 * u + 1], elems + u); }
    }
  }

  lemma ByRankStep(t0: seq<CtData>, h0: seq<nat>, t: seq<CtData>, h: seq<nat>, rem: seq<nat>, act: set<nat>, n: nat,
                   m: nat, node: nat)
    requires ByRank(t0, h0, rem, act) && TwoLeast(t0, h0, act, n, m) && Linked(t0, t, n, m, node)
             && Deepened(h0, h, n, m, node)
    requires node !in act && node !in rem && h0[n] < 255 && h0[m] < 255
    ensures ByRank(t, h, rem + [n, m], act - {n, m} + {node})
  {
    var r, a := rem + [n, m], act - {n, m} + {node};
    assert forall x :: (x in act || x in rem) && x < |t| ==> t[x].fc == t0[x].fc && h[x] == h0[x];
    forall j | 0 <= j < |r| ensures r[j] < |t| && (j < |rem| ==> r[j] == rem[j] && rem[j] in rem) {}
    forall i, j | 0 <= i < j < |r| ensures Smaller(t, h, r[i], r[j]) {
      if j < |rem| { assert Smaller(t0, h0, rem[i], rem[j]); }
    }
    assert Smaller(t, h, m, node) && Smaller(t, h, n, node);
    forall j, x | 0 <= j < |r| && x in a ensures Smaller(t, h, r[j], x) {
      if x != node {
        assert x in act;
      } else if j < |rem| {
        assert Smaller(t0, h0, rem[j], m);
      }
    }
  }

  /** The other son of a node is at least as frequent as the sons of its brother. */
  lemma HeavyStep(t: seq<CtData>, h: seq<nat>, elems: nat, k: nat, rem: seq<nat>, act: set<nat>, leaves: set<nat>,
                  x: nat, y: nat)
    requires Ranked(t, h, elems, k, rem, act, leaves) && x in act && y in act && IsNode(elems, k, leaves, x)
             && IsNode(elems, k, leaves, y)
    requires forall j :: 0 <= j < |rem| ==> IsNode(elems, k, leaves, rem[j])
    requires h[x] >= h[y]
    ensures t[x].fc + t[y].fc >= Fib(h[x] + 3)
  {
    hide Fib;
    assert HeavyAt(t, h, x) && HeavyAt(t, h, y);
    SmallFibs(h[x]);
    if h[x] > 0 {
      var u := x - elems;
      assert Above(h, rem[2 * u], rem[2 * u + 1], elems + u);
      var j := if h[rem[2 * u]] >= h[rem[2 * u + 1]] then 2 * u else 2 * u + 1;
      assert HeavyAt(t, h, rem[j]) && Smaller(t, h, rem[j], y);
    }
  }

  lemma SmallFibs(n: nat)
    ensures Fib(n + 3) == Fib(n + 2) + Fib(n + 1)
    ensures n == 0 ==> Fib(n + 3) == 2 && Fib(n + 2) == 1
  {
  }

  lemma RankedStep(t0: seq<CtData>, h0: seq<nat>, t: seq<CtData>, h: seq<nat>, elems: nat, k: nat, rem: seq<nat>,
                   act: set<nat>,
                   leaves: set<nat>, n: nat, m: nat)
    requires Forest(t0, elems, k, rem, act, leaves) && Ranked(t0, h0, elems, k, rem, act, leaves) && elems + k < |t0|
    requires TwoLeast(t0, h0, act, n, m) && Linked(t0, t, n, m, elems + k) && Deepened(h0, h, n, m, elems + k)
    requires t0[n].fc < 65536 && t0[m].fc < 65536
    ensures Ranked(t, h, elems, k + 1, rem + [n, m], act - {n, m} + {elems + k}, leaves)
  {
    hide Fathers, FatherSums, ByFreq, Fib;
    var node := elems + k;
    assert !IsNode(elems, k, leaves, node);
    assert IsNode(elems, k, leaves, n) && IsNode(elems, k, leaves, m);
    assert HeavyAt(t0, h0, n) && HeavyAt(t0, h0, m);
    LowTree(h0[n]);
    LowTree(h0[m]);
    forall j | 0 <= j < |rem| ensures rem[j] < elems + k { assert IsNode(elems, k, leaves, rem[j]); }
    HeightsStep(h0, h, elems, k, rem, leaves, n, m);
    ByRankStep(t0, h0, t, h, rem, act, n, m, node);
    if h0[n] >= h0[m] {
      HeavyStep(t0, h0, elems, k, rem, act, leaves, n, m);
    } else {
      HeavyStep(t0, h0, elems, k, rem, act, leaves, m, n);
    }
    forall x: nat | IsNode(elems, k + 1, leaves, x) ensures x < |t| && x < |h| && HeavyAt(t, h, x) {
      if x != node {
        assert IsNode(elems, k, leaves, x) && HeavyAt(t0, h0, x);
      }
    }
  }

  lemma RankedStart(t: seq<CtData>, h: seq<nat>, elems: nat, leaves: set<nat>)
    requires elems <= |t| <= |h| && forall x :: x in leaves ==> x < elems && h[x] == 0 && t[x].fc >= 1
    ensures Ranked(t, h, elems, 0, [], leaves, leaves)
  {
    forall x: nat | IsNode(elems, 0, leaves, x) ensures x < |t| && HeavyAt(t, h, x) {}
  }
}
