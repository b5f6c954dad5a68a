/** Why merging the two least frequent nodes, the flatter of equally frequent ones first, is optimal:
    a lower bound on the cost of every assignment of code lengths that obeys the Kraft inequality, and
    on the longest code of every cheapest one. */
module HuffOptimal {
  import opened Arith

  /** The Kraft sum of the used symbols, in units of `2^-m`. */
  function Kraft(used: seq<bool>, ls: seq<nat>, m: nat): (r: nat)
    requires |used| == |ls| && forall i :: 0 <= i < |used| && used[i] ==> ls[i] <= m
  {
    if used == [] then 0
    else (if used[0] then Pow2(m - ls[0]) else 0) + Kraft(used[1..], ls[1..], m)
  }

  ghost predicate Feasible(used: seq<bool>, ls: seq<nat>, m: nat) {
    && |used| == |ls|
    && (forall i :: 0 <= i < |used| && used[i] ==> ls[i] <= m)
    && Kraft(used, ls, m) <= Pow2(m)
  }

  /** Below every used node, with the tree of height `h` under it, the codes end before `top`. */
  ghost predicate Under(h: seq<nat>, used: seq<bool>, ls: seq<nat>, top: nat) {
    |h| == |used| == |ls| && forall i :: 0 <= i < |used| && used[i] ==> ls[i] + h[i] < top
  }

  /** No feasible assignment of lengths to the used nodes costs less than `c`, and none that costs
      `c` keeps all codes below `top`. */
  ghost predicate LowerBound(w: seq<nat>, h: seq<nat>, used: seq<bool>, c: nat, top: nat) {
    && |w| == |h| == |used|
    && forall ls: seq<nat>, m: nat ::
         Feasible(used, ls, m) ==> Dot(w, ls) > c || (Dot(w, ls) == c && !Under(h, used, ls, top))
  }

  /** The lengths `r` are no worse than `ls`: cheaper, or as cheap and no higher. */
  ghost predicate NoWorse(w: seq<nat>, h: seq<nat>, used: seq<bool>, r: seq<nat>, ls: seq<nat>, top: nat) {
    && |w| == |h| == |used| == |r| == |ls|
    && (Dot(w, r) < Dot(w, ls) || (Dot(w, r) == Dot(w, ls) && (Under(h, used, ls, top) ==> Under(h, used, r, top))))
  }

  // ----- the Kraft sum under small changes -----

  lemma {:induction false} KraftUpdate(used: seq<bool>, ls: seq<nat>, m: nat, i: nat, v: nat)
    requires |used| == |ls| && i < |used| && used[i] && v <= m
    requires forall j :: 0 <= j < |used| && used[j] ==> ls[j] <= m
    ensures Kraft(used, ls[i := v], m) + Pow2(m - ls[i]) == Kraft(used, ls, m) + Pow2(m - v)
  {
    var t := ls[i := v];
    if i == 0 {
      assert t[1..] == ls[1..];
    } else {
      assert t[1..] == ls[1..][i - 1 := v];
      KraftUpdate(used[1..], ls[1..], m, i - 1, v);
    }
  }

  lemma {:induction false} KraftIgnore(used: seq<bool>, ls: seq<nat>, m: nat, i: nat, v: nat)
    requires |used| == |ls| && i < |used| && !used[i]
    requires forall j :: 0 <= j < |used| && used[j] ==> ls[j] <= m
    ensures Kraft(used, ls[i := v], m) == Kraft(used, ls, m)
  {
    var t := ls[i := v];
    if i == 0 {
      assert t[1..] == ls[1..];
    } else {
      assert t[1..] == ls[1..][i - 1 := v];
      KraftIgnore(used[1..], ls[1..], m, i - 1, v);
    }
  }

  lemma {:induction false} KraftDrop(used: seq<bool>, ls: seq<nat>, m: nat, i: nat)
    requires |used| == |ls| && i < |used| && used[i]
    requires forall j :: 0 <= j < |used| && used[j] ==> ls[j] <= m
    ensures Kraft(used[i := false], ls, m) + Pow2(m - ls[i]) == Kraft(used, ls, m)
  {
    var u := used[i := false];
    if i == 0 {
      assert u[1..] == used[1..];
    } else {
      assert u[1..] == used[1..][i - 1 := false];
      KraftDrop(used[1..], ls[1..], m, i - 1);
    }
  }

  lemma {:induction false} KraftDouble(used: seq<bool>, ls: seq<nat>, m: nat)
    requires |used| == |ls| && forall j :: 0 <= j < |used| && used[j] ==> ls[j] <= m
    ensures Kraft(used, ls, m + 1) == 2 * Kraft(used, ls, m)
  {
    if used != [] { KraftDouble(used[1..], ls[1..], m); }
  }

  /** The unit does not matter as long as every length fits. */
  lemma {:induction false} FeasibleShrink(used: seq<bool>, ls: seq<nat>, m: nat, d: nat)
    requires Feasible(used, ls, m) && d <= m
    requires forall j :: 0 <= j < |used| && used[j] ==> ls[j] <= d
    ensures Feasible(used, ls, d)
    decreases m - d
  {
    if d < m {
      KraftDouble(used, ls, m - 1);
      FeasibleShrink(used, ls, m - 1, d);
    }
  }

  // ----- exchanging lengths -----

  lemma {:induction false} MaxUsed(used: seq<bool>, ls: seq<nat>, a: nat) returns (b: nat)
    requires |used| == |ls| && a < |used| && used[a]
    ensures b < |used| && used[b] && forall i :: 0 <= i < |used| && used[i] ==> ls[i] <= ls[b]
  {
    b := a;
    for i := 0 to |used|
      invariant b < |used| && used[b] && ls[a] <= ls[b]
      invariant forall j :: 0 <= j < i && used[j] ==> ls[j] <= ls[b]
    {
      if used[i] && ls[i] > ls[b] { b := i; }
    }
  }

  lemma MulExchange(x: nat, y: nat, p: nat, q: nat)
    requires x <= y && p <= q
    ensures x * q + y * p <= x * p + y * q
    ensures x < y && p < q ==> x * q + y * p < x * p + y * q
  {
    var d, e := y - x, q - p;
    assert x * p + y * q - (x * q + y * p) == d * e by {
      assert y * q == (x + d) * (p + e) == x * p + x * e + d * p + d * e;
      assert x * q == x * p + x * e;
      assert y * p == x * p + d * p;
    }
    assert d * e >= 0;
    if x < y && p < q { assert d * e >= 1; }
  }

  /** `a` is less frequent than `b`, or as frequent and no higher. */
  ghost predicate Ranks(w: seq<nat>, h: seq<nat>, a: nat, b: nat)
    requires a < |w| == |h| && b < |w|
  {
    w[a] < w[b] || (w[a] == w[b] && h[a] <= h[b])
  }

  /** Giving the longer code to the lower ranking of two nodes is no worse. */
  lemma Exchange(w: seq<nat>, h: seq<nat>, used: seq<bool>, ls: seq<nat>, m: nat, a: nat, b: nat,
                 top: nat) returns (r: seq<nat>)
    requires |w| == |h| == |used| && Feasible(used, ls, m) && a < |used| && b < |used| && used[a] && used[b]
    requires Ranks(w, h, a, b) && ls[a] <= ls[b]
    ensures r == ls[a := ls[b]][b := ls[a]] && Feasible(used, r, m) && NoWorse(w, h, used, r, ls, top)
    ensures w[a] < w[b] && ls[a] < ls[b] ==> Dot(w, r) < Dot(w, ls)
  {
    hide Dot, Kraft, Pow2;
    var t := ls[a := ls[b]];
    r := t[b := ls[a]];
    if a == b {
      assert r == ls;
    } else {
      KraftUpdate(used, ls, m, a, ls[b]);
      KraftUpdate(used, t, m, b, ls[a]);
      DotUpdateRight(w, ls, a, ls[b]);
      DotUpdateRight(w, t, b, ls[a]);
      MulExchange(w[a], w[b], ls[a], ls[b]);
      if ls[a] == ls[b] { assert r == ls; }
    }
  }

  lemma NoWorseChain(w: seq<nat>, h: seq<nat>, used: seq<bool>, r: seq<nat>, s: seq<nat>, ls: seq<nat>, top: nat)
    requires NoWorse(w, h, used, r, s, top) && NoWorse(w, h, used, s, ls, top)
    ensures NoWorse(w, h, used, r, ls, top)
  {
    hide Dot, Under;
  }

  ghost predicate Least(w: seq<nat>, h: seq<nat>, used: seq<bool>, a: nat, b: nat) {
    && |w| == |h| == |used| && a < |used| && b < |used| && a != b && used[a] && used[b] && Ranks(w, h, a, b)
    && forall i :: 0 <= i < |used| && used[i] && i != a ==> Ranks(w, h, b, i)
  }

  lemma RanksFirst(w: seq<nat>, h: seq<nat>, used: seq<bool>, a: nat, b: nat, x: nat)
    requires Least(w, h, used, a, b) && x < |used| && used[x]
    ensures Ranks(w, h, a, x)
  {
  }

  /** The two least nodes can be given the two longest codes. */
  lemma Deepest(w: seq<nat>, h: seq<nat>, used: seq<bool>, ls: seq<nat>, m: nat, a: nat, b: nat,
                top: nat) returns (r: seq<nat>)
    requires Least(w, h, used, a, b) && Feasible(used, ls, m)
    ensures Feasible(used, r, m) && NoWorse(w, h, used, r, ls, top) && r[b] <= r[a]
    ensures forall i :: 0 <= i < |used| && used[i] && i != a ==> r[i] <= r[b]
  {
    hide Dot, Kraft, Under, NoWorse;
    var x := MaxUsed(used, ls, a);
    RanksFirst(w, h, used, a, b, x);
    var t := Exchange(w, h, used, ls, m, a, x, top);
    assert t[a] == ls[x] && forall i :: 0 <= i < |used| && used[i] ==> t[i] <= t[a];
    var y := MaxUsed(used[a := false], t, b);
    r := Exchange(w, h, used, t, m, b, y, top);
    NoWorseChain(w, h, used, r, t, ls, top);
  }

  /** A longest code without a sibling can be shortened. */
  lemma {:induction false} Level(w: seq<nat>, h: seq<nat>, used: seq<bool>, ls: seq<nat>, m: nat, a: nat, b: nat,
                                 top: nat)
    returns (r: seq<nat>)
    requires |w| == |h| == |used| && Feasible(used, ls, m) && a < |used| && b < |used| && a != b && used[a] && used[b]
    requires ls[b] <= ls[a] && forall i :: 0 <= i < |used| && used[i] && i != a ==> ls[i] <= ls[b]
    ensures Feasible(used, r, m) && NoWorse(w, h, used, r, ls, top) && r[a] == r[b]
    ensures forall i :: 0 <= i < |used| && used[i] ==> r[i] <= r[a]
    decreases ls[a]
  {
    hide Dot, Kraft;
    if ls[a] == ls[b] {
      r := ls;
    } else {
      var d := ls[a];
      var t := ls[a := d - 1];
      Shortened(used, ls, m, a);
      DotLess(w, ls, a, d - 1);
      r := Level(w, h, used, t, m, a, b, top);
    }
  }

  lemma Shortened(used: seq<bool>, ls: seq<nat>, m: nat, a: nat)
    requires Feasible(used, ls, m) && a < |used| && used[a] && ls[a] > 0
    requires forall i :: 0 <= i < |used| && used[i] && i != a ==> ls[i] < ls[a]
    ensures Feasible(used, ls[a := ls[a] - 1], m)
  {
    var d := ls[a];
    var t := ls[a := d - 1];
    FeasibleShrink(used, ls, m, d);
    KraftUpdate(used, ls, d, a, d - 1);
    assert Pow2(1) == 2 && Pow2(0) == 1;
    assert Kraft(used, t, d) == Kraft(used, ls, d) + 1;
    KraftDouble(used, t, d - 1);
    assert Feasible(used, t, d - 1);
    FeasibleGrow(used, t, d - 1, m);
  }

  lemma {:induction false} FeasibleGrow(used: seq<bool>, ls: seq<nat>, d: nat, m: nat)
    requires Feasible(used, ls, d) && d <= m
    ensures Feasible(used, ls, m)
    decreases m - d
  {
    if d < m {
      KraftDouble(used, ls, d);
      FeasibleGrow(used, ls, d + 1, m);
    }
  }

  // ----- merging -----

  function MergedWeights(w: seq<nat>, a: nat, b: nat, n: nat): (r: seq<nat>)
    requires a < |w| && b < |w| && n < |w|
  {
    w[a := 0][b := 0][n := w[a] + w[b]]
  }

  function MergedUsed(used: seq<bool>, a: nat, b: nat, n: nat): (r: seq<bool>)
    requires a < |used| && b < |used| && n < |used|
  {
    used[a := false][b := false][n := true]
  }

  /** The father of `a` and `b` is one level above the higher of them. */
  ghost predicate Above(h: seq<nat>, a: nat, b: nat, n: nat) {
    a < |h| && b < |h| && n < |h| && h[n] == 1 + if h[a] >= h[b] then h[a] else h[b]
  }

  /** Two sibling codes of length `d` become one of length `d - 1` for their father. */
  lemma MergeLengths(w: seq<nat>, h: seq<nat>, used: seq<bool>, ls: seq<nat>, m: nat, a: nat, b: nat, n: nat, top: nat)
    returns (r: seq<nat>)
    requires |w| == |h| == |used| && Feasible(used, ls, m) && Above(h, a, b, n)
    requires a != b && used[a] && used[b] && !used[n] && w[n] == 0 && ls[a] == ls[b]
    requires forall i :: 0 <= i < |used| && used[i] ==> ls[i] <= ls[a]
    ensures Feasible(MergedUsed(used, a, b, n), r, m)
    ensures Dot(MergedWeights(w, a, b, n), r) + w[a] + w[b] == Dot(w, ls)
    ensures Under(h, used, ls, top) ==> Under(h, MergedUsed(used, a, b, n), r, top)
  {
    hide Dot, Kraft, Pow2;
    var d := ls[a];
    MergeKraft(used, ls, m, a, b, n);
    r := ls[n := d - 1];
    MergeCost(w, ls, a, b, n, d);
  }

  lemma MergeKraft(used: seq<bool>, ls: seq<nat>, m: nat, a: nat, b: nat, n: nat)
    requires Feasible(used, ls, m) && a < |used| && b < |used| && n < |used|
    requires a != b && used[a] && used[b] && !used[n] && ls[a] == ls[b]
    ensures ls[a] > 0 && Feasible(MergedUsed(used, a, b, n), ls[n := ls[a] - 1], m)
  {
    hide Kraft;
    var d, u, u3 := ls[a], used[a := false], MergedUsed(used, a, b, n);
    var u2 := u[b := false];
    KraftDrop(used, ls, m, a);
    KraftDrop(u, ls, m, b);
    assert d > 0;
    var r := ls[n := d - 1];
    KraftIgnore(u2, ls, m, n, d - 1);
    KraftDrop(u3, r, m, n);
    assert u3[n := false] == u2;
    assert Pow2(m - (d - 1)) == 2 * Pow2(m - d);
  }

  /** A code for the father becomes two, one bit longer, for its sons. */
  lemma SplitLengths(w: seq<nat>, h: seq<nat>, used: seq<bool>, a: nat, b: nat, n: nat, ls: seq<nat>, m: nat, top: nat)
    returns (r: seq<nat>)
    requires |w| == |h| == |used| == |ls| && Above(h, a, b, n)
    requires a != b && used[a] && used[b] && !used[n] && w[n] == 0 && Feasible(MergedUsed(used, a, b, n), ls, m)
    ensures Feasible(used, r, m + 1) && Dot(MergedWeights(w, a, b, n), ls) + w[a] + w[b] == Dot(w, r)
    ensures Under(h, MergedUsed(used, a, b, n), ls, top) ==> Under(h, used, r, top)
  {
    hide Dot, Pow2;
    var d, u3 := ls[n] + 1, MergedUsed(used, a, b, n);
    r := ls[a := d][b := d];
    SplitKraft(used, a, b, n, ls, m);
    MergeCost(w, r, a, b, n, d);
    SameDot(MergedWeights(w, a, b, n), ls, r, a, b, n);
  }

  /** Nodes that weigh nothing do not count. */
  lemma SameDot(w: seq<nat>, ls: seq<nat>, r: seq<nat>, a: nat, b: nat, n: nat)
    requires |w| == |ls| == |r| && a < |w| && b < |w| && n < |w| && a != b && n != a && n != b && w[a] == 0 && w[b] == 0
    requires r == ls[a := ls[n] + 1][b := ls[n] + 1]
    ensures Dot(w, ls) == Dot(w, r[n := ls[n]])
  {
    DotIgnore(w, ls, a, ls[n] + 1);
    DotIgnore(w, ls[a := ls[n] + 1], b, ls[n] + 1);
    assert r[n := ls[n]] == r;
  }

  lemma SplitKraft(used: seq<bool>, a: nat, b: nat, n: nat, ls: seq<nat>, m: nat)
    requires |used| == |ls| && a < |used| && b < |used| && n < |used| && a != b && used[a] && used[b] && !used[n]
    requires Feasible(MergedUsed(used, a, b, n), ls, m)
    ensures Feasible(used, ls[a := ls[n] + 1][b := ls[n] + 1], m + 1)
  {
    var u3, u2 := MergedUsed(used, a, b, n), used[a := false][b := false];
    var d, m1 := ls[n] + 1, m + 1;
    var r := ls[a := d][b := d];
    KraftDouble(u3, ls, m);
    KraftDrop(u3, ls, m1, n);
    assert u3[n := false] == u2;
    KraftIgnore(u2, ls, m1, a, d);
    KraftIgnore(u2, ls[a := d], m1, b, d);
    KraftDrop(used, r, m1, a);
    KraftDrop(used[a := false], r, m1, b);
    assert Pow2(m1 - (d - 1)) == 2 * Pow2(m1 - d);
  }

  lemma MergeCost(w: seq<nat>, ls: seq<nat>, a: nat, b: nat, n: nat, d: nat)
    requires |w| == |ls| && a < |w| && b < |w| && n < |w| && a != b && n != a && n != b
    requires d > 0 && ls[a] == d && ls[b] == d && w[n] == 0
    ensures Dot(MergedWeights(w, a, b, n), ls[n := d - 1]) + w[a] + w[b] == Dot(w, ls)
  {
    var r, w1 := ls[n := d - 1], w[a := 0];
    var w2 := w1[b := 0];
    DotIgnore(w, ls, n, d - 1);
    DotClear(w, r, a);
    DotClear(w1, r, b);
    DotSet(w2, r, n, w[a] + w[b]);
    SplitCost(w[a], w[b], d);
  }

  lemma SplitCost(x: nat, y: nat, d: nat)
    requires d > 0
    ensures (x + y) * (d - 1) + x + y == x * d + y * d
  {
  }

  /** A bound for the forest with two least nodes merged gives one for the forest. */
  lemma MergeStep(w: seq<nat>, h: seq<nat>, used: seq<bool>, a: nat, b: nat, n: nat, w': seq<nat>, used': seq<bool>,
                  c: nat, top: nat)
    requires Least(w, h, used, a, b) && Above(h, a, b, n) && !used[n] && w[n] == 0
    requires w' == MergedWeights(w, a, b, n) && used' == MergedUsed(used, a, b, n) && LowerBound(w', h, used', c, top)
    ensures LowerBound(w, h, used, c + w[a] + w[b], top)
  {
    hide Dot, Kraft, Under, Least, MergedWeights, MergedUsed;
    LeastUsed(w, h, used, a, b);
    forall ls: seq<nat>, m: nat | Feasible(used, ls, m)
      ensures Dot(w, ls) > c + w[a] + w[b] || (Dot(w, ls) == c + w[a] + w[b] && !Under(h, used, ls, top))
    {
      var x := Deepest(w, h, used, ls, m, a, b, top);
      var y := Level(w, h, used, x, m, a, b, top);
      var z := MergeLengths(w, h, used, y, m, a, b, n, top);
      NoWorseChain(w, h, used, y, x, ls, top);
    }
  }

  lemma LeastUsed(w: seq<nat>, h: seq<nat>, used: seq<bool>, a: nat, b: nat)
    requires Least(w, h, used, a, b)
    ensures |w| == |h| == |used| && a < |used| && b < |used| && a != b && used[a] && used[b]
  {
  }

  /** Some assignment costs `c` and ends at `top` at the latest. */
  ghost predicate Reached(w: seq<nat>, h: seq<nat>, used: seq<bool>, c: nat, top: nat) {
    |w| == |h| == |used|
    && exists ls: seq<nat>, m: nat :: Feasible(used, ls, m) && Dot(w, ls) == c && Under(h, used, ls, top + 1)
  }

  lemma SplitStep(w: seq<nat>, h: seq<nat>, used: seq<bool>, a: nat, b: nat, n: nat, w': seq<nat>, used': seq<bool>,
                  c: nat, top: nat)
    requires Least(w, h, used, a, b) && Above(h, a, b, n) && !used[n] && w[n] == 0
    requires w' == MergedWeights(w, a, b, n) && used' == MergedUsed(used, a, b, n) && Reached(w', h, used', c, top)
    ensures Reached(w, h, used, c + w[a] + w[b], top)
  {
    hide Dot, Kraft, Under;
    var ls: seq<nat>, m: nat :| Feasible(used', ls, m) && Dot(w', ls) == c && Under(h, used', ls, top + 1);
    var r := SplitLengths(w, h, used, a, b, n, ls, m, top + 1);
    assert Feasible(used, r, m + 1) && Dot(w, r) == c + w[a] + w[b] && Under(h, used, r, top + 1);
  }

  lemma {:induction false} KraftNone(used: seq<bool>, ls: seq<nat>, m: nat)
    requires |used| == |ls| && forall i :: 0 <= i < |used| ==> !used[i]
    ensures Kraft(used, ls, m) == 0
  {
    if used != [] { KraftNone(used[1..], ls[1..], m); }
  }
}
