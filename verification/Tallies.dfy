/** Symbol frequencies, and the total cost of a sequence of symbols. */
module Tallies {
  import opened Arith

  ghost predicate Below(syms: seq<nat>, n: nat) {
    forall i :: 0 <= i < |syms| ==> syms[i] < n
  }

  /** How often each symbol below `n` occurs. */
  ghost function Tally(syms: seq<nat>, n: nat): (r: seq<nat>)
    requires Below(syms, n)
    ensures |r| == n
    decreases |syms|
  {
    if syms == [] then seq(n, _ => 0)
    else
      var t, s := Tally(syms[..|syms| - 1], n), syms[|syms| - 1];
      t[s := t[s] + 1]
  }

  /** The cost of all symbols when each one costs `c`. */
  ghost function Cost(syms: seq<nat>, c: seq<nat>): (r: nat)
    requires Below(syms, |c|)
    decreases |syms|
  {
    if syms == [] then 0 else Cost(syms[..|syms| - 1], c) + c[syms[|syms| - 1]]
  }

  lemma TallyOne(syms: seq<nat>, s: nat, n: nat)
    requires Below(syms, n) && s < n
    ensures Below(syms + [s], n) && Tally(syms + [s], n) == Tally(syms, n)[s := Tally(syms, n)[s] + 1]
  {
    assert (syms + [s])[..|syms|] == syms;
  }

  lemma CostOne(syms: seq<nat>, s: nat, c: seq<nat>)
    requires Below(syms, |c|) && s < |c|
    ensures Below(syms + [s], |c|) && Cost(syms + [s], c) == Cost(syms, c) + c[s]
  {
    assert (syms + [s])[..|syms|] == syms;
  }

  lemma {:induction false} TallyCopies(syms: seq<nat>, s: nat, k: nat, n: nat)
    requires Below(syms, n) && s < n
    ensures var more := syms + seq(k, _ => s);
            Below(more, n) && Tally(more, n) == Tally(syms, n)[s := Tally(syms, n)[s] + k]
    decreases k
  {
    hide Tally;
    if k == 0 {
      assert syms + seq(0, _ => s) == syms;
    } else {
      TallyCopies(syms, s, k - 1, n);
      TallyOne(syms + seq(k - 1, _ => s), s, n);
      assert syms + seq(k, _ => s) == syms + seq(k - 1, _ => s) + [s];
    }
  }

  /** Summing the costs symbol by symbol is weighing each cost with the frequency. */
  lemma {:induction false} CostIsDot(syms: seq<nat>, c: seq<nat>)
    requires Below(syms, |c|)
    ensures Cost(syms, c) == Dot(Tally(syms, |c|), c)
    decreases |syms|
  {
    hide Dot;
    if syms == [] {
      DotZero(Tally(syms, |c|), c);
    } else {
      var rest, s := syms[..|syms| - 1], syms[|syms| - 1];
      CostIsDot(rest, c);
      var t := Tally(rest, |c|);
      DotUpdateLeft(t, c, s, t[s] + 1);
      MulOne(t[s], c[s]);
    }
  }

  lemma MulOne(a: nat, b: nat)
    ensures (a + 1) * b == a * b + b
  {
  }

  lemma {:induction false} CostAppend(a: seq<nat>, b: seq<nat>, c: seq<nat>)
    requires Below(a, |c|) && Below(b, |c|)
    ensures Below(a + b, |c|) && Cost(a + b, c) == Cost(a, c) + Cost(b, c)
    decreases |b|
  {
    if b == [] {
      assert a + b == a;
    } else {
      assert (a + b)[..|a + b| - 1] == a + b[..|b| - 1];
      CostAppend(a, b[..|b| - 1], c);
    }
  }

  /** As many occurrences as symbols. */
  lemma {:induction false} TallySum(syms: seq<nat>, n: nat)
    requires Below(syms, n)
    ensures Sum(Tally(syms, n)) == |syms|
    decreases |syms|
  {
    if syms == [] {
      SumZero(Tally(syms, n));
    } else {
      var rest, s := syms[..|syms| - 1], syms[|syms| - 1];
      TallySum(rest, n);
      SumUpdate(Tally(rest, n), s, Tally(rest, n)[s] + 1);
    }
  }

  /** A symbol has a positive frequency exactly when it occurs. */
  lemma {:induction false} TallyPositive(syms: seq<nat>, n: nat, s: nat)
    requires Below(syms, n) && s < n
    ensures Tally(syms, n)[s] > 0 <==> s in syms
    decreases |syms|
  {
    if syms != [] {
      var rest := syms[..|syms| - 1];
      TallyPositive(rest, n, s);
      assert syms == rest + [syms[|syms| - 1]];
    }
  }
}
