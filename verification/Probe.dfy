/** Double hashing modulo a prime: the probe sequence of `dpkg`'s tables visits every slot. */
module Probe {

  const NAME_HASH_PRIME: nat := 16381
  const PACKAGE_HASH_PRIME: nat := 10007
  const STATUS_HASH_PRIME: nat := 8191

  function Mul(a: int, b: int): (r: int) { a * b }

  ghost predicate Prime(p: nat) {
    p >= 2 && forall k: nat, c: nat :: 2 <= k < p ==> Mul(c, k) != p
  }

  lemma LowDivisors(k: nat, c: nat)
    requires 2 <= k < 44
    ensures Mul(c, k) != NAME_HASH_PRIME && Mul(c, k) != PACKAGE_HASH_PRIME && Mul(c, k) != STATUS_HASH_PRIME
  {
    assert k == 2 || k == 3 || k == 4 || k == 5 || k == 6 || k == 7 || k == 8 || k == 9 || k == 10 || k == 11
           || k == 12 || k == 13 ||
           k == 14 || k == 15 || k == 16 || k == 17 || k == 18 || k == 19 || k == 20 || k == 21 || k == 22 || k == 23
           || k == 24 || k == 25 ||
           k == 26 || k == 27 || k == 28 || k == 29 || k == 30 || k == 31 || k == 32 || k == 33 || k == 34 || k == 35
           || k == 36 || k == 37 ||
           k == 38 || k == 39 || k == 40 || k == 41 || k == 42 || k == 43;
  }

  lemma MiddleDivisors(k: nat, c: nat)
    requires 44 <= k < 86
    ensures Mul(c, k) != NAME_HASH_PRIME && Mul(c, k) != PACKAGE_HASH_PRIME && Mul(c, k) != STATUS_HASH_PRIME
  {
    assert k == 44 || k == 45 || k == 46 || k == 47 || k == 48 || k == 49 || k == 50 || k == 51 || k == 52 || k == 53
           || k == 54 || k == 55 ||
           k == 56 || k == 57 || k == 58 || k == 59 || k == 60 || k == 61 || k == 62 || k == 63 || k == 64 || k == 65
           || k == 66 || k == 67 ||
           k == 68 || k == 69 || k == 70 || k == 71 || k == 72 || k == 73 || k == 74 || k == 75 || k == 76 || k == 77
           || k == 78 || k == 79 ||
           k == 80 || k == 81 || k == 82 || k == 83 || k == 84 || k == 85;
  }

  lemma HighDivisors(k: nat, c: nat)
    requires 86 <= k < 128
    ensures Mul(c, k) != NAME_HASH_PRIME && Mul(c, k) != PACKAGE_HASH_PRIME && Mul(c, k) != STATUS_HASH_PRIME
  {
    assert k == 86 || k == 87 || k == 88 || k == 89 || k == 90 || k == 91 || k == 92 || k == 93 || k == 94 || k == 95
           || k == 96 || k == 97 ||
           k == 98 || k == 99 || k == 100 || k == 101 || k == 102 || k == 103 || k == 104 || k == 105 || k == 106
           || k == 107 || k == 108 || k == 109 ||
           k == 110 || k == 111 || k == 112 || k == 113 || k == 114 || k == 115 || k == 116 || k == 117 || k == 118
           || k == 119 || k == 120 || k == 121 ||
           k == 122 || k == 123 || k == 124 || k == 125 || k == 126 || k == 127;
  }

  lemma SmallDivisors(k: nat, c: nat)
    requires 2 <= k < 128
    ensures Mul(c, k) != NAME_HASH_PRIME && Mul(c, k) != PACKAGE_HASH_PRIME && Mul(c, k) != STATUS_HASH_PRIME
  {
    hide Mul;
    if k < 44 { LowDivisors(k, c); } else if k < 86 { MiddleDivisors(k, c); } else { HighDivisors(k, c); }
  }

  lemma Larger(c: nat, k: nat)
    requires c >= 128 && k >= 128
    ensures c * k >= 128 * 128
  {
  }

  /** A number below 128 squared with no divisor below 128 is prime. */
  lemma IsPrime(p: nat)
    requires p == NAME_HASH_PRIME || p == PACKAGE_HASH_PRIME || p == STATUS_HASH_PRIME
    ensures Prime(p)
  {
    forall k: nat, c: nat | 2 <= k < p ensures Mul(c, k) != p {
      if k < 128 {
        SmallDivisors(k, c);
      } else if c >= 128 {
        Larger(c, k);
      } else if c >= 2 {
        SmallDivisors(c, k);
      }
    }
  }

  lemma OneMultiple(d: nat, m: int, p: nat)
    requires 1 <= d < p
    ensures d != m * p
  {
    if m >= 1 {
      assert m * p >= p;
    } else {
      assert m * p <= 0;
    }
  }

  /** A prime divides no product of two smaller numbers. */
  lemma {:induction false} NoProduct(p: nat, d: nat, i: nat, m: int)
    requires Prime(p) && 1 <= d < p && 1 <= i < p
    ensures i * d != m * p
    decreases i
  {
    if i * d == m * p {
      var q, r := p / i, p % i;
      assert p == q * i + r;
      if r == 0 {
        assert Mul(q, i) == p;
        assert i == 1;
        OneMultiple(d, m, p);
      } else {
        Remainder(p, d, i, q, r, m);
        NoProduct(p, d, r, d - q * m);
      }
    }
  }

  /** If `p` divides `i * d`, it divides `(p % i) * d`. */
  lemma Remainder(p: nat, d: nat, i: nat, q: nat, r: nat, m: int)
    requires p == q * i + r && i * d == m * p
    ensures r * d == (d - q * m) * p
  {
    calc {
      r * d;
      (p - q * i) * d;
      p * d - q * (i * d);
      p * d - q * (m * p);
      (d - q * m) * p;
    }
  }

  // ----- the probe sequence -----

  /** The address of probe `i`. */
  function Addr(start: nat, dec: nat, p: nat, i: nat): (r: nat)
    requires start < p && 1 <= dec < p
    ensures r < p
  {
    if i == 0 then start
    else
      var a := Addr(start, dec, p, i - 1);
      if a >= dec then a - dec else a + p - dec
  }

  /** How often the first `i` probes wrapped around. */
  function Wraps(start: nat, dec: nat, p: nat, i: nat): (r: nat)
    requires start < p && 1 <= dec < p
  {
    if i == 0 then 0 else Wraps(start, dec, p, i - 1) + if Addr(start, dec, p, i - 1) >= dec then 0 else 1
  }

  /** Every probe lies `i * dec` before the start, modulo the prime. */
  lemma {:induction false} AddrIs(start: nat, dec: nat, p: nat, i: nat)
    requires start < p && 1 <= dec < p
    ensures Addr(start, dec, p, i) == start - Mul(i, dec) + Mul(Wraps(start, dec, p, i), p)
  {
    hide Mul;
    if i > 0 {
      AddrIs(start, dec, p, i - 1);
      MulStep(i - 1, dec);
      MulStep(Wraps(start, dec, p, i - 1), p);
    } else {
      MulZero(dec);
      MulZero(p);
    }
  }

  lemma MulStep(a: int, b: int)
    ensures Mul(a + 1, b) == Mul(a, b) + b
  {
  }

  lemma MulZero(b: int)
    ensures Mul(0, b) == 0
  {
  }

  /** No address comes twice in `p` probes. */
  lemma AddrsDiffer(start: nat, dec: nat, p: nat, i: nat, j: nat)
    requires Prime(p) && start < p && 1 <= dec < p && i < j < p
    ensures Addr(start, dec, p, i) != Addr(start, dec, p, j)
  {
    hide Addr, Prime, Wraps;
    AddrIs(start, dec, p, i);
    AddrIs(start, dec, p, j);
    var v, w := Wraps(start, dec, p, i), Wraps(start, dec, p, j);
    assert (j - i) * dec == j * dec - i * dec && (w - v) * p == w * p - v * p;
    NoProduct(p, dec, j - i, w - v);
  }

  /** The slots of the first `n` probes. */
  ghost function Visited(start: nat, dec: nat, p: nat, n: nat): (v: set<nat>)
    requires start < p && 1 <= dec < p
    ensures forall a :: a in v ==> a < p
  {
    if n == 0 then {} else Visited(start, dec, p, n - 1) + {Addr(start, dec, p, n - 1)}
  }

  lemma {:induction false} VisitedIndex(start: nat, dec: nat, p: nat, n: nat, a: nat) returns (i: nat)
    requires start < p && 1 <= dec < p && a in Visited(start, dec, p, n)
    ensures i < n && Addr(start, dec, p, i) == a
  {
    hide Addr;
    if a == Addr(start, dec, p, n - 1) {
      i := n - 1;
    } else {
      i := VisitedIndex(start, dec, p, n - 1, a);
    }
  }

  lemma {:induction false} VisitedCount(start: nat, dec: nat, p: nat, n: nat)
    requires Prime(p) && start < p && 1 <= dec < p && n <= p
    ensures |Visited(start, dec, p, n)| == n
  {
    hide Addr, Prime;
    if n > 0 {
      VisitedCount(start, dec, p, n - 1);
      var a := Addr(start, dec, p, n - 1);
      if a in Visited(start, dec, p, n - 1) {
        var i := VisitedIndex(start, dec, p, n - 1, a);
        AddrsDiffer(start, dec, p, i, n - 1);
      }
    }
  }

  ghost function Below(n: nat): (s: set<nat>)
    ensures forall a :: a in s ==> a < n
  {
    if n == 0 then {} else
      var m: nat := n - 1;
      Below(m) + {m}
  }

  lemma {:induction false} BelowCount(n: nat)
    ensures |Below(n)| == n
  {
    if n > 0 { BelowCount(n - 1); }
  }

  lemma {:induction false} BelowHas(n: nat, a: nat)
    requires a < n
    ensures a in Below(n)
  {
    if a < n - 1 { BelowHas(n - 1, a); }
  }

  lemma SubsetEqual(a: set<nat>, b: set<nat>)
    requires a <= b && |a| == |b|
    ensures a == b
  {
    var rest := b - a;
    assert a + rest == b;
    assert |rest| == 0;
  }

  /** Within `p` probes every slot is visited. */
  lemma AllVisited(start: nat, dec: nat, p: nat, slot: nat) returns (i: nat)
    requires Prime(p) && start < p && 1 <= dec < p && slot < p
    ensures i < p && Addr(start, dec, p, i) == slot
  {
    hide Addr, Prime, Visited, Below;
    VisitedCount(start, dec, p, p);
    BelowCount(p);
    forall a | a in Visited(start, dec, p, p) ensures a in Below(p) { BelowHas(p, a); }
    SubsetEqual(Visited(start, dec, p, p), Below(p));
    BelowHas(p, slot);
    i := VisitedIndex(start, dec, p, p, slot);
  }
}
