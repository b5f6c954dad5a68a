/** The rolling hash of the match finder: it forgets everything but the last three bytes. */
module Hash {
  import opened Arith

  const H_SHIFT: nat := 5

  /** The three build options: 13, 14 and 15 bits, all with a shift of 5. */
  predicate HashBits(hb: nat) {
    13 <= hb <= 15
  }

  /** Bitwise exclusive or. */
  function Xor(a: nat, b: nat): (r: nat) {
    if a == 0 && b == 0 then 0 else (a % 2 + b % 2) % 2 + 2 * Xor(a / 2, b / 2)
  }

  /** `UPDATE_HASH`. */
  function Update(h: nat, c: Byte, hb: nat): (r: nat)
    ensures r < Pow2(hb)
  {
    Low(Xor(Shl(h, H_SHIFT), c), hb)
  }

  function Hash3(a: Byte, b: Byte, c: Byte, hb: nat): (r: nat)
    ensures r < Pow2(hb)
  {
    Update(Update(Update(0, a, hb), b, hb), c, hb)
  }

  lemma XorStep(a: nat, b: nat)
    ensures Xor(a, b) == (a % 2 + b % 2) % 2 + 2 * Xor(a / 2, b / 2)
  {
  }

  lemma {:induction false} LowXor(a: nat, b: nat, n: nat)
    ensures Low(Xor(a, b), n) == Xor(Low(a, n), Low(b, n))
    decreases n
  {
    if n > 0 {
      LowXor(a / 2, b / 2, n - 1);
      LowXorStep(a, b, n);
    }
  }

  lemma LowXorStep(a: nat, b: nat, n: nat)
    requires n > 0 && Low(Xor(a / 2, b / 2), n - 1) == Xor(Low(a / 2, n - 1), Low(b / 2, n - 1))
    ensures Low(Xor(a, b), n) == Xor(Low(a, n), Low(b, n))
  {
    hide Xor, Low;
    XorStep(a, b);
    XorStep(Low(a, n), Low(b, n));
    LowStep(a, n);
    LowStep(b, n);
    LowStep(Xor(a, b), n);
  }

  lemma LowStep(a: nat, n: nat)
    requires n > 0
    ensures Low(a, n) == a % 2 + 2 * Low(a / 2, n - 1) && Low(a, n) % 2 == a % 2 && Low(a, n) / 2 == Low(a / 2, n - 1)
  {
  }

  lemma {:induction false} LowLow(a: nat, n: nat, k: nat)
    requires n <= k
    ensures Low(Low(a, k), n) == Low(a, n)
    decreases n
  {
    hide Low;
    if n > 0 {
      LowLow(a / 2, n - 1, k - 1);
      LowStep(a, k);
      LowStep(Low(a, k), n);
      LowStep(a, n);
    } else {
      LowNone(Low(a, k));
      LowNone(a);
    }
  }

  lemma LowNone(a: nat)
    ensures Low(a, 0) == 0
  {
  }

  /** The low `n` bits of a shifted number need only its low `k` bits, if `n <= k + s`. */
  lemma {:induction false} LowShl(a: nat, b: nat, s: nat, k: nat, n: nat)
    requires Low(a, k) == Low(b, k) && n <= k + s
    ensures Low(Shl(a, s), n) == Low(Shl(b, s), n)
    decreases s
  {
    if s == 0 {
      LowLow(a, n, k);
      LowLow(b, n, k);
    } else if n > 0 {
      LowShl(a, b, s - 1, k, n - 1);
      LowDouble(Shl(a, s - 1), n);
      LowDouble(Shl(b, s - 1), n);
    }
  }

  lemma LowDouble(a: nat, n: nat)
    requires n > 0
    ensures Low(2 * a, n) == 2 * Low(a, n - 1)
  {
    hide Low;
    LowStep(2 * a, n);
    assert 2 * a / 2 == a && 2 * a % 2 == 0;
  }

  lemma UpdateLow(h: nat, g: nat, c: Byte, k: nat, n: nat, hb: nat)
    requires Low(h, k) == Low(g, k) && n <= k + H_SHIFT && n <= hb
    ensures Low(Update(h, c, hb), n) == Low(Update(g, c, hb), n)
  {
    hide Low, Xor, Shl;
    LowLow(Xor(Shl(h, H_SHIFT), c), n, hb);
    LowLow(Xor(Shl(g, H_SHIFT), c), n, hb);
    LowXor(Shl(h, H_SHIFT), c, n);
    LowXor(Shl(g, H_SHIFT), c, n);
    LowShl(h, g, H_SHIFT, k, n);
  }

  /** After three bytes, what came before does not matter. */
  lemma Forgets(h: nat, g: nat, a: Byte, b: Byte, c: Byte, hb: nat)
    requires HashBits(hb)
    ensures Update(Update(Update(h, a, hb), b, hb), c, hb) == Update(Update(Update(g, a, hb), b, hb), c, hb)
  {
    hide Update;
    assert Low(h, 0) == Low(g, 0) == 0;
    UpdateLow(h, g, a, 0, 5, hb);
    var h1, g1 := Update(h, a, hb), Update(g, a, hb);
    UpdateLow(h1, g1, b, 5, 10, hb);
    var h2, g2 := Update(h1, b, hb), Update(g1, b, hb);
    UpdateLow(h2, g2, c, 10, hb, hb);
    LowSmall(Update(h2, c, hb), hb);
    LowSmall(Update(g2, c, hb), hb);
  }

  lemma {:induction false} XorCancels(x: nat, a: nat, b: nat)
    requires Xor(x, a) == Xor(x, b)
    ensures a == b
    decreases x + a + b
  {
    hide Xor;
    if x == 0 && a == 0 && b == 0 {
    } else {
      XorStep(x, a);
      XorStep(x, b);
      XorCancels(x / 2, a / 2, b / 2);
    }
  }

  /** Equal hashes and equal first two bytes: the third bytes are equal. */
  lemma ThirdByte(a: Byte, b: Byte, c: Byte, d: Byte, hb: nat)
    requires HashBits(hb) && Hash3(a, b, c, hb) == Hash3(a, b, d, hb)
    ensures c == d
  {
    hide Low, Xor, Shl, Pow2;
    var x := Shl(Update(Update(0, a, hb), b, hb), H_SHIFT);
    LowXor(x, c, hb);
    LowXor(x, d, hb);
    XorCancels(Low(x, hb), Low(c, hb), Low(d, hb));
    Pow2Mono(8, hb);
    Pow2Consts();
    LowSmall(c, hb);
    LowSmall(d, hb);
  }

  /** The hash is ready to take the third byte of a string that starts with `a` and `b`. */
  ghost predicate Rolling(h: nat, a: Byte, b: Byte, hb: nat) {
    forall c: Byte :: Update(h, c, hb) == Hash3(a, b, c, hb)
  }

  lemma RollingStart(a: Byte, b: Byte, hb: nat)
    ensures Rolling(Update(Update(0, a, hb), b, hb), a, b, hb)
  {
    hide Update;
  }

  /** The hash rolls on to the next string. */
  lemma RollingStep(h: nat, a: Byte, b: Byte, c: Byte, hb: nat)
    requires HashBits(hb) && Rolling(h, a, b, hb)
    ensures Update(h, c, hb) == Hash3(a, b, c, hb) && Rolling(Update(h, c, hb), b, c, hb)
  {
    hide Update;
    forall d: Byte ensures Update(Update(h, c, hb), d, hb) == Hash3(b, c, d, hb) {
      Forgets(Update(0, a, hb), 0, b, c, d, hb);
    }
  }
}
