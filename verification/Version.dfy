/** Debian version numbers (section 5.6.12 of Debian Policy) and `dpkg`'s comparison of them. */
module Version {

  predicate IsDigit(c: char) { '0' <= c <= '9' }
  predicate IsAlpha(c: char) { 'a' <= c <= 'z' || 'A' <= c <= 'Z' }

  /** `order`: the tilde sorts before everything, even the end of a part; letters before all
      other characters. */
  function Order(c: char): (r: int)
    ensures !IsDigit(c) && c != '\0' ==> r != 0
    ensures r <= 0 <==> c == '~' || c == '\0' || IsDigit(c)
  {
    if c == '~' then -1 else if c == '\0' || IsDigit(c) then 0 else if IsAlpha(c) then c as int else c as int + 256
  }

  // ----- what a version means -----

  /** How many digits `s` starts with. */
  function Digits(s: string): (n: nat)
    ensures n <= |s| && (forall i :: 0 <= i < n ==> IsDigit(s[i])) && (n < |s| ==> !IsDigit(s[n]))
  {
    if s != "" && IsDigit(s[0]) then 1 + Digits(s[1..]) else 0
  }

  function DigitValue(c: char): (d: nat)
    requires IsDigit(c)
    ensures d <= 9
  {
    c as int - '0' as int
  }

  function Value(ds: string): (v: nat)
    requires forall i :: 0 <= i < |ds| ==> IsDigit(ds[i])
    decreases |ds|
  {
    if ds == "" then 0 else 10 * Value(ds[..|ds| - 1]) + DigitValue(ds[|ds| - 1])
  }

  /** A part of a version as numbers: the orders of its non-digits, a zero that ends them, and
      the value of the digits after them; and so on. */
  function Key(s: string): (k: seq<int>)
    decreases |s|, 1
  {
    if s != "" && !IsDigit(s[0]) then [Order(s[0])] + Key(s[1..]) else [0] + NumberKey(s)
  }

  function NumberKey(s: string): (k: seq<int>)
    decreases |s|, 0
  {
    var n := Digits(s);
    [Value(s[..n])] + if n == |s| || n == 0 then [] else Key(s[n..])
  }

  /** Lexicographic comparison, with zeros after the end. */
  function Compare(a: seq<int>, b: seq<int>): (r: int)
    ensures -1 <= r <= 1
    decreases |a| + |b|
  {
    if a == [] && b == [] then 0
    else
      var x, y := if a == [] then 0 else a[0], if b == [] then 0 else b[0];
      if x < y then -1 else if x > y then 1
      else Compare(if a == [] then [] else a[1..], if b == [] then [] else b[1..])
  }

  // ----- the order is a total preorder -----

  lemma {:induction false} CompareSame(a: seq<int>)
    ensures Compare(a, a) == 0
  {
    if a != [] { CompareSame(a[1..]); }
  }

  lemma {:induction false} CompareSwap(a: seq<int>, b: seq<int>)
    ensures Compare(b, a) == -Compare(a, b)
    decreases |a| + |b|
  {
    if a != [] || b != [] { CompareSwap(if a == [] then [] else a[1..], if b == [] then [] else b[1..]); }
  }

  lemma {:induction false} CompareChain(a: seq<int>, b: seq<int>, c: seq<int>)
    requires Compare(a, b) <= 0 && Compare(b, c) <= 0
    ensures Compare(a, c) <= 0
    ensures Compare(a, b) < 0 || Compare(b, c) < 0 ==> Compare(a, c) < 0
    decreases |a| + |b| + |c|
  {
    if a != [] || b != [] || c != [] {
      var x, y, z := if a == [] then 0 else a[0], if b == [] then 0 else b[0], if c == [] then 0 else c[0];
      if x == y == z {
        CompareChain(if a == [] then [] else a[1..], if b == [] then [] else b[1..], if c == [] then [] else c[1..]);
      }
    }
  }

  function Sign(x: int): (r: int) {
    if x < 0 then -1 else if x > 0 then 1 else 0
  }

  // ----- numbers by their digits -----

  function Pow10(n: nat): (r: nat)
    ensures r >= 1
  {
    if n == 0 then 1 else 10 * Pow10(n - 1)
  }

  lemma {:induction false} ValueBounds(ds: string)
    requires forall i :: 0 <= i < |ds| ==> IsDigit(ds[i])
    ensures Value(ds) < Pow10(|ds|)
    ensures ds != "" && ds[0] != '0' ==> Value(ds) >= Pow10(|ds| - 1)
    decreases |ds|
  {
    if |ds| > 1 {
      ValueBounds(ds[..|ds| - 1]);
    } else if |ds| == 1 {
      assert ds[..0] == "";
    }
  }

  lemma {:induction false} SkipZeros(z: string, ds: string)
    requires (forall i :: 0 <= i < |z| ==> z[i] == '0') && forall i :: 0 <= i < |ds| ==> IsDigit(ds[i])
    ensures (forall i :: 0 <= i < |z + ds| ==> IsDigit((z + ds)[i])) && Value(z + ds) == Value(ds)
    decreases |z| + |ds|
  {
    var s := z + ds;
    if ds != "" {
      assert s[..|s| - 1] == z + ds[..|ds| - 1];
      SkipZeros(z, ds[..|ds| - 1]);
    } else if z != "" {
      assert s == z && s[..|s| - 1] == z[..|z| - 1] + "";
      SkipZeros(z[..|z| - 1], "");
    }
  }

  lemma {:induction false} Pow10Mono(a: nat, b: nat)
    requires a <= b
    ensures Pow10(a) <= Pow10(b)
    decreases b
  {
    if a < b { Pow10Mono(a, b - 1); }
  }

  /** Without leading zeros, more digits make a larger number. */
  lemma LongerIsLarger(a: string, b: string)
    requires (forall i :: 0 <= i < |a| ==> IsDigit(a[i])) && forall i :: 0 <= i < |b| ==> IsDigit(b[i])
    requires |a| > |b| && a[0] != '0'
    ensures Value(a) > Value(b)
  {
    ValueBounds(a);
    ValueBounds(b);
    Pow10Mono(|b|, |a| - 1);
  }

  // ----- the comparison -----

  lemma KeyCons(s: string)
    requires s != "" && !IsDigit(s[0])
    ensures Key(s) == [Order(s[0])] + Key(s[1..])
  {
  }

  lemma KeyNumber(s: string)
    requires s == "" || IsDigit(s[0])
    ensures Key(s) == [0] + NumberKey(s)
  {
  }

  lemma CompareHeads(a: seq<int>, b: seq<int>, x: int, y: int)
    ensures Compare([x] + a, [y] + b) == if x < y then -1 else if x > y then 1 else Compare(a, b)
  {
    assert ([x] + a)[1..] == a && ([y] + b)[1..] == b;
  }

  /** The order of the character at the start of what is left, or of its end. */
  function First(s: string, i: nat): (c: char) {
    if i < |s| then s[i] else '\0'
  }

  ghost predicate NoNul(s: string) {
    forall i :: 0 <= i < |s| ==> s[i] != '\0'
  }

  /** What is left to compare decides. */
  ghost predicate Left(v: string, r: string, i: nat, j: nat) {
    i <= |v| && j <= |r| && Compare(Key(v), Key(r)) == Compare(Key(v[i..]), Key(r[j..]))
  }

  /** Different characters decide; equal ones are passed. */
  lemma LeftStep(v: string, r: string, i: nat, j: nat)
    requires NoNul(v) && NoNul(r) && Left(v, r, i, j)
    requires (i < |v| && !IsDigit(v[i])) || (j < |r| && !IsDigit(r[j]))
    ensures var d := Order(First(v, i)) - Order(First(r, j));
            if d != 0 then Compare(Key(v), Key(r)) == Sign(d) else i < |v| && j < |r| && Left(v, r, i + 1, j + 1)
  {
    hide Key, Compare, Order;
    var a, b := v[i..], r[j..];
    var x, y := Order(First(v, i)), Order(First(r, j));
    if i < |v| && !IsDigit(v[i]) {
      KeyCons(a);
      assert a[1..] == v[i + 1..];
      assert v[i] != '\0';
    } else {
      KeyNumber(a);
      EndOrder(First(v, i));
    }
    if j < |r| && !IsDigit(r[j]) {
      KeyCons(b);
      assert b[1..] == r[j + 1..];
      assert r[j] != '\0';
    } else {
      KeyNumber(b);
      EndOrder(First(r, j));
    }
    CompareHeads(if i < |v| && !IsDigit(v[i]) then Key(v[i + 1..]) else NumberKey(a),
                 if j < |r| && !IsDigit(r[j]) then Key(r[j + 1..]) else NumberKey(b), x, y);
  }

  lemma EndOrder(c: char)
    requires c == '\0' || IsDigit(c)
    ensures Order(c) == 0
  {
  }

  /** The numbers decide, or what follows them. */
  lemma LeftNumbers(v: string, r: string, i: nat, j: nat, m: nat, n: nat)
    requires Left(v, r, i, j) && (i == |v| || IsDigit(v[i])) && (j == |r| || IsDigit(r[j]))
    requires m == Digits(v[i..]) && n == Digits(r[j..])
    ensures var x, y := Value(v[i..][..m]), Value(r[j..][..n]);
            if x != y then Compare(Key(v), Key(r)) == Sign(x - y) else Left(v, r, i + m, j + n)
  {
    hide Compare, Value, Digits;
    var a, b := v[i..], r[j..];
    KeyNumber(a);
    KeyNumber(b);
    CompareHeads(NumberKey(a), NumberKey(b), 0, 0);
    var x, y := Value(a[..m]), Value(b[..n]);
    var s, t := Rest(a, m), Rest(b, n);
    CompareHeads(s, t, x, y);
    RestKey(v, i, m);
    RestKey(r, j, n);
    Padded(s, t, Key(v[i + m..]), Key(r[j + n..]));
  }

  function Rest(a: string, m: nat): (k: seq<int>)
    requires m <= |a|
  {
    if m == |a| || m == 0 then [] else Key(a[m..])
  }

  /** What follows a number is as good as nothing but zeros if there is nothing. */
  ghost predicate Same(a: seq<int>, b: seq<int>) {
    a == b || (a == [] && b == [0, 0])
  }

  lemma RestKey(v: string, i: nat, m: nat)
    requires i <= |v| && m == Digits(v[i..]) && (i == |v| || IsDigit(v[i]))
    ensures i + m <= |v| && Same(Rest(v[i..], m), Key(v[i + m..]))
  {
    var a := v[i..];
    assert a[m..] == v[i + m..];
    if m == |a| {
      assert v[i + m..] == "";
      assert ""[..0] == "";
    }
  }

  lemma Padded(a: seq<int>, b: seq<int>, a': seq<int>, b': seq<int>)
    requires Same(a, a') && Same(b, b')
    ensures Compare(a, b) == Compare(a', b')
  {
    if a' != a && b' == b { ZerosAfter(b); }
    if a' == a && b' != b { ZerosAfter(a); CompareSwap(a, []); CompareSwap(a, [0, 0]); }
    if a' != a && b' != b { ZerosAfter([0, 0]); }
  }

  lemma ZerosAfter(b: seq<int>)
    ensures Compare([0, 0], b) == Compare([], b)
  {
    assert [0, 0][1..] == [0] && [0][1..] == [];
    if |b| >= 2 && b[0] == 0 && b[1] == 0 {
      assert Compare([], b) == Compare([], b[1..]) == Compare([], b[1..][1..]);
    }
  }

  /** A tilde sorts before the end of a part: `p~x` is older than `p`. */
  lemma {:induction false} TildeFirst(p: string, x: string)
    ensures Compare(Key(p + "~" + x), Key(p)) < 0
    decreases |p|
  {
    hide Compare, Value, Digits, Key;
    var s := p + "~" + x;
    if p != "" && !IsDigit(p[0]) {
      KeyCons(s);
      KeyCons(p);
      assert s[1..] == p[1..] + "~" + x;
      CompareHeads(Key(s[1..]), Key(p[1..]), Order(p[0]), Order(p[0]));
      TildeFirst(p[1..], x);
    } else {
      KeyNumber(p);
      if p == "" {
        KeyCons(s);
        CompareHeads(Key(s[1..]), NumberKey(p), Order('~'), 0);
      } else {
        KeyNumber(s);
        CompareHeads(NumberKey(s), NumberKey(p), 0, 0);
        TildeNumber(p, x);
        var n := Digits(p);
        var t := p[n..] + "~" + x;
        CompareHeads(Key(t), Rest(p, n), Value(p[..n]), Value(p[..n]));
        if n == |p| {
          assert t == "~" + x;
          TildeAlone(x);
        } else {
          TildeFirst(p[n..], x);
        }
      }
    }
  }

  lemma TildeAlone(x: string)
    ensures Compare(Key("~" + x), []) < 0
  {
  }

  lemma TildeNumber(p: string, x: string)
    requires p != "" && IsDigit(p[0])
    ensures Digits(p) >= 1 && NumberKey(p) == [Value(p[..Digits(p)])] + Rest(p, Digits(p))
    ensures NumberKey(p + "~" + x) == [Value(p[..Digits(p)])] + Key(p[Digits(p)..] + "~" + x)
  {
    hide Value, Key;
    var s, n := p + "~" + x, Digits(p);
    DigitsIs(s, n, 0, p[..n]);
    assert s[..n] == p[..n] && s[n..] == p[n..] + "~" + x;
  }

  // The methods keep positions where the source advances pointers.

  /** The characters up to the next number: they decide, or leave only numbers. */
  method CompareText(val: string, ref_: string, i0: nat, j0: nat) returns (r: int, i: nat, j: nat)
    requires NoNul(val) && NoNul(ref_) && Left(val, ref_, i0, j0)
    ensures r != 0 ==> Compare(Key(val), Key(ref_)) == Sign(r)
    ensures r == 0 ==>
              Left(val, ref_, i, j) && (i == |val| || IsDigit(val[i])) && (j == |ref_| || IsDigit(ref_[j])) && i0 <= i
              && j0 <= j
  {
    hide Left, Key, Compare, Order;
    r, i, j := 0, i0, j0;
    LeftBounds(val, ref_, i, j);
    while (i < |val| && !IsDigit(val[i])) || (j < |ref_| && !IsDigit(ref_[j]))
      invariant i0 <= i <= |val| && j0 <= j <= |ref_| && Left(val, ref_, i, j)
      decreases |val| - i
    {
      LeftStep(val, ref_, i, j);
      var vc, rc := Order(First(val, i)), Order(First(ref_, j));
      if vc != rc { return vc - rc, i, j; }
      i, j := i + 1, j + 1;
    }
  }

  lemma LeftBounds(v: string, r: string, i: nat, j: nat)
    requires Left(v, r, i, j)
    ensures i <= |v| && j <= |r|
  {
  }

  /** Zeros before a number. */
  method PassZeros(s: string, i0: nat) returns (i: nat)
    requires i0 <= |s|
    ensures i0 <= i <= |s| && (forall k :: i0 <= k < i ==> s[k] == '0') && (i < |s| ==> s[i] != '0')
  {
    i := i0;
    while i < |s| && s[i] == '0'
      invariant i0 <= i <= |s| && forall k :: i0 <= k < i ==> s[k] == '0'
    {
      i := i + 1;
    }
  }

  ghost predicate AllDigits(s: string) {
    forall k :: 0 <= k < |s| ==> IsDigit(s[k])
  }

  lemma ValueStep(s: string, c: char)
    requires AllDigits(s) && IsDigit(c)
    ensures AllDigits(s + [c]) && Value(s + [c]) == 10 * Value(s) + DigitValue(c)
  {
    assert (s + [c])[..|s|] == s;
  }

  lemma NoDigits()
    ensures Value("") == 0
  {
  }

  /** One more digit does not change which number is larger. */
  lemma SignStep(x: nat, y: nat, c: nat, d: nat)
    requires c <= 9 && d <= 9
    ensures Sign((10 * x + c) - (10 * y + d)) == if x == y then Sign(c - d) else Sign(x - y)
  {
  }

  /** Digit by digit: the first difference is the difference of the numbers, as long as both go on. */
  method CompareDigits(val: string, ref_: string, i0: nat, j0: nat) returns (diff: int, n: nat)
    requires i0 <= |val| && j0 <= |ref_|
    ensures i0 + n <= |val| && j0 + n <= |ref_| && AllDigits(val[i0 .. i0 + n]) && AllDigits(ref_[j0 .. j0 + n])
    ensures Sign(diff) == Sign(Value(val[i0 .. i0 + n]) - Value(ref_[j0 .. j0 + n]))
    ensures i0 + n == |val| || j0 + n == |ref_| || !IsDigit(val[i0 + n]) || !IsDigit(ref_[j0 + n])
  {
    hide Value;
    diff, n := 0, 0;
    NoDigits();
    assert val[i0 .. i0] == "" && ref_[j0 .. j0] == "";
    while i0 + n < |val| && j0 + n < |ref_| && IsDigit(val[i0 + n]) && IsDigit(ref_[j0 + n])
      invariant i0 + n <= |val| && j0 + n <= |ref_| && AllDigits(val[i0 .. i0 + n]) && AllDigits(ref_[j0 .. j0 + n])
      invariant Sign(diff) == Sign(Value(val[i0 .. i0 + n]) - Value(ref_[j0 .. j0 + n]))
      decreases |val| - n
    {
      ValueStep(val[i0 .. i0 + n], val[i0 + n]);
      ValueStep(ref_[j0 .. j0 + n], ref_[j0 + n]);
      SignStep(Value(val[i0 .. i0 + n]), Value(ref_[j0 .. j0 + n]), DigitValue(val[i0 + n]), DigitValue(ref_[j0 + n]));
      assert val[i0 .. i0 + n + 1] == val[i0 .. i0 + n] + [val[i0 + n]];
      assert ref_[j0 .. j0 + n + 1] == ref_[j0 .. j0 + n] + [ref_[j0 + n]];
      if diff == 0 {
        diff := val[i0 + n] as int - ref_[j0 + n] as int;
      }
      n := n + 1;
    }
  }

  /** A number is its zeros and the rest of its digits. */
  lemma NumberAt(s: string, i: nat, z: nat, e: nat)
    requires i <= z <= e <= |s| && (forall k :: i <= k < z ==> s[k] == '0') && AllDigits(s[z..e])
             && (e < |s| ==> !IsDigit(s[e]))
    ensures Digits(s[i..]) == e - i && Value(s[i..][..e - i]) == Value(s[z..e])
  {
    hide Value;
    DigitsIs(s[i..], e - i, z - i, s[z..e]);
    SkipZeros(s[i..z], s[z..e]);
    assert s[i..][..e - i] == s[i..z] + s[z..e];
  }

  lemma {:induction false} DigitsIs(s: string, n: nat, z: nat, ds: string)
    requires z <= n <= |s| && (forall k :: 0 <= k < z ==> s[k] == '0') && s[z..n] == ds && AllDigits(ds)
             && (n < |s| ==> !IsDigit(s[n]))
    ensures Digits(s) == n
    decreases n
  {
    if n > 0 {
      if z == 0 { assert s[0] == ds[0]; }
      assert s[1..][if z == 0 then 0 else z - 1..n - 1] == if z == 0 then ds[1..] else ds;
      DigitsIs(s[1..], n - 1, if z == 0 then 0 else z - 1, if z == 0 then ds[1..] else ds);
    }
  }

  /** The numbers at `i` and `j`: they decide, or both are passed. */
  method CompareNumbers(val: string, ref_: string, i0: nat, j0: nat) returns (r: int, i: nat, j: nat)
    requires Left(val, ref_, i0, j0) && (i0 == |val| || IsDigit(val[i0])) && (j0 == |ref_| || IsDigit(ref_[j0]))
    ensures r != 0 ==> Compare(Key(val), Key(ref_)) == Sign(r)
    ensures r == 0 ==>
              Left(val, ref_, i, j) && i0 <= i && j0 <= j && (i0 < |val| ==> i0 < i) && (j0 < |ref_| ==> j0 < j)
  {
    hide Left, Key, Compare, Value, Digits;
    LeftBounds(val, ref_, i0, j0);
    var y := PassZeros(val, i0);
    var z := PassZeros(ref_, j0);
    var diff, n := CompareDigits(val, ref_, y, z);
    i, j := y + n, z + n;
    ghost var e, f := i + Digits(val[i..]), j + Digits(ref_[j..]);
    WholeNumber(val, y, i, e);
    WholeNumber(ref_, z, j, f);
    NumberAt(val, i0, y, e);
    NumberAt(ref_, j0, z, f);
    LeftNumbers(val, ref_, i0, j0, e - i0, f - j0);
    if i < |val| && IsDigit(val[i]) {
      r := 1;
      NoMoreDigits(ref_, j, f);
      assert val[y] != '0';
      LongerIsLarger(val[y..e], ref_[z..f]);
    } else if j < |ref_| && IsDigit(ref_[j]) {
      r := -1;
      NoMoreDigits(val, i, e);
      assert ref_[z] != '0';
      LongerIsLarger(ref_[z..f], val[y..e]);
    } else {
      r := diff;
      NoMoreDigits(val, i, e);
      NoMoreDigits(ref_, j, f);
    }
  }

  lemma WholeNumber(s: string, y: nat, i: nat, e: nat)
    requires y <= i <= |s| && AllDigits(s[y..i]) && e == i + Digits(s[i..])
    ensures i <= e <= |s| && AllDigits(s[y..e]) && (e < |s| ==> !IsDigit(s[e])) && (i < |s| && IsDigit(s[i]) ==> i < e)
  {
    var t := s[i..];
    forall k | 0 <= k < |s[y..e]| ensures IsDigit(s[y..e][k]) {
      if k < i - y {
        assert s[y..e][k] == s[y..i][k];
      } else {
        assert s[y..e][k] == t[k - (i - y)];
      }
    }
  }

  lemma NoMoreDigits(s: string, i: nat, e: nat)
    requires i <= |s| && e == i + Digits(s[i..]) && (i == |s| || !IsDigit(s[i]))
    ensures e == i
  {
  }

  /** `version_compare_part`: the sign of the result is that of the comparison of the keys. */
  method VersionComparePart(val: string, ref_: string) returns (r: int)
    requires NoNul(val) && NoNul(ref_)
    ensures Sign(r) == Compare(Key(val), Key(ref_))
  {
    hide Left, Key, Compare;
    var i: nat, j: nat := 0, 0;
    LeftStart(val, ref_);
    while i < |val| || j < |ref_|
      invariant i <= |val| && j <= |ref_| && Left(val, ref_, i, j)
      decreases |val| + |ref_| - i - j
    {
      r, i, j := CompareText(val, ref_, i, j);
      if r != 0 { return; }
      LeftBounds(val, ref_, i, j);
      r, i, j := CompareNumbers(val, ref_, i, j);
      if r != 0 { return; }
      LeftBounds(val, ref_, i, j);
    }
    LeftEnd(val, ref_);
    return 0;
  }

  lemma LeftStart(v: string, r: string)
    ensures Left(v, r, 0, 0)
  {
    assert v[0..] == v && r[0..] == r;
  }

  lemma LeftEnd(v: string, r: string)
    requires Left(v, r, |v|, |r|)
    ensures Compare(Key(v), Key(r)) == 0
  {
    assert v[|v|..] == "" && r[|r|..] == "";
    CompareSame(Key(""));
  }

  // ----- whole versions -----

  predicate IsSpace(c: char) {
    c == ' ' || '\t' <= c <= '\r'
  }

  /** `atoi`: spaces, a sign, and digits up to the first other character. */
  function Atoi(s: string): (v: int) {
    if s != "" && IsSpace(s[0]) then Atoi(s[1..])
    else if s != "" && s[0] == '-' then 0 - Value(s[1..][..Digits(s[1..])])
    else if s != "" && s[0] == '+' then Value(s[1..][..Digits(s[1..])])
    else Value(s[..Digits(s)])
  }

  /** The position of the first `c`, or the length of the string: `strchr`. */
  function Find(s: string, c: char): (i: nat)
    ensures i <= |s| && (i < |s| ==> s[i] == c) && forall k :: 0 <= k < i ==> s[k] != c
  {
    if s == "" || s[0] == c then 0 else 1 + Find(s[1..], c)
  }

  lemma {:induction false} FindAt(a: string, b: string, c: char)
    requires c !in a && (b == "" || b[0] == c)
    ensures Find(a + b, c) == |a|
    decreases |a|
  {
    if a == "" {
      assert a + b == b;
    } else {
      assert (a + b)[1..] == a[1..] + b;
      FindAt(a[1..], b, c);
    }
  }

  /** The position of the last `c`, or the length of the string: `strrchr`. */
  function FindLast(s: string, c: char): (i: nat)
    ensures i <= |s| && (i < |s| ==> s[i] == c && forall k :: i < k < |s| ==> s[k] != c)
    ensures i == |s| ==> forall k :: 0 <= k < |s| ==> s[k] != c
  {
    if s == "" then 0
    else
      var j := FindLast(s[1..], c);
      if j < |s| - 1 then 1 + j else if s[0] == c then 0 else |s|
  }

  datatype Parts = Parts(epoch: nat, upstream: string, revision: string)

  /** A version is an epoch before the first colon, an upstream version, and a revision after
      the last hyphen; the epoch is kept in 32 bits. */
  function Split(s: string): (p: Parts) {
    var colon := Find(s, ':');
    if colon < |s| then Behind(Atoi(s) % 0x1_0000_0000, s[colon + 1..]) else Behind(0, s)
  }

  function Behind(epoch: nat, rest: string): (p: Parts) {
    var dash := FindLast(rest, '-');
    Parts(epoch, rest[..dash], if dash < |rest| then rest[dash + 1..] else "")
  }

  /** Epoch, then upstream version, then revision. */
  function CompareVersions(a: string, b: string): (r: int)
    ensures -1 <= r <= 1
  {
    var p, q := Split(a), Split(b);
    if p.epoch != q.epoch then Sign(p.epoch - q.epoch)
    else
      var up := Compare(Key(p.upstream), Key(q.upstream));
      if up != 0 then up else Compare(Key(p.revision), Key(q.revision))
  }

  /** The comparison is a total preorder: reflexive, antisymmetric in its sign, and transitive. */
  lemma Reflexive(a: string)
    ensures CompareVersions(a, a) == 0
  {
    hide Split, Compare, Key;
    CompareSame(Key(Split(a).upstream));
    CompareSame(Key(Split(a).revision));
  }

  lemma Antisymmetric(a: string, b: string)
    ensures CompareVersions(b, a) == -CompareVersions(a, b)
  {
    hide Split, Compare, Key;
    CompareSwap(Key(Split(a).upstream), Key(Split(b).upstream));
    CompareSwap(Key(Split(a).revision), Key(Split(b).revision));
  }

  lemma Transitive(a: string, b: string, c: string)
    requires CompareVersions(a, b) <= 0 && CompareVersions(b, c) <= 0
    ensures CompareVersions(a, c) <= 0
    ensures CompareVersions(a, b) < 0 || CompareVersions(b, c) < 0 ==> CompareVersions(a, c) < 0
  {
    hide Split, Compare, Key;
    var p, q, r := Split(a), Split(b), Split(c);
    if p.epoch == q.epoch == r.epoch {
      CompareChain(Key(p.upstream), Key(q.upstream), Key(r.upstream));
      CompareSwap(Key(p.upstream), Key(q.upstream));
      if Compare(Key(p.upstream), Key(q.upstream)) == 0 && Compare(Key(q.upstream), Key(r.upstream)) == 0 {
        CompareChain(Key(r.upstream), Key(q.upstream), Key(p.upstream)) by {
          CompareSwap(Key(q.upstream), Key(r.upstream));
        }
        CompareSwap(Key(p.upstream), Key(r.upstream));
        CompareChain(Key(p.revision), Key(q.revision), Key(r.revision));
      }
    }
  }

  lemma SplitNoNul(s: string)
    requires NoNul(s)
    ensures NoNul(Split(s).upstream) && NoNul(Split(s).revision)
  {
    hide Atoi;
  }

  /** The epoch and what follows it. */
  method TakeEpoch(ver: string) returns (epoch: nat, rest: string)
    ensures Split(ver) == Behind(epoch, rest)
  {
    hide Behind, Atoi;
    epoch, rest := 0, ver;
    var colon := Find(ver, ':');
    if colon < |ver| { epoch, rest := Atoi(ver) % 0x1_0000_0000, ver[colon + 1..]; }
  }

  /** The revision is chopped off. */
  method ChopRevision(rest: string) returns (upstream: string, revision: string)
    ensures forall epoch :: Behind(epoch, rest) == Parts(epoch, upstream, revision)
  {
    upstream, revision := rest, "";
    var dash := FindLast(rest, '-');
    if dash < |rest| {
      upstream, revision := rest[..dash], rest[dash + 1..];
    } else {
      assert rest[..dash] == rest;
    }
  }

  /** `version_compare`. */
  method VersionCompare(ver1: string, ver2: string) returns (result: int)
    requires NoNul(ver1) && NoNul(ver2)
    ensures Sign(result) == CompareVersions(ver1, ver2)
  {
    hide Compare, Key, Split, Behind;
    SplitNoNul(ver1);
    SplitNoNul(ver2);
    var epoch1, rest1 := TakeEpoch(ver1);
    var epoch2, rest2 := TakeEpoch(ver2);
    var upstream1, revision1 := ChopRevision(rest1);
    var upstream2, revision2 := ChopRevision(rest2);
    if epoch1 < epoch2 { return -1; }
    if epoch1 > epoch2 { return 1; }
    result := VersionComparePart(upstream1, upstream2);
    if result == 0 {
      result := VersionComparePart(revision1, revision2);
    }
  }

  datatype Operator = VerNull | VerEqual | VerLess | VerLessEqual | VerMore | VerMoreEqual | VerAny

  /** The relation an operator stands for. */
  predicate Holds(op: Operator, cmp: int) {
    match op
    case VerAny => true
    case VerEqual => cmp == 0
    case VerLess => cmp < 0
    case VerLessEqual => cmp <= 0
    case VerMore => cmp > 0
    case VerMoreEqual => cmp >= 0
    case VerNull => false
  }

  /** `test_version`. */
  method TestVersion(version1: string, version2: string, op: Operator) returns (ok: bool)
    requires NoNul(version1) && NoNul(version2)
    ensures ok == Holds(op, CompareVersions(version1, version2))
  {
    hide CompareVersions;
    var result := VersionCompare(version1, version2);
    match op {
      case VerAny => ok := true;
      case VerEqual => ok := result == 0;
      case VerLess => ok := result < 0;
      case VerLessEqual => ok := result <= 0;
      case VerMore => ok := result > 0;
      case VerMoreEqual => ok := result >= 0;
      case VerNull => ok := false;
    }
  }
}
