/** The values of `expr` and its operators. */
module ExprValue {
  import opened Arith

  datatype Value = Int(i: int) | Str(s: string)

  datatype Error = Syntax | NonNumeric | DivisionByZero | Overflow | BadPattern

  datatype Result = Err(e: Error) | Val(v: Value)

  const MAX: int := 0x7fff_ffff_ffff_ffff
  const MIN: int := -0x8000_0000_0000_0000

  predicate Fits(i: int) { MIN <= i <= MAX }

  /** A result that does not fit `arith_t` is an outcome of its own: the source leaves it undefined. */
  function Number(i: int): (r: Result) {
    if Fits(i) then Val(Int(i)) else Err(Overflow)
  }

  // ----- numbers and strings -----

  predicate IsDigit(c: char) { '0' <= c <= '9' }

  function Digits(n: nat): (s: string)
    ensures s != "" && forall k :: 0 <= k < |s| ==> IsDigit(s[k])
    ensures n > 0 ==> s[0] != '0'
  {
    var d := ('0' as int + n % 10) as char;
    if n < 10 then [d] else Digits(n / 10) + [d]
  }

  function Decimal(i: int): (s: string) {
    if i < 0 then "-" + Digits(-i) else Digits(i)
  }

  /** `tostring`. */
  function ToString(v: Value): (s: string) {
    match v case Int(i) => Decimal(i) case Str(s) => s
  }

  predicate IsSpace(c: char) { c == ' ' || '\t' <= c <= '\r' }

  predicate AllDigits(s: string) { forall k :: 0 <= k < |s| ==> IsDigit(s[k]) }

  function Value10(s: string): (v: nat)
    requires AllDigits(s)
    decreases |s|
  {
    if s == "" then 0 else 10 * Value10(s[..|s| - 1]) + (s[|s| - 1] as int - '0' as int)
  }

  function Clamp(i: int): (r: int)
    ensures Fits(r) && (Fits(i) ==> r == i)
  {
    if i < MIN then MIN else if i > MAX then MAX else i
  }

  datatype Parsed = NaN | Parsed(i: int)

  /** What `strtoll` makes of a whole string: spaces, a sign and digits, clamped; anything else,
      or nothing, is no number. */
  function Parse(s: string): (r: Parsed)
    ensures r.Parsed? ==> Fits(r.i)
    decreases |s|
  {
    if s != "" && IsSpace(s[0]) then Parse(s[1..])
    else
      var neg, ds := s != "" && s[0] == '-', if s != "" && (s[0] == '-' || s[0] == '+') then s[1..] else s;
      if ds == "" || !AllDigits(ds) then NaN else Parsed(Clamp(if neg then -(Value10(ds) as int) else Value10(ds)))
  }

  /** `toarith`: a string that is a number becomes one. */
  function ToArith(v: Value): (r: Value) {
    match v
    case Int(_) => v
    case Str(s) => match Parse(s) case NaN => v case Parsed(i) => Int(i)
  }

  /** Turning a number into a string and back gives the number. */
  lemma ParseDecimal(i: int)
    requires Fits(i)
    ensures Parse(Decimal(i)) == Parsed(i)
  {
    hide Digits, Value10;
    DigitsValue(if i < 0 then -i else i);
    var d := Digits(if i < 0 then -i else i);
    assert IsDigit(d[0]);
    if i < 0 { assert Decimal(i)[1..] == d; }
  }

  lemma {:induction false} DigitsValue(n: nat)
    ensures AllDigits(Digits(n)) && Value10(Digits(n)) == n
  {
    var d := ('0' as int + n % 10) as char;
    if n >= 10 {
      DigitsValue(n / 10);
      assert Digits(n)[..|Digits(n)| - 1] == Digits(n / 10);
    } else {
      assert [d][..0] == "";
    }
  }

  /** `null`. */
  predicate Null(v: Value) {
    match v case Int(i) => i == 0 case Str(s) => s == "" || s == "0"
  }

  /** `strcmp`. */
  function StrCmp(a: string, b: string): (r: int) {
    if a == "" && b == "" then 0
    else if a == "" then -1
    else if b == "" then 1
    else if a[0] != b[0] then a[0] as int - b[0] as int
    else StrCmp(a[1..], b[1..])
  }

  // ----- operators -----

  datatype Op = Or | And | Lt | Le | Eq | EqEq | Ne | Ge | Gt | Add | Sub | Mul | Div | Rem | Colon

  /** Division truncates toward zero. */
  function Quotient(a: int, b: int): (q: int)
    requires b != 0
  {
    if (a < 0) == (b < 0) then Abs(a) / Abs(b) else -(Abs(a) / Abs(b))
  }

  function Abs(a: int): (r: nat) { if a < 0 then -a else a }

  /** The remainder is smaller than the divisor and has the sign of the dividend. */
  lemma QuotientRounds(a: int, b: int)
    requires b != 0
    ensures var r := a - Times(Quotient(a, b), b); Abs(r) < Abs(b) && (r == 0 || (r < 0) == (a < 0))
  {
    hide Times;
    var q, m := Abs(a) / Abs(b), Abs(b);
    DivMod(Abs(a), m);
    Signs(q, m);
    Signs(q, b);
  }

  function Times(a: int, b: int): (r: int) { a * b }

  lemma DivMod(a: nat, m: nat)
    requires m > 0
    ensures 0 <= a - Times(a / m, m) < m
  {
  }

  lemma Signs(q: int, b: int)
    ensures Times(-q, b) == -Times(q, b) && Times(q, -b) == -Times(q, b)
  {
  }

  /** `arithmetic_common`. */
  function Arithmetic(op: Op, l: Value, r: Value): (res: Result) {
    var a, b := ToArith(l), ToArith(r);
    if a.Str? || b.Str? then Err(NonNumeric)
    else match op
      case Add => Number(a.i + b.i)
      case Sub => Number(a.i - b.i)
      case Mul => Number(a.i * b.i)
      case _ =>
        if b.i == 0 then Err(DivisionByZero)
        else if !Fits(Quotient(a.i, b.i)) then Err(Overflow)
        else if op == Div then Val(Int(Quotient(a.i, b.i)))
        else Val(Int(a.i - Times(Quotient(a.i, b.i), b.i)))
  }

  function Truth(b: bool): (v: Value) { Int(if b then 1 else 0) }

  /** `cmp_common`, after both sides that are numbers have become numbers. */
  function Comparison(op: Op, l: Value, r: Value): (v: Value) {
    var a, b := ToArith(l), ToArith(r);
    var d := if a.Str? || b.Str? then StrCmp(ToString(a), ToString(b)) else a.i - b.i;
    match op
    case Lt => Truth(d < 0)
    case Le => Truth(d <= 0)
    case Eq => Truth(d == 0)
    case EqEq => Truth(d == 0)
    case Ne => Truth(d != 0)
    case Gt => Truth(d > 0)
    case _ => Truth(d >= 0)
  }

  /** What an operator makes of its two values; `colon` is the pattern match. */
  function Apply(colon: (string, string) -> Result, op: Op, l: Value, r: Value): (res: Result) {
    match op
    case Or => Val(if Null(l) then r else l)
    case And => Val(if Null(l) || Null(r) then Int(0) else l)
    case Colon => colon(ToString(l), ToString(r))
    case Lt => Val(Comparison(op, l, r))
    case Le => Val(Comparison(op, l, r))
    case Eq => Val(Comparison(op, l, r))
    case EqEq => Val(Comparison(op, l, r))
    case Ne => Val(Comparison(op, l, r))
    case Ge => Val(Comparison(op, l, r))
    case Gt => Val(Comparison(op, l, r))
    case _ => Arithmetic(op, l, r)
  }

  /** What an operator means on two numbers. */
  ghost predicate Calculated(colon: (string, string) -> Result, op: Op, a: int, b: int, res: Result) {
    match op
    case Add => res == Number(a + b)
    case Sub => res == Number(a - b)
    case Mul => res == Number(a * b)
    case Div => if b == 0 then res == Err(DivisionByZero)
      else if a == MIN && b == -1 then res == Err(Overflow) else res.Val?
    case Rem => if b == 0 then res == Err(DivisionByZero)
      else if a == MIN && b == -1 then res == Err(Overflow) else res.Val?
    case Lt => res == Val(Truth(a < b))
    case Le => res == Val(Truth(a <= b))
    case Eq => res == Val(Truth(a == b))
    case EqEq => res == Val(Truth(a == b))
    case Ne => res == Val(Truth(a != b))
    case Ge => res == Val(Truth(a >= b))
    case Gt => res == Val(Truth(a > b))
    case Or => res == Val(Str(Decimal(if a == 0 then b else a)))
    case And => res == Val(if a == 0 || b == 0 then Int(0) else Str(Decimal(a)))
    case Colon => res == colon(Decimal(a), Decimal(b))
  }

  /** The operators work on numbers that arrive as text, as numbers. */
  lemma Calculates(colon: (string, string) -> Result, op: Op, a: int, b: int)
    requires Fits(a) && Fits(b)
    ensures Calculated(colon, op, a, b, Apply(colon, op, Str(Decimal(a)), Str(Decimal(b))))
  {
    hide Decimal, Parse, Quotient, Times;
    ParseDecimal(a);
    ParseDecimal(b);
    OnlyZero(a);
    OnlyZero(b);
    if b != 0 { QuotientFits(a, b); }
  }

  /** Only zero is written as a single zero. */
  lemma OnlyZero(i: int)
    ensures Decimal(i) != "" && (Decimal(i) == "0" <==> i == 0)
  {
    assert Digits(0) == "0";
    if i < 0 { assert Decimal(i)[0] == '-' && "0"[0] == '0'; }
  }

  /** Only the least number divided by minus one does not fit. */
  lemma QuotientFits(a: int, b: int)
    requires Fits(a) && Fits(b) && b != 0
    ensures Fits(Quotient(a, b)) <==> !(a == MIN && b == -1)
  {
    var x, y := Abs(a), Abs(b);
    assert x / y <= x;
    if y >= 2 { Halves(x, y); }
  }

  lemma Halves(x: nat, y: nat)
    requires y >= 2
    ensures 2 * (x / y) <= x
  {
    hide Times;
    DivMod(x, y);
    AtLeastTwice(x / y, y);
  }

  lemma AtLeastTwice(q: nat, y: nat)
    requires y >= 2
    ensures 2 * q <= Times(q, y)
  {
    assert Times(q, y) == 2 * q + q * (y - 2);
  }

  /** Quotient and remainder of two numbers make up the dividend again. */
  lemma DividesBack(colon: (string, string) -> Result, l: Value, r: Value)
    requires Apply(colon, Div, l, r).Val?
    ensures Apply(colon, Rem, l, r).Val? && ToArith(l).Int? && ToArith(r).Int? && ToArith(r).i != 0
    ensures Apply(colon, Div, l, r).v.Int? && Apply(colon, Rem, l, r).v.Int?
    ensures var a, b, q, m := ToArith(l).i, ToArith(r).i, Apply(colon, Div, l, r).v.i, Apply(colon, Rem, l, r).v.i;
            a == Times(q, b) + m && Abs(m) < Abs(b) && (m == 0 || (m < 0) == (a < 0))
  {
    hide Times, Quotient, ToArith;
    QuotientRounds(ToArith(l).i, ToArith(r).i);
  }

  /** The order of strings is total. */
  lemma {:induction false} StrCmpTotal(a: string, b: string)
    ensures StrCmp(a, b) == 0 <==> a == b
    ensures StrCmp(a, b) < 0 <==> StrCmp(b, a) > 0
    decreases |a|
  {
    if a != "" && b != "" && a[0] == b[0] {
      StrCmpTotal(a[1..], b[1..]);
      assert a == [a[0]] + a[1..] && b == [b[0]] + b[1..];
    }
  }

  lemma {:induction false} StrCmpChain(a: string, b: string, c: string)
    requires StrCmp(a, b) <= 0 && StrCmp(b, c) <= 0
    ensures StrCmp(a, c) <= 0
    decreases |a|
  {
    if a != "" && b != "" && c != "" && a[0] == b[0] && b[0] == c[0] { StrCmpChain(a[1..], b[1..], c[1..]); }
  }

  /** The relations fit together, on numbers and on strings alike: exactly one of less, equal and
      greater holds, and the others are their combinations. */
  lemma Relations(l: Value, r: Value)
    ensures var lt, eq, gt := Comparison(Lt, l, r).i, Comparison(Eq, l, r).i, Comparison(Gt, l, r).i;
            lt + eq + gt == 1 && Comparison(Le, l, r).i == lt + eq && Comparison(Ge, l, r).i == gt + eq
            && Comparison(Ne, l, r).i == lt + gt
    ensures Comparison(Lt, l, r) == Comparison(Gt, r, l)
            && Comparison(Eq, l, r) == Comparison(Eq, r, l) == Comparison(EqEq, l, r)
  {
    hide ToArith, ToString, StrCmp;
    var a, b := ToString(ToArith(l)), ToString(ToArith(r));
    StrCmpTotal(a, b);
    StrCmpTotal(b, a);
  }

  // ----- the string functions -----

  function LengthOf(v: Value): (r: Value) { Int(|ToString(v)|) }

  /** The position of the first character of `s` that is in `chars`, or the length of `s`. */
  function Span(s: string, chars: string): (n: nat)
    ensures n <= |s|
  {
    if s == "" || s[0] in chars then 0 else 1 + Span(s[1..], chars)
  }

  function IndexOf(l: Value, r: Value): (v: Value) {
    var s := ToString(l);
    var n := Span(s, ToString(r));
    if n == |s| then Int(0) else Int(n + 1)
  }

  /** `index` gives the first position, counted from one, that holds one of the characters. */
  lemma IndexFirst(l: Value, r: Value)
    ensures var s, chars, v := ToString(l), ToString(r), IndexOf(l, r);
            && v.Int? && 0 <= v.i <= |s| && (v.i > 0 ==> s[v.i - 1] in chars)
            && forall k :: 0 <= k < (if v.i == 0 then |s| else v.i - 1) ==> s[k] !in chars
  {
    hide ToString;
    SpanFirst(ToString(l), ToString(r));
  }

  lemma {:induction false} SpanFirst(s: string, chars: string)
    ensures var n := Span(s, chars); (forall k :: 0 <= k < n ==> s[k] !in chars) && (n < |s| ==> s[n] in chars)
  {
    if s != "" && s[0] !in chars {
      SpanFirst(s[1..], chars);
      var n := Span(s, chars);
      forall k | 0 <= k < n ensures s[k] !in chars { if k > 0 { assert s[1..][k - 1] !in chars; } }
    }
  }

  /** What `xstrndup` copies: its length is a signed 32-bit number, and a negative one is never used up. */
  function Copied(t: string, n: int): (r: string) {
    if 0 <= n <= |t| then t[..n] else t
  }

  method Xstrndup(s: string, n: int) returns (r: string)
    ensures r == Copied(s, n)
  {
    var m, t := n, 0;
    while m != 0 && t < |s|
      invariant 0 <= t <= |s| && m == n - t && (n >= 0 ==> m >= 0)
      decreases |s| - t
    {
      m, t := m - 1, t + 1;
    }
    r := s[..n - m];
  }

  /** Characters from position `i` on, counted from one; nothing if `i` or `n` is no positive number
      or the position is past the end. The length is cut to 32 bits on its way. */
  function Substring(l: Value, i: Value, n: Value): (v: Value) {
    var s, a, b := ToString(l), ToArith(i), ToArith(n);
    if a.Str? || b.Str? || a.i > |s| || a.i <= 0 || b.i <= 0 then Str("")
    else Str(Copied(s[a.i - 1..], Signed(b.i)))
  }

  /** At most `n` characters from position `i` on. */
  function Promised(l: Value, i: Value, n: Value): (v: Value) {
    var s, a, b := ToString(l), ToArith(i), ToArith(n);
    if a.Str? || b.Str? || a.i > |s| || a.i <= 0 || b.i <= 0 then Str("")
    else
      var t := s[a.i - 1..];
      Str(if b.i <= |t| then t[..b.i] else t)
  }

  /** Exactly when `substr` gives what it should: not where a length of 2^31 or more, cut to 32 bits,
      falls inside the string. */
  lemma SubstringKept(l: Value, i: Value, n: Value)
    requires |ToString(l)| < TWO31
    ensures var s, a, b := ToString(l), ToArith(i), ToArith(n);
            Substring(l, i, n) == Promised(l, i, n) <==>
              !(a.Int? && b.Int? && 0 < a.i <= |s| && b.i >= TWO31 && 0 <= Signed(b.i) < |s| + 1 - a.i)
  {
    hide ToString, ToArith, Signed;
    var s, a, b := ToString(l), ToArith(i), ToArith(n);
    if a.Int? && b.Int? && 0 < a.i <= |s| && b.i > 0 {
      var t, k := s[a.i - 1..], Signed(b.i);
      if 0 <= k < |t| && b.i >= TWO31 { assert |t[..k]| != |t|; }
    }
  }

  /** A length of 2^32 gives nothing. */
  lemma LongSubstring()
    ensures Substring(Str("abc"), Int(1), Int(TWO32)) == Str("")
            && Promised(Str("abc"), Int(1), Int(TWO32)) == Str("abc")
  {
    assert Signed(TWO32) == 0;
    assert "abc"[0..] == "abc";
  }
}
