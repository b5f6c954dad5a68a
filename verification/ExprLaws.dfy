/** What the operators of `expr` do, on whole command lines and in terms of their text. */
module ExprLaws {
  import opened Expr
  import opened ExprParse
  import opened ExprRun
  import opened ExprValue

  /** An argument that is taken as an operand. */
  predicate Operand(s: string) { KeywordOf(s) == NoKeyword && s != "(" && s != ")" }

  /** The program prints this line, and ends with this status. */
  ghost predicate Prints(colon: Matcher, args: seq<string>, line: string, status: nat) {
    forall o :: Outcomes(colon, args, o) ==> o == Printed(line + "\n", status)
  }

  // ----- null values -----

  /** A value is null exactly if its text is empty or a single zero. */
  lemma NullText(v: Value)
    ensures Null(v) <==> ToString(v) == "" || ToString(v) == "0"
  {
    if v.Int? { OnlyZero(v.i); }
  }

  // ----- one operator -----

  lemma Alone(s: string, p: nat)
    requires Operand(s)
    ensures Render(Leaf(s), p) == [s]
  {
  }

  lemma TwoOperands(colon: Matcher, x: string, op: Op, y: string)
    requires Operand(x) && Operand(y)
    ensures forall o :: Outcomes(colon, [x, Token(op), y], o) ==> o == Show(Apply(colon, op, Str(x), Str(y)))
  {
    hide Apply, Outcomes, Show, Token, Level, KeywordOf;
    var t := Bin(op, Leaf(x), Leaf(y));
    Alone(x, Level(op));
    Alone(y, Level(op) + 1);
    assert Render(t, 0) == [x, Token(op), y];
    assert Meaning(colon, t) == Apply(colon, op, Str(x), Str(y));
    forall o | Outcomes(colon, [x, Token(op), y], o) ensures o == Show(Apply(colon, op, Str(x), Str(y))) {
      TreesRun(t, colon, o);
    }
  }

  predicate Nothing(s: string) { s == "" || s == "0" }

  /** `|` gives its first operand, or the second if the first is null. */
  lemma OrRuns(colon: Matcher, x: string, y: string)
    requires Operand(x) && Operand(y)
    ensures Prints(colon, [x, "|", y], if Nothing(x) then y else x, if Nothing(x) && Nothing(y) then 1 else 0)
  {
    hide Outcomes, KeywordOf;
    TwoOperands(colon, x, Or, y);
    assert [x, Token(Or), y] == [x, "|", y];
  }

  /** `&` gives its first operand, or zero if one of them is null. */
  lemma AndRuns(colon: Matcher, x: string, y: string)
    requires Operand(x) && Operand(y)
    ensures Prints(colon, [x, "&", y], if Nothing(x) || Nothing(y) then "0" else x,
                   if Nothing(x) || Nothing(y) then 1 else 0)
  {
    hide Outcomes, KeywordOf;
    TwoOperands(colon, x, And, y);
    assert [x, Token(And), y] == [x, "&", y];
    assert Digits(0) == "0";
  }

  /** Of two values that are no errors, `|` is null exactly if both are, and `&` exactly if one is. */
  lemma NullResults(colon: Matcher, l: Value, r: Value)
    ensures Apply(colon, Or, l, r) == Val(if !Null(l) then l else r)
    ensures Apply(colon, And, l, r) == Val(if !Null(l) && !Null(r) then l else Int(0))
    ensures Null(Apply(colon, Or, l, r).v) <==> Null(l) && Null(r)
    ensures Null(Apply(colon, And, l, r).v) <==> Null(l) || Null(r)
  {
  }

  // ----- numbers -----

  lemma NumberOperand(a: int)
    ensures Operand(Decimal(a))
  {
    var s := Decimal(a);
    assert s != "" && (IsDigit(s[0]) || s[0] == '-');
    assert "quote"[0] == 'q' && "length"[0] == 'l' && "match"[0] == 'm' && "index"[0] == 'i' && "substr"[0] == 's';
    assert "("[0] == '(' && ")"[0] == ')';
  }

  lemma NumberApply(colon: Matcher, op: Op, a: int, b: int)
    requires Fits(a) && Fits(b)
    ensures ToArith(Str(Decimal(a))) == Int(a) && ToArith(Str(Decimal(b))) == Int(b)
    ensures Calculated(colon, op, a, b, Apply(colon, op, Str(Decimal(a)), Str(Decimal(b))))
  {
    hide Apply, Calculated, Parse, Decimal;
    ParseDecimal(a);
    ParseDecimal(b);
    Calculates(colon, op, a, b);
  }

  function Status(n: int): (s: nat) { if n == 0 then 1 else 0 }

  /** Sum, difference and product, on the command line. */
  lemma SumsRun(colon: Matcher, a: int, b: int)
    requires Fits(a) && Fits(b)
    ensures Fits(a + b) ==> Prints(colon, [Decimal(a), "+", Decimal(b)], Decimal(a + b), Status(a + b))
    ensures Fits(a - b) ==> Prints(colon, [Decimal(a), "-", Decimal(b)], Decimal(a - b), Status(a - b))
    ensures Fits(a * b) ==> Prints(colon, [Decimal(a), "*", Decimal(b)], Decimal(a * b), Status(a * b))
  {
    hide Prints, Decimal;
    if Fits(a + b) { NumberRuns(colon, Add, a, b, a + b); }
    if Fits(a - b) { NumberRuns(colon, Sub, a, b, a - b); }
    if Fits(a * b) { NumberRuns(colon, Mul, a, b, a * b); }
  }

  lemma NumberRuns(colon: Matcher, op: Op, a: int, b: int, n: int)
    requires Fits(a) && Fits(b) && forall res :: Calculated(colon, op, a, b, res) ==> res == Val(Int(n))
    ensures Prints(colon, [Decimal(a), Token(op), Decimal(b)], Decimal(n), Status(n))
  {
    hide Outcomes, KeywordOf, Apply, Operand, Calculated, Token, Decimal;
    NumberOperand(a);
    NumberOperand(b);
    NumberApply(colon, op, a, b);
    TwoOperands(colon, Decimal(a), op, Decimal(b));
  }

  function Bit(b: bool): (s: string) { if b then "1" else "0" }

  /** The relations of two numbers, on the command line. */
  lemma RelationsRun(colon: Matcher, a: int, b: int)
    requires Fits(a) && Fits(b)
    ensures Prints(colon, [Decimal(a), "<", Decimal(b)], Bit(a < b), if a < b then 0 else 1)
    ensures Prints(colon, [Decimal(a), "<=", Decimal(b)], Bit(a <= b), if a <= b then 0 else 1)
    ensures Prints(colon, [Decimal(a), "=", Decimal(b)], Bit(a == b), if a == b then 0 else 1)
    ensures Prints(colon, [Decimal(a), "==", Decimal(b)], Bit(a == b), if a == b then 0 else 1)
    ensures Prints(colon, [Decimal(a), "!=", Decimal(b)], Bit(a != b), if a != b then 0 else 1)
    ensures Prints(colon, [Decimal(a), ">=", Decimal(b)], Bit(a >= b), if a >= b then 0 else 1)
    ensures Prints(colon, [Decimal(a), ">", Decimal(b)], Bit(a > b), if a > b then 0 else 1)
  {
    hide Prints, Decimal, Bit;
    RelationRuns(colon, Lt, a, b, a < b);
    RelationRuns(colon, Le, a, b, a <= b);
    RelationRuns(colon, Eq, a, b, a == b);
    RelationRuns(colon, EqEq, a, b, a == b);
    RelationRuns(colon, Ne, a, b, a != b);
    RelationRuns(colon, Ge, a, b, a >= b);
    RelationRuns(colon, Gt, a, b, a > b);
  }

  lemma RelationRuns(colon: Matcher, op: Op, a: int, b: int, holds: bool)
    requires Fits(a) && Fits(b)
    requires forall res :: Calculated(colon, op, a, b, res) ==> res == Val(Truth(holds))
    ensures Prints(colon, [Decimal(a), Token(op), Decimal(b)], Bit(holds), if holds then 0 else 1)
  {
    hide Outcomes, KeywordOf, Apply, Operand, Calculated, Token;
    NumberOperand(a);
    NumberOperand(b);
    NumberApply(colon, op, a, b);
    TwoOperands(colon, Decimal(a), op, Decimal(b));
    assert Digits(0) == "0" && Digits(1) == "1";
  }

  // ----- strings -----

  /** The first difference decides, and a beginning comes before the whole. */
  lemma {:induction false} FirstDifference(p: string, c: char, x: string, d: char, y: string)
    requires c < d
    ensures StrCmp(p + [c] + x, p + [d] + y) < 0 && StrCmp(p, p + [c] + x) < 0
    decreases |p|
  {
    if p != "" {
      var a, b := p + [c] + x, p + [d] + y;
      assert a[1..] == p[1..] + [c] + x && b[1..] == p[1..] + [d] + y;
      FirstDifference(p[1..], c, x, d, y);
    } else {
      assert p + [c] + x == [c] + x && p + [d] + y == [d] + y;
    }
  }

  /** Strings that are no numbers are compared as such. */
  lemma StringsRun(colon: Matcher, p: string, c: char, x: string, d: char, y: string)
    requires c < d && Operand(p + [c] + x) && Operand(p + [d] + y)
    requires Parse(p + [c] + x) == NaN && Parse(p + [d] + y) == NaN
    ensures Prints(colon, [p + [c] + x, "<", p + [d] + y], "1", 0)
  {
    hide Outcomes, KeywordOf, Parse, StrCmp, Operand;
    FirstDifference(p, c, x, d, y);
    TwoOperands(colon, p + [c] + x, Lt, p + [d] + y);
    assert [p + [c] + x, Token(Lt), p + [d] + y] == [p + [c] + x, "<", p + [d] + y];
    assert Digits(1) == "1";
  }

  /** `length` counts the characters of its operand. */
  lemma LengthRuns(colon: Matcher, x: string)
    requires Operand(x)
    ensures Prints(colon, ["length", x], Decimal(|x|), Status(|x|))
  {
    hide Outcomes, KeywordOf, Digits;
    var t := LengthT(Leaf(x));
    Alone(x, 6);
    assert Render(t, 0) == ["length", x];
    forall o | Outcomes(colon, ["length", x], o) ensures o == Printed(Decimal(|x|) + "\n", Status(|x|)) {
      TreesRun(t, colon, o);
    }
  }

  // ----- precedence -----

  /** Every operator binds more than those before it in this line, and each of them to the left. */
  lemma Precedence(a: string, b: string, c: string, d: string, e: string, f: string, g: string)
    requires Operand(a) && Operand(b) && Operand(c) && Operand(d) && Operand(e) && Operand(f) && Operand(g)
    ensures ReadAt(0, [a, "|", b, "&", c, "<", d, "+", e, "*", f, ":", g])
         == Read(Bin(Or, Leaf(a), Bin(And, Leaf(b), Bin(Lt, Leaf(c), Bin(Add, Leaf(d),
                 Bin(Mul, Leaf(e), Bin(Colon, Leaf(f), Leaf(g))))))), [])
    ensures ReadAt(0, [a, "-", b, "-", c]) == Read(Bin(Sub, Bin(Sub, Leaf(a), Leaf(b)), Leaf(c)), [])
    ensures ReadAt(0, [a, "/", b, "%", c]) == Read(Bin(Rem, Bin(Div, Leaf(a), Leaf(b)), Leaf(c)), [])
  {
    hide ReadAt, KeywordOf, Operand;
    Rows(a, b, c, d, e, f, g);
    WholeBack(Bin(Or, Leaf(a), Bin(And, Leaf(b), Bin(Lt, Leaf(c), Bin(Add, Leaf(d),
              Bin(Mul, Leaf(e), Bin(Colon, Leaf(f), Leaf(g))))))));
    Columns(a, b, c);
    WholeBack(Bin(Sub, Bin(Sub, Leaf(a), Leaf(b)), Leaf(c)));
    WholeBack(Bin(Rem, Bin(Div, Leaf(a), Leaf(b)), Leaf(c)));
  }

  lemma Rows(a: string, b: string, c: string, d: string, e: string, f: string, g: string)
    requires Operand(a) && Operand(b) && Operand(c) && Operand(d) && Operand(e) && Operand(f) && Operand(g)
    ensures Render(Bin(Or, Leaf(a), Bin(And, Leaf(b), Bin(Lt, Leaf(c), Bin(Add, Leaf(d),
                   Bin(Mul, Leaf(e), Bin(Colon, Leaf(f), Leaf(g))))))), 0)
         == [a, "|", b, "&", c, "<", d, "+", e, "*", f, ":", g]
  {
    hide KeywordOf, Render, Operand;
    var colon := Bin(Colon, Leaf(f), Leaf(g));
    var mul := Bin(Mul, Leaf(e), colon);
    var add := Bin(Add, Leaf(d), mul);
    var lt := Bin(Lt, Leaf(c), add);
    var and := Bin(And, Leaf(b), lt);
    Alone(g, 6);
    Row(f, Colon, Leaf(g), 5, [g]);
    Row(e, Mul, colon, 4, [f, ":", g]);
    Row(d, Add, mul, 3, [e, "*", f, ":", g]);
    Row(c, Lt, add, 2, [d, "+", e, "*", f, ":", g]);
    Row(b, And, lt, 1, [c, "<", d, "+", e, "*", f, ":", g]);
    Row(a, Or, and, 0, [b, "&", c, "<", d, "+", e, "*", f, ":", g]);
  }

  lemma Row(x: string, op: Op, r: Tree, p: nat, text: seq<string>)
    requires Operand(x) && Level(op) == p && Render(r, p + 1) == text
    ensures Render(Bin(op, Leaf(x), r), p) == [x, Token(op)] + text
  {
    hide KeywordOf, Token, Level;
    Alone(x, p);
  }

  lemma Columns(a: string, b: string, c: string)
    requires Operand(a) && Operand(b) && Operand(c)
    ensures Render(Bin(Sub, Bin(Sub, Leaf(a), Leaf(b)), Leaf(c)), 0) == [a, "-", b, "-", c]
    ensures Render(Bin(Rem, Bin(Div, Leaf(a), Leaf(b)), Leaf(c)), 0) == [a, "/", b, "%", c]
  {
    hide KeywordOf;
    assert Render(Bin(Sub, Leaf(a), Leaf(b)), 3) == [a, "-", b];
    assert Render(Bin(Div, Leaf(a), Leaf(b)), 4) == [a, "/", b];
  }
}
