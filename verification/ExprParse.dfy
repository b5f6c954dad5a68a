/** The grammar of `expr` without its evaluation: which tree a list of arguments stands for. */
module ExprParse {
  import opened ExprValue
  import opened Expr

  datatype Read = NoRead | Read(t: Tree, rest: seq<string>)

  function Read7(args: seq<string>): (r: Read)
    ensures r.Read? ==> |r.rest| < |args|
    decreases |args|, 0
  {
    if args == [] then NoRead
    else if args[0] == "(" then
      match ReadAt(0, args[1..])
      case NoRead => NoRead
      case Read(t, rest) => if rest != [] && rest[0] == ")" then Read(t, rest[1..]) else NoRead
    else if args[0] == ")" then NoRead
    else Read(Leaf(args[0]), args[1..])
  }

  function Read6(args: seq<string>): (r: Read)
    ensures r.Read? ==> |r.rest| < |args|
    decreases |args|, 1
  {
    if args == [] then Read7(args)
    else
      var key, tail := KeywordOf(args[0]), args[1..];
      match key
      case NoKeyword => Read7(args)
      case Quote => if tail == [] then NoRead else Read(Leaf(tail[0]), tail[1..])
      case Length =>
        (match Read6(tail)
         case NoRead => NoRead
         case Read(t, rest) => Read(LengthT(t), rest))
      case Substr =>
        (match Read6(tail)
         case NoRead => NoRead
         case Read(l, r1) =>
           match Read6(r1)
           case NoRead => NoRead
           case Read(i, r2) =>
             match Read6(r2)
             case NoRead => NoRead
             case Read(n, r3) => Read(SubstrT(l, i, n), r3))
      case _ =>
        match Read6(tail)
        case NoRead => NoRead
        case Read(l, r1) =>
          match Read6(r1)
          case NoRead => NoRead
          case Read(r, r2) => Read(if key == Index then IndexT(l, r) else MatchT(l, r), r2)
  }

  function ReadAt(p: nat, args: seq<string>): (r: Read)
    requires p <= 6
    ensures r.Read? ==> |r.rest| < |args|
    decreases |args|, 8 - p
  {
    if p == 6 then Read6(args)
    else match ReadAt(p + 1, args)
      case NoRead => NoRead
      case Read(t, rest) => ReadLoop(p, t, rest)
  }

  function ReadLoop(p: nat, l: Tree, args: seq<string>): (r: Read)
    requires p <= 5
    ensures r.Read? ==> |r.rest| <= |args|
    decreases |args|, 9
  {
    if args == [] || OpAt(p, args[0]) == NoOp then Read(l, args)
    else match ReadAt(p + 1, args[1..])
      case NoRead => NoRead
      case Read(r, rest) => ReadLoop(p, Bin(OpAt(p, args[0]).op, l, r), rest)
  }

  // ----- arguments made from a tree stand for that tree -----

  /** No operator that would go on with an expression of a level above `p` comes next. */
  predicate Clear(p: nat, rest: seq<string>) {
    rest == [] || forall q :: p < q <= 5 ==> OpAt(q, rest[0]) == NoOp
  }

  function Then(p: nat, t: Tree, rest: seq<string>): (r: Read)
    requires p <= 6
  {
    if p == 6 then Read(t, rest) else ReadLoop(p, t, rest)
  }

  lemma {:induction false} Climb(p: nat, q: nat, t: Tree, args: seq<string>, rest: seq<string>)
    requires p <= q <= 6 && Clear(p, rest) && ReadAt(q, args) == Then(q, t, rest)
    ensures ReadAt(p, args) == Then(p, t, rest)
    decreases q
  {
    hide OpAt;
    if p < q {
      assert Then(q, t, rest) == Read(t, rest);
      assert ReadAt(q - 1, args) == Then(q - 1, t, rest);
      Climb(p, q - 1, t, args, rest);
    }
  }

  /** A tree written as arguments of level `p` is read back, whatever follows it. */
  lemma {:induction false} ReadRender(t: Tree, p: nat, rest: seq<string>)
    requires p <= 6 && Clear(p, rest)
    ensures ReadAt(p, Render(t, p) + rest) == Then(p, t, rest)
    decreases t, if t.Bin? && Level(t.op) < p then 1 else 0
  {
    hide *;
    if t.Bin? && Level(t.op) >= p {
      BinBack(t, p, rest);
    } else {
      var args := Render(t, p) + rest;
      match t {
        case Leaf(_) => LeafBack(t, p, rest);
        case Bin(_, _, _) => ParenBack(t, p, rest);
        case LengthT(_) => LengthBack(t, p, rest);
        case SubstrT(_, _, _) => SubstrBack(t, p, rest);
        case _ => PairBack(t, p, rest);
      }
      AtSix(t, args, rest);
      Climb(p, 6, t, args, rest);
    }
  }

  lemma AtSix(t: Tree, args: seq<string>, rest: seq<string>)
    requires Read6(args) == Read(t, rest)
    ensures ReadAt(6, args) == Then(6, t, rest)
  {
    hide Read6;
  }

  lemma LeafBack(t: Tree, p: nat, rest: seq<string>)
    requires t.Leaf?
    ensures Read6(Render(t, p) + rest) == Read(t, rest)
  {
    var args := Render(t, p) + rest;
    if |Render(t, p)| == 2 {
      assert args[0] == "quote" && args[1..][0] == t.s;
      assert args[1..][1..] == rest;
    } else {
      assert args[0] == t.s;
      assert args[1..] == rest;
    }
  }

  lemma {:induction false} ParenBack(t: Tree, p: nat, rest: seq<string>)
    requires t.Bin? && Level(t.op) < p
    ensures Read6(Render(t, p) + rest) == Read(t, rest)
    decreases t, 1, 0
  {
    hide Level, Token, ReadLoop;
    var inner, after := Render(t, 0), [")"] + rest;
    var args := Render(t, p) + rest;
    assert args[0] == "(" && args[1..] == inner + after;
    assert Clear(0, after) && OpAt(0, ")") == NoOp by { hide Render; TokenLevel(Or, 0); }
    ReadRender(t, 0, after);
    assert Then(0, t, after) == Read(t, after) by { LoopEnds(0, t, after); }
    assert after[1..] == rest;
    assert Read7(args) == Read(t, rest);
    assert KeywordOf("(") == NoKeyword;
  }

  lemma LoopEnds(p: nat, t: Tree, rest: seq<string>)
    requires p <= 5 && (rest == [] || OpAt(p, rest[0]) == NoOp)
    ensures ReadLoop(p, t, rest) == Read(t, rest)
  {
    hide OpAt;
  }

  lemma {:induction false} LengthBack(t: Tree, p: nat, rest: seq<string>)
    requires t.LengthT?
    ensures Read6(Render(t, p) + rest) == Read(t, rest)
    decreases t, 0, 0
  {
    hide Level, Token, ReadLoop, OpAt, Read7;
    var args, inner := Render(t, p) + rest, Render(t.t, 6);
    assert args[0] == "length" && args[1..] == inner + rest;
    ReadRender(t.t, 6, rest);
    assert Read6(inner + rest) == Read(t.t, rest);
  }

  lemma {:induction false} PairBack(t: Tree, p: nat, rest: seq<string>)
    requires t.MatchT? || t.IndexT?
    ensures Read6(Render(t, p) + rest) == Read(t, rest)
    decreases t, 0, 0
  {
    hide Level, Token, ReadLoop, OpAt, Read6, ReadAt;
    var args, a, b := Render(t, p) + rest, Render(t.l, 6), Render(t.r, 6);
    assert args == [if t.IndexT? then "index" else "match"] + (a + (b + rest));
    ReadRender(t.l, 6, b + rest);
    ReadRender(t.r, 6, rest);
    PairRead(args, t, a + (b + rest), b + rest, rest);
  }

  lemma PairRead(args: seq<string>, t: Tree, r0: seq<string>, r1: seq<string>, r2: seq<string>)
    requires (t.MatchT? && args == ["match"] + r0) || (t.IndexT? && args == ["index"] + r0)
    requires ReadAt(6, r0) == Then(6, t.l, r1) && ReadAt(6, r1) == Then(6, t.r, r2)
    ensures Read6(args) == Read(t, r2)
  {
    hide ReadLoop, Read7;
    assert args[1..] == r0;
  }

  lemma {:induction false} SubstrBack(t: Tree, p: nat, rest: seq<string>)
    requires t.SubstrT?
    ensures Read6(Render(t, p) + rest) == Read(t, rest)
    decreases t, 0, 0
  {
    hide Level, Token, ReadLoop, OpAt, Read6, ReadAt;
    var args, a, b, c := Render(t, p) + rest, Render(t.l, 6), Render(t.i, 6), Render(t.n, 6);
    assert args == ["substr"] + (a + (b + (c + rest)));
    ReadRender(t.l, 6, b + (c + rest));
    ReadRender(t.i, 6, c + rest);
    ReadRender(t.n, 6, rest);
    SubstrRead(args, t, a + (b + (c + rest)), b + (c + rest), c + rest, rest);
  }

  lemma SubstrRead(args: seq<string>, t: Tree, r0: seq<string>, r1: seq<string>, r2: seq<string>, r3: seq<string>)
    requires t.SubstrT? && args == ["substr"] + r0
    requires ReadAt(6, r0) == Then(6, t.l, r1) && ReadAt(6, r1) == Then(6, t.i, r2) && ReadAt(6, r2) == Then(6, t.n, r3)
    ensures Read6(args) == Read(t, r3)
  {
    hide ReadLoop, Read7;
    assert args[1..] == r0;
  }

  lemma {:induction false} BinBack(t: Tree, p: nat, rest: seq<string>)
    requires p <= 6 && Clear(p, rest) && t.Bin? && Level(t.op) >= p
    ensures ReadAt(p, Render(t, p) + rest) == Then(p, t, rest)
    decreases t, 0, 0
  {
    hide OpAt, Level, Token, Read6, Read7;
    var q, a, b := Level(t.op), Render(t.l, Level(t.op)), Render(t.r, Level(t.op) + 1);
    var args, mid := Render(t, p) + rest, [Token(t.op)] + (b + rest);
    assert args == a + mid;
    forall k: nat | k <= 5 ensures OpAt(k, mid[0]) == if k == q then IsOp(t.op) else NoOp { TokenLevel(t.op, k); }
    ReadRender(t.l, q, mid);
    ReadRender(t.r, q + 1, rest);
    assert mid[1..] == b + rest;
    assert ReadAt(q + 1, b + rest) == Read(t.r, rest) by {
      if q < 5 { LoopEnds(q + 1, t.r, rest); }
    }
    assert ReadLoop(q, t.l, mid) == ReadLoop(q, t, rest);
    Climb(p, q, t, args, rest);
  }

  /** Every tree, written as arguments, is read back. */
  lemma WholeBack(t: Tree)
    ensures ReadAt(0, Render(t, 0)) == Read(t, [])
  {
    hide *;
    assert Clear(0, []) by { Nothing(); }
    assert Render(t, 0) + [] == Render(t, 0);
    ReadRender(t, 0, []);
    NothingMore(t);
  }

  lemma Nothing()
    ensures Clear(0, [])
  {
  }

  lemma NothingMore(t: Tree)
    ensures Then(0, t, []) == Read(t, [])
  {
  }

  // ----- evaluating while reading is reading and then evaluating -----

  /** The outcome of an evaluation that leaves `rest`. */
  function Gives(m: Result, rest: seq<string>): (e: Out) {
    match m case Err(err) => Bad(err) case Val(v) => Out(v, rest)
  }

  /** `e` is what the evaluator should give where reading gives `r`. */
  predicate Follows(colon: Matcher, e: Out, r: Read) {
    match r
    case NoRead => e.Bad?
    case Read(t, rest) => e == Gives(Meaning(colon, t), rest)
  }

  lemma {:induction false} EvalFollows(colon: Matcher, p: nat, args: seq<string>)
    requires p <= 6
    ensures Follows(colon, Eval(colon, p, args), ReadAt(p, args))
    decreases |args|, 8 - p
  {
    hide Eval6, Read6, Loop, ReadLoop, Meaning;
    if p == 6 {
      Eval6Follows(colon, args);
    } else {
      EvalFollows(colon, p + 1, args);
      match ReadAt(p + 1, args)
      case NoRead =>
      case Read(t, rest) => LoopFollows(colon, p, t, rest);
    }
  }

  /** A failed operand to the left makes the whole fail, whatever follows. */
  lemma {:induction false} LoopFollows(colon: Matcher, p: nat, l: Tree, args: seq<string>)
    requires p <= 5
    ensures Meaning(colon, l).Val? ==> Follows(colon, Loop(colon, p, Meaning(colon, l).v, args), ReadLoop(p, l, args))
    ensures Meaning(colon, l).Err? ==> Follows(colon, Bad(Meaning(colon, l).e), ReadLoop(p, l, args))
    decreases |args|, 9
  {
    hide OpAt, Eval, ReadAt, Apply;
    if args != [] && OpAt(p, args[0]) != NoOp {
      EvalFollows(colon, p + 1, args[1..]);
      match ReadAt(p + 1, args[1..])
      case NoRead =>
      case Read(r, rest) => LoopFollows(colon, p, Bin(OpAt(p, args[0]).op, l, r), rest);
    }
  }

  lemma {:induction false} Eval6Follows(colon: Matcher, args: seq<string>)
    ensures Follows(colon, Eval6(colon, args), Read6(args))
    decreases |args|, 1
  {
    hide Eval7, Read7, LengthOf, IndexOf, Substring, KeywordOf, ToString;
    Eval7Follows(colon, args);
    if args != [] && KeywordOf(args[0]) != NoKeyword && KeywordOf(args[0]) != Quote {
      var tail := args[1..];
      Eval6Follows(colon, tail);
      if Read6(tail).Read? && KeywordOf(args[0]) != Length {
        var r1 := Read6(tail).rest;
        Eval6Follows(colon, r1);
        if Read6(r1).Read? && KeywordOf(args[0]) == Substr { Eval6Follows(colon, Read6(r1).rest); }
      }
    }
  }

  lemma {:induction false} Eval7Follows(colon: Matcher, args: seq<string>)
    ensures Follows(colon, Eval7(colon, args), Read7(args))
    decreases |args|, 0
  {
    hide Eval, ReadAt;
    if args != [] && args[0] == "(" { EvalFollows(colon, 0, args[1..]); }
  }

  /** A tree written as arguments evaluates to its meaning and uses up exactly those arguments. */
  lemma EvalRender(colon: Matcher, t: Tree, p: nat, rest: seq<string>)
    requires p <= 6 && Clear(p, rest) && (rest == [] || OpAt(p, rest[0]) == NoOp)
    ensures Eval(colon, p, Render(t, p) + rest) == Gives(Meaning(colon, t), rest)
  {
    hide Eval, Render, Meaning, ReadAt, OpAt, ReadLoop;
    ReadRender(t, p, rest);
    if p <= 5 { LoopEnds(p, t, rest); }
    EvalFollows(colon, p, Render(t, p) + rest);
  }
}
