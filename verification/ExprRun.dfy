/** The evaluator as it runs: a cursor over the arguments that every level moves forward. */
module ExprRun {
  import opened ExprValue
  import opened Expr
  import opened ExprParse

  /** `r` is the value of `e`, and `rest` are the arguments it left. */
  predicate Agrees(e: Out, r: Result, rest: seq<string>) {
    match e case Bad(err) => r == Err(err) case Out(v, more) => r == Val(v) && rest == more
  }

  class Evaluator {
    const args: seq<string>
    const colon: Matcher
    var pos: nat

    constructor (args: seq<string>, colon: Matcher)
      ensures this.args == args && this.colon == colon && pos == 0
    {
      this.args, this.colon, pos := args, colon, 0;
    }

    /** The arguments not looked at yet. */
    ghost function Left(): (s: seq<string>)
      requires pos <= |args|
      reads this`pos
    {
      args[pos..]
    }

    /** `nextarg`, for all the operators of a level in turn. */
    method NextOp(p: nat) returns (op: MaybeOp)
      requires pos <= |args|
      ensures op == if Left() == [] then NoOp else OpAt(p, Left()[0])
    {
      op := if pos == |args| then NoOp else OpAt(p, args[pos]);
    }

    method RunLevel(p: nat) returns (r: Result)
      requires p <= 6 && pos <= |args|
      modifies this`pos
      ensures old(pos) <= pos <= |args| && (r.Val? ==> old(pos) < pos)
      ensures Agrees(Eval(colon, p, old(Left())), r, Left())
      decreases |args| - pos, 8 - p
    {
      hide OpAt, Eval6, Apply;
      if p == 6 {
        r := Run6();
        return;
      }
      ghost var start := Left();
      r := RunLevel(p + 1);
      if r.Err? { return; }
      var op := NextOp(p);
      while op != NoOp
        invariant old(pos) < pos <= |args| && r.Val?
        invariant op == if Left() == [] then NoOp else OpAt(p, Left()[0])
        invariant Eval(colon, p, start) == Loop(colon, p, r.v, Left())
        decreases |args| - pos
      {
        ghost var here := Left();
        pos := pos + 1;
        assert Left() == here[1..];
        var right := RunLevel(p + 1);
        if right.Err? { return right; }
        r := Apply(colon, op.op, r.v, right.v);
        if r.Err? { return; }
        op := NextOp(p);
      }
    }

    /** `eval6`. */
    method Run6() returns (r: Result)
      requires pos <= |args|
      modifies this`pos
      ensures old(pos) <= pos <= |args| && (r.Val? ==> old(pos) < pos)
      ensures Agrees(Eval6(colon, old(Left())), r, Left())
      decreases |args| - pos, 1
    {
      hide KeywordOf, Eval7, LengthOf, IndexOf, Substring, ToString;
      ghost var start := Left();
      var key := if pos == |args| then NoKeyword else KeywordOf(args[pos]);
      if key == NoKeyword {
        r := Run7();
        return;
      }
      pos := pos + 1;
      assert Left() == start[1..];
      if key == Quote {
        if pos == |args| { return Err(Syntax); }
        r := Val(Str(args[pos]));
        pos := pos + 1;
        assert Left() == start[1..][1..];
        return;
      }
      var l := Run6();
      if l.Err? { return l; }
      if key == Length { return Val(LengthOf(l.v)); }
      var m := Run6();
      if m.Err? { return m; }
      if key == Index { return Val(IndexOf(l.v, m.v)); }
      if key == MatchKey { return colon(ToString(l.v), ToString(m.v)); }
      var n := Run6();
      if n.Err? { return n; }
      r := Val(Substring(l.v, m.v, n.v));
    }

    /** `eval7`. */
    method Run7() returns (r: Result)
      requires pos <= |args|
      modifies this`pos
      ensures old(pos) <= pos <= |args| && (r.Val? ==> old(pos) < pos)
      ensures Agrees(Eval7(colon, old(Left())), r, Left())
      decreases |args| - pos, 0
    {
      hide Eval;
      if pos == |args| { return Err(Syntax); }
      ghost var start := Left();
      if args[pos] == "(" {
        pos := pos + 1;
        assert Left() == start[1..];
        r := RunLevel(0);
        if r.Err? { return; }
        if pos == |args| || args[pos] != ")" { return Err(Syntax); }
        ghost var here := Left();
        pos := pos + 1;
        assert Left() == here[1..];
        return;
      }
      if args[pos] == ")" { return Err(Syntax); }
      r := Val(Str(args[pos]));
      pos := pos + 1;
      assert Left() == start[1..];
    }
  }

  // ----- the program -----

  datatype Outcome = TooFew | Failed(e: Error) | Printed(line: string, status: nat)

  /** What a tree's meaning makes the program do. */
  function Show(r: Result): (o: Outcome) {
    match r case Err(e) => Failed(e) case Val(v) => Printed(ToString(v) + "\n", if Null(v) then 1 else 0)
  }

  /** What the program does with its arguments: the meaning of the tree they stand for, and a
      failure exactly when they stand for none or its meaning is an error. */
  ghost predicate Outcomes(colon: Matcher, args: seq<string>, o: Outcome) {
    && (args == [] <==> o == TooFew)
    && (args != [] ==>
          match ReadAt(0, args)
          case NoRead => o.Failed?
          case Read(t, rest) =>
            if rest == [] || Meaning(colon, t).Err? then o == Show(Meaning(colon, t)) else o == Failed(Syntax))
  }

  /** `expr_main`. */
  method ExprMain(args: seq<string>, colon: Matcher) returns (o: Outcome)
    ensures Outcomes(colon, args, o)
  {
    hide Eval, ReadAt, Meaning, Null;
    if args == [] { return TooFew; }
    var e := new Evaluator(args, colon);
    assert e.Left() == args;
    var r := e.RunLevel(0);
    EvalFollows(colon, 0, args);
    if r.Err? { return Failed(r.e); }
    if e.pos < |args| { return Failed(Syntax); }
    o := Show(r);
  }

  /** Every tree, written as arguments, makes the program print the tree's value or fail with
      the tree's error. */
  lemma TreesRun(t: Tree, colon: Matcher, o: Outcome)
    requires Outcomes(colon, Render(t, 0), o)
    ensures o == Show(Meaning(colon, t))
  {
    hide ReadAt, Meaning, Render, Show;
    WholeBack(t);
  }
}
