/** `expr`: a recursive-descent evaluator over a list of arguments, against expression trees. */
module Expr {
  import opened ExprValue

  // ----- tokens -----

  datatype MaybeOp = NoOp | IsOp(op: Op)

  /** The operators of a level; level 0 binds least. */
  function OpAt(p: nat, tok: string): (r: MaybeOp) {
    if p == 0 then if tok == "|" then IsOp(Or) else NoOp
    else if p == 1 then if tok == "&" then IsOp(And) else NoOp
    else if p == 2 then
      if tok == "<" then IsOp(Lt) else if tok == "<=" then IsOp(Le) else if tok == "=" then IsOp(Eq)
      else if tok == "==" then IsOp(EqEq) else if tok == "!=" then IsOp(Ne) else if tok == ">=" then IsOp(Ge)
      else if tok == ">" then IsOp(Gt) else NoOp
    else if p == 3 then if tok == "+" then IsOp(Add) else if tok == "-" then IsOp(Sub) else NoOp
    else if p == 4 then
      if tok == "*" then IsOp(Mul) else if tok == "/" then IsOp(Div) else if tok == "%" then IsOp(Rem) else NoOp
    else if p == 5 then if tok == ":" then IsOp(Colon) else NoOp
    else NoOp
  }

  function Level(op: Op): (p: nat)
    ensures p <= 5
  {
    match op
    case Or => 0 case And => 1 case Add => 3 case Sub => 3 case Mul => 4 case Div => 4 case Rem => 4 case Colon => 5
    case _ => 2
  }

  function Token(op: Op): (s: string) {
    match op
    case Or => "|" case And => "&" case Lt => "<" case Le => "<=" case Eq => "=" case EqEq => "==" case Ne => "!="
    case Ge => ">=" case Gt => ">" case Add => "+" case Sub => "-" case Mul => "*" case Div => "/" case Rem => "%"
    case Colon => ":"
  }

  /** A token is an operator of its level and of no other. */
  lemma TokenLevel(op: Op, p: nat)
    ensures OpAt(p, Token(op)) == if p == Level(op) then IsOp(op) else NoOp
    ensures OpAt(p, ")") == NoOp
  {
  }

  datatype Keyword = NoKeyword | Quote | Length | MatchKey | Index | Substr

  function KeywordOf(tok: string): (k: Keyword) {
    if tok == "quote" then Quote else if tok == "length" then Length else if tok == "match" then MatchKey
    else if tok == "index" then Index else if tok == "substr" then Substr else NoKeyword
  }

  // ----- the evaluator as a function of the arguments left -----

  datatype Out = Bad(e: Error) | Out(v: Value, rest: seq<string>)

  type Matcher = (string, string) -> Result

  /** `eval7`: parentheses and bare operands. */
  function Eval7(colon: Matcher, args: seq<string>): (r: Out)
    ensures r.Out? ==> |r.rest| < |args|
    decreases |args|, 0
  {
    if args == [] then Bad(Syntax)
    else if args[0] == "(" then
      match Eval(colon, 0, args[1..])
      case Bad(e) => Bad(e)
      case Out(v, rest) => if rest != [] && rest[0] == ")" then Out(v, rest[1..]) else Bad(Syntax)
    else if args[0] == ")" then Bad(Syntax)
    else Out(Str(args[0]), args[1..])
  }

  /** `eval6`: the keywords. */
  function Eval6(colon: Matcher, args: seq<string>): (r: Out)
    ensures r.Out? ==> |r.rest| < |args|
    decreases |args|, 1
  {
    if args == [] then Eval7(colon, args)
    else
      var key, tail := KeywordOf(args[0]), args[1..];
      match key
      case NoKeyword => Eval7(colon, args)
      case Quote => if tail == [] then Bad(Syntax) else Out(Str(tail[0]), tail[1..])
      case Length =>
        (match Eval6(colon, tail)
         case Bad(e) => Bad(e)
         case Out(v, rest) => Out(LengthOf(v), rest))
      case Substr =>
        (match Eval6(colon, tail)
         case Bad(e) => Bad(e)
         case Out(l, r1) =>
           match Eval6(colon, r1)
           case Bad(e) => Bad(e)
           case Out(i, r2) =>
             match Eval6(colon, r2)
             case Bad(e) => Bad(e)
             case Out(n, r3) => Out(Substring(l, i, n), r3))
      case _ =>
        match Eval6(colon, tail)
        case Bad(e) => Bad(e)
        case Out(l, r1) =>
          match Eval6(colon, r1)
          case Bad(e) => Bad(e)
          case Out(r, r2) =>
            if key == Index then Out(IndexOf(l, r), r2)
            else match colon(ToString(l), ToString(r)) case Err(e) => Bad(e) case Val(v) => Out(v, r2)
  }

  /** `eval` to `eval5`, by level: an operand, and then operators of the level with their
      right operands, from left to right. */
  function Eval(colon: Matcher, p: nat, args: seq<string>): (r: Out)
    requires p <= 6
    ensures r.Out? ==> |r.rest| < |args|
    decreases |args|, 8 - p
  {
    if p == 6 then Eval6(colon, args)
    else match Eval(colon, p + 1, args)
      case Bad(e) => Bad(e)
      case Out(v, rest) => Loop(colon, p, v, rest)
  }

  function Loop(colon: Matcher, p: nat, l: Value, args: seq<string>): (r: Out)
    requires p <= 5
    ensures r.Out? ==> |r.rest| <= |args|
    decreases |args|, 9
  {
    if args == [] || OpAt(p, args[0]) == NoOp then Out(l, args)
    else match Eval(colon, p + 1, args[1..])
      case Bad(e) => Bad(e)
      case Out(r, rest) =>
        match Apply(colon, OpAt(p, args[0]).op, l, r)
        case Err(e) => Bad(e)
        case Val(v) => Loop(colon, p, v, rest)
  }

  // ----- expression trees -----

  datatype Tree =
    | Leaf(s: string)
    | Bin(op: Op, l: Tree, r: Tree)
    | LengthT(t: Tree)
    | MatchT(l: Tree, r: Tree)
    | IndexT(l: Tree, r: Tree)
    | SubstrT(l: Tree, i: Tree, n: Tree)

  /** What a tree means: all operands are evaluated, from left to right, and the first error counts. */
  function Meaning(colon: Matcher, t: Tree): (r: Result) {
    match t
    case Leaf(s) => Val(Str(s))
    case Bin(op, l, r) =>
      (match Meaning(colon, l)
       case Err(e) => Err(e)
       case Val(a) => match Meaning(colon, r) case Err(e) => Err(e) case Val(b) => Apply(colon, op, a, b))
    case LengthT(u) => (match Meaning(colon, u) case Err(e) => Err(e) case Val(a) => Val(LengthOf(a)))
    case MatchT(l, r) =>
      (match Meaning(colon, l)
       case Err(e) => Err(e)
       case Val(a) => match Meaning(colon, r) case Err(e) => Err(e) case Val(b) => colon(ToString(a), ToString(b)))
    case IndexT(l, r) =>
      (match Meaning(colon, l)
       case Err(e) => Err(e)
       case Val(a) => match Meaning(colon, r) case Err(e) => Err(e) case Val(b) => Val(IndexOf(a, b)))
    case SubstrT(l, i, n) =>
      match Meaning(colon, l)
      case Err(e) => Err(e)
      case Val(a) =>
        match Meaning(colon, i)
        case Err(e) => Err(e)
        case Val(b) => match Meaning(colon, n) case Err(e) => Err(e) case Val(c) => Val(Substring(a, b, c))
  }

  /** A tree as arguments where an expression of level `p` is expected: parentheses where
      precedence needs them, and `quote` before operands that would be taken for something else. */
  function Render(t: Tree, p: nat): (r: seq<string>)
    ensures r != []
    decreases t, if t.Bin? && Level(t.op) < p then 1 else 0
  {
    match t
    case Leaf(s) => if KeywordOf(s) != NoKeyword || s == "(" || s == ")" then ["quote", s] else [s]
    case Bin(op, l, r) =>
      if Level(op) < p then ["("] + Render(t, 0) + [")"]
        else Render(l, Level(op)) + [Token(op)] + Render(r, Level(op) + 1)
    case LengthT(u) => ["length"] + Render(u, 6)
    case MatchT(l, r) => ["match"] + Render(l, 6) + Render(r, 6)
    case IndexT(l, r) => ["index"] + Render(l, 6) + Render(r, 6)
    case SubstrT(l, i, n) => ["substr"] + Render(l, 6) + Render(i, 6) + Render(n, 6)
  }
}
