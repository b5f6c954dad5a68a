/** `add_split_dependencies`: a dependency field becomes groups of alternatives. */
module DpkgFields {
  import opened DpkgCheck
  import opened DpkgTables
  import opened Version

  /** How many characters at the start of `s` are `c`. */
  function Skip(s: string, c: char): (n: nat)
    ensures n <= |s| && (n < |s| ==> s[n] != c)
  {
    if s != "" && s[0] == c then 1 + Skip(s[1..], c) else 0
  }

  /** The tokens of a string: its maximal runs of characters other than `sep`. */
  function Tokens(s: string, sep: char): (r: seq<string>)
    ensures forall i :: 0 <= i < |r| ==> r[i] != "" && sep !in r[i]
    decreases |s|
  {
    var t := s[Skip(s, sep)..];
    var n := Find(t, sep);
    if n == 0 then [] else [t[..n]] + Tokens(t[n..], sep)
  }

  /** An alternative as text; or its operator is none that is known, or it has a version without one. */
  datatype Alternative = Illegal | NoOperator | Alternative(name: string, op: Operator, version: string)

  /** How many characters of `s` at its start are in `set`: `strspn`. */
  function Span(s: string, chars: string): (n: nat)
    ensures n <= |s|
  {
    if s != "" && s[0] in chars then 1 + Span(s[1..], chars) else 0
  }

  datatype Relation = NoRelation | Relation(op: Operator)

  /** The operator that a run of `<`, `=` and `>` stands for. */
  function RelationOf(s: string): (r: Relation) {
    if s == "=" then Relation(VerEqual)
    else if s == "<<" || s == "<" then Relation(VerLess)
    else if s == "<=" then Relation(VerLessEqual)
    else if s == ">>" || s == ">" then Relation(VerMore)
    else if s == ">=" then Relation(VerMoreEqual)
    else NoRelation
  }

  /** One alternative: a name, and in parentheses an operator and a version. */
  function ParseAlternative(field: string): (a: Alternative) {
    var f := field[Skip(field, ' ')..];
    var name, open := f[..Until(f, " (")], Find(f, '(');
    if open == |f| then Alternative(name, VerAny, "ANY")
    else
      var v := f[open..][Span(f[open..], " (")..];
      var n := Span(v, "<=>");
      var w := v[n..][Skip(v[n..], ' ')..];
      var version := w[..Until(w, " )")];
      if n == 0 then NoOperator
      else match RelationOf(v[..n])
        case NoRelation => Illegal
        case Relation(op) => Alternative(name, op, version)
  }

  /** An edge as text; `count` is the number of alternatives it starts, if it does. */
  datatype TextEdge = TextEdge(typ: EdgeType, name: string, op: Operator, version: string, count: nat)

  /** The edges of a field; or the program ended with a message; or it used a token where there was
      none; or an edge was left without an operator, and what it does from then on is not determined. */
  datatype Fields = Died | Crashed | Unset | Fields(edges: seq<TextEdge>)

  function EdgeOf(typ: EdgeType, a: Alternative): (e: TextEdge)
    requires a.Alternative?
  {
    TextEdge(typ, a.name, a.op, a.version, 0)
  }

  function OrType(typ: EdgeType): (r: EdgeType) {
    if typ == PreDepends then OrPreDepends else OrDepends
  }

  /** The edges with one more alternative: an illegal operator ends the program. */
  function Joined(typ: EdgeType, edges: seq<TextEdge>, a: Alternative): (r: Fields) {
    match a
    case Illegal => Died
    case NoOperator => Unset
    case Alternative(_, _, _) => Fields(edges + [EdgeOf(typ, a)])
  }

  /** The alternatives of one field, in order. */
  function Alternatives(typ: EdgeType, alts: seq<string>): (r: Fields)
    ensures r.Fields? ==> |r.edges| == |alts| && forall i :: 0 <= i < |alts| ==> r.edges[i].typ == typ
  {
    if alts == [] then Fields([])
    else
      var n := |alts| - 1;
      match Alternatives(typ, alts[..n])
      case Fields(es) => Joined(typ, es, ParseAlternative(alts[n]))
      case r => r
  }

  /** One field between commas, which must not be blank: one edge, or several alternatives after an edge
      that counts them. */
  function Group(typ: EdgeType, field: string): (r: Fields) {
    var f := field[Skip(field, ' ')..];
    var alts := Tokens(f, '|');
    if alts == [] then Crashed
    else match Alternatives(typ, alts)
      case Fields(es) =>
        if (typ == Depends || typ == PreDepends) && f != alts[0] then
          Fields([TextEdge(OrType(typ), f, VerNull, "", |alts|)] + es)
        else Fields(es)
      case r => r
  }

  function Groups(typ: EdgeType, fields: seq<string>): (r: Fields) {
    if fields == [] then Fields([])
    else
      var n := |fields| - 1;
      match Groups(typ, fields[..n])
      case Fields(es) => Appended(es, Group(typ, fields[n]))
      case r => r
  }

  /** A whole dependency line. */
  function LineFields(typ: EdgeType, line: string): (r: Fields) {
    var fields := Tokens(line, ',');
    if fields == [] then Crashed else Groups(typ, fields)
  }

  function Appended(edges: seq<TextEdge>, more: Fields): (r: Fields) {
    match more case Fields(es) => Fields(edges + es) case r => r
  }

  /** The loop over the alternatives of a field. */
  method AddAlternatives(typ: EdgeType, alts: seq<string>, edges: seq<TextEdge>) returns (r: Fields)
    ensures r == Appended(edges, Alternatives(typ, alts))
  {
    hide ParseAlternative;
    var i, acc := 0, edges;
    assert alts[..0] == [];
    while i < |alts|
      invariant 0 <= i <= |alts| && Alternatives(typ, alts[..i]).Fields?
                && acc == edges + Alternatives(typ, alts[..i]).edges
    {
      assert alts[..i + 1][..i] == alts[..i];
      var a := ParseAlternative(alts[i]);
      if !a.Alternative? {
        StoppedBefore(typ, alts, i + 1);
        return if a.Illegal? then Died else Unset;
      }
      acc := acc + [EdgeOf(typ, a)];
      i := i + 1;
    }
    assert alts[..i] == alts;
    r := Fields(acc);
  }

  lemma {:induction false} StoppedBefore(typ: EdgeType, alts: seq<string>, n: nat)
    requires n <= |alts| && !Alternatives(typ, alts[..n]).Fields?
    ensures Alternatives(typ, alts) == Alternatives(typ, alts[..n])
    decreases |alts|
  {
    hide ParseAlternative;
    if n == |alts| {
      assert alts[..n] == alts;
    } else {
      var rest := alts[..|alts| - 1];
      assert rest[..n] == alts[..n];
      StoppedBefore(typ, rest, n);
    }
  }

  /** One field: its alternatives, after an edge that counts them if there are several. */
  method AddGroup(typ: EdgeType, field: string, edges: seq<TextEdge>) returns (r: Fields)
    ensures r == Appended(edges, Group(typ, field))
  {
    hide Tokens, Alternatives;
    var f := field[Skip(field, ' ')..];
    var alts := Tokens(f, '|');
    if alts == [] { return Crashed; }
    var head := if (typ == Depends || typ == PreDepends) && f != alts[0]
                then [TextEdge(OrType(typ), f, VerNull, "", |alts|)] else [];
    r := AddAlternatives(typ, alts, edges + head);
    if r.Fields? {
      assert edges + head + Alternatives(typ, alts).edges == edges + (head + Alternatives(typ, alts).edges);
      assert head == [] ==> head + Alternatives(typ, alts).edges == Alternatives(typ, alts).edges;
    }
  }

  /** `add_split_dependencies`: the edges of all groups, in order; without any field, or with a blank
      one, it goes wrong. */
  method AddSplitDependencies(line: string, typ: EdgeType) returns (r: Fields)
    ensures r == LineFields(typ, line)
  {
    hide Tokens, Group;
    var fields := Tokens(line, ',');
    if fields == [] { return Crashed; }
    var acc: seq<TextEdge>, i := [], 0;
    assert fields[..0] == [];
    while i < |fields|
      invariant 0 <= i <= |fields| && Groups(typ, fields[..i]) == Fields(acc)
    {
      assert fields[..i + 1][..i] == fields[..i];
      var e := AddGroup(typ, fields[i], acc);
      if !e.Fields? {
        StoppedGroup(typ, fields, i + 1);
        return e;
      }
      acc, i := e.edges, i + 1;
    }
    assert fields[..i] == fields;
    r := Fields(acc);
  }

  lemma {:induction false} StoppedGroup(typ: EdgeType, fields: seq<string>, n: nat)
    requires n <= |fields| && !Groups(typ, fields[..n]).Fields?
    ensures Groups(typ, fields) == Groups(typ, fields[..n])
    decreases |fields|
  {
    hide Group;
    if n == |fields| {
      assert fields[..n] == fields;
    } else {
      var rest := fields[..|fields| - 1];
      assert rest[..n] == fields[..n];
      StoppedGroup(typ, rest, n);
    }
  }

  // ----- what becomes of a line -----

  /** The alternatives of a field. */
  function Alts(field: string): (r: seq<string>) { Tokens(field[Skip(field, ' ')..], '|') }

  /** Nothing but blanks, and bars behind them. */
  predicate Blank(field: string) { Alts(field) == [] }

  /** Everything before alternative `k` has a known operator or none to have. */
  predicate ReadUpTo(alts: seq<string>, k: nat) {
    k <= |alts| && forall l :: 0 <= l < k ==> ParseAlternative(alts[l]).Alternative?
  }

  predicate Sound(field: string) { !Blank(field) && ReadUpTo(Alts(field), |Alts(field)|) }

  /** Alternative `k` is the first that cannot be used, because its operator is unknown. */
  predicate IllegalAt(alts: seq<string>, k: nat) {
    k < |alts| && ReadUpTo(alts, k) && ParseAlternative(alts[k]).Illegal?
  }

  /** Alternative `k` is the first that cannot be used, because it has a version and no operator. */
  predicate UnsetAt(alts: seq<string>, k: nat) {
    k < |alts| && ReadUpTo(alts, k) && ParseAlternative(alts[k]).NoOperator?
  }

  lemma {:induction false} AlternativesEnd(typ: EdgeType, alts: seq<string>)
    ensures !Alternatives(typ, alts).Crashed?
    ensures Alternatives(typ, alts).Fields? <==> ReadUpTo(alts, |alts|)
    ensures Alternatives(typ, alts).Died? <==> exists k: nat :: IllegalAt(alts, k)
    ensures Alternatives(typ, alts).Unset? <==> exists k: nat :: UnsetAt(alts, k)
    decreases |alts|
  {
    hide ParseAlternative;
    if alts != [] {
      var n := |alts| - 1;
      var before := alts[..n];
      AlternativesEnd(typ, before);
      forall k: nat | k < n
        ensures IllegalAt(alts, k) == IllegalAt(before, k) && UnsetAt(alts, k) == UnsetAt(before, k)
      {
        SameRead(alts, n, k);
      }
      SameRead(alts, n, n);
      assert IllegalAt(alts, n) == (ReadUpTo(before, n) && ParseAlternative(alts[n]).Illegal?);
      assert UnsetAt(alts, n) == (ReadUpTo(before, n) && ParseAlternative(alts[n]).NoOperator?);
    }
  }

  lemma SameRead(alts: seq<string>, n: nat, k: nat)
    requires k <= n <= |alts|
    ensures ReadUpTo(alts, k) == ReadUpTo(alts[..n], k)
  {
    hide ParseAlternative;
    assert forall l :: 0 <= l < k ==> alts[..n][l] == alts[l];
  }

  /** What becomes of one field. */
  lemma GroupEnd(typ: EdgeType, field: string)
    ensures Group(typ, field).Crashed? <==> Blank(field)
    ensures Group(typ, field).Fields? <==> Sound(field)
    ensures Group(typ, field).Died? <==> exists k: nat :: IllegalAt(Alts(field), k)
    ensures Group(typ, field).Unset? <==> exists k: nat :: UnsetAt(Alts(field), k)
  {
    hide Tokens, Skip, Alternatives, ReadUpTo;
    AlternativesEnd(typ, Alts(field));
  }

  lemma GroupSound(typ: EdgeType, field: string)
    ensures Group(typ, field).Fields? <==> Sound(field)
  {
    hide Group, Sound;
    GroupEnd(typ, field);
  }

  /** Field `i` is the first that is not sound. */
  predicate FirstBad(fields: seq<string>, i: nat) {
    i < |fields| && !Sound(fields[i]) && forall j :: 0 <= j < i ==> Sound(fields[j])
  }

  lemma {:induction false} AllSound(typ: EdgeType, fields: seq<string>)
    ensures Groups(typ, fields).Fields? <==> forall j :: 0 <= j < |fields| ==> Sound(fields[j])
    decreases |fields|
  {
    hide Group, Sound;
    if fields != [] {
      var n := |fields| - 1;
      var before := fields[..n];
      AllSound(typ, before);
      GroupSound(typ, fields[n]);
      assert forall j :: 0 <= j < n ==> before[j] == fields[j];
    }
  }

  /** The first field that is not sound decides. */
  lemma FirstDecides(typ: EdgeType, fields: seq<string>, i: nat)
    requires FirstBad(fields, i)
    ensures Groups(typ, fields) == Group(typ, fields[i])
  {
    hide Group, Sound;
    var before := fields[..i + 1];
    assert before[..i] == fields[..i];
    AllSound(typ, fields[..i]);
    GroupSound(typ, fields[i]);
    StoppedGroup(typ, fields, i + 1);
  }

  lemma {:induction false} SomeFirst(fields: seq<string>) returns (i: nat)
    requires exists j :: 0 <= j < |fields| && !Sound(fields[j])
    ensures FirstBad(fields, i)
    decreases |fields|
  {
    hide Sound;
    var n := |fields| - 1;
    var before := fields[..n];
    if j :| 0 <= j < n && !Sound(fields[j]) {
      assert !Sound(before[j]);
      i := SomeFirst(before);
      assert forall j :: 0 <= j <= i ==> before[j] == fields[j];
    } else {
      i := n;
    }
  }

  /** Exactly when a line is read, uses a token that is not there, ends the program, or leaves an
      operator unset: the first field that is not sound decides. */
  lemma LineEnds(typ: EdgeType, line: string)
    ensures var fields := Tokens(line, ',');
            LineFields(typ, line).Fields? <==> fields != [] && forall j :: 0 <= j < |fields| ==> Sound(fields[j])
    ensures var fields := Tokens(line, ',');
            LineFields(typ, line).Crashed? <==> fields == [] || exists i: nat :: FirstBad(fields, i) && Blank(fields[i])
    ensures var fields := Tokens(line, ',');
            LineFields(typ, line).Died? <==>
            exists i: nat, k: nat :: FirstBad(fields, i) && IllegalAt(Alts(fields[i]), k)
    ensures var fields := Tokens(line, ',');
            LineFields(typ, line).Unset? <==>
            exists i: nat, k: nat :: FirstBad(fields, i) && UnsetAt(Alts(fields[i]), k)
  {
    hide Tokens, Group, Blank, Alts, Sound, IllegalAt, UnsetAt, Groups;
    var fields := Tokens(line, ',');
    if fields != [] {
      AllSound(typ, fields);
      if !LineFields(typ, line).Fields? { var i := SomeFirst(fields); }
      forall i: nat | FirstBad(fields, i)
        ensures LineFields(typ, line) == Group(typ, fields[i])
        ensures Group(typ, fields[i]).Crashed? <==> Blank(fields[i])
        ensures Group(typ, fields[i]).Died? <==> exists k: nat :: IllegalAt(Alts(fields[i]), k)
        ensures Group(typ, fields[i]).Unset? <==> exists k: nat :: UnsetAt(Alts(fields[i]), k)
      {
        FirstDecides(typ, fields, i);
        GroupEnd(typ, fields[i]);
      }
    }
  }

  // ----- the edges are as the dependency pass expects them -----

  /** An edge in the tables: its strings have been interned. */
  ghost predicate Interned(names: seq<Name>, t: TextEdge, e: Edge) {
    && e.typ == t.typ && e.op == t.op && Named(names, e.name) && names[e.name].s == t.name
    && (if IsOr(e) then e.version == t.count else Named(names, e.version) && names[e.version].s == t.version)
  }

  ghost predicate AllInterned(names: seq<Name>, ts: seq<TextEdge>, es: seq<Edge>) {
    |ts| == |es| && forall i :: 0 <= i < |ts| ==> Interned(names, ts[i], es[i])
  }

  /** The first group of a list, and the rest. */
  ghost predicate FirstGroup(es: seq<Edge>) {
    es != []
    && (IsOr(es[0]) ==>
        1 <= es[0].version < |es| && forall i :: 1 <= i <= es[0].version ==> es[i].typ == Kind(es[0].typ))
  }

  function GroupSize(es: seq<Edge>): (n: nat)
    requires es != []
  {
    if IsOr(es[0]) then es[0].version + 1 else 1
  }

  lemma FormedIs(es: seq<Edge>)
    requires es != []
    ensures Formed(es) <==> FirstGroup(es) && GroupSize(es) <= |es| && Formed(es[GroupSize(es)..])
  {
  }

  /** A list of edges made of groups one after the other stays one. */
  lemma {:induction false} FormedAppend(a: seq<Edge>, b: seq<Edge>)
    requires Formed(a) && Formed(b)
    ensures Formed(a + b)
    decreases |a|
  {
    hide Formed;
    if a == [] {
      assert a + b == b;
    } else {
      FormedIs(a);
      var n := GroupSize(a);
      assert forall i :: 0 <= i < n ==> (a + b)[i] == a[i];
      assert (a + b)[n..] == a[n..] + b;
      FormedAppend(a[n..], b);
      FormedIs(a + b);
    }
  }

  lemma {:induction false} PlainFormed(es: seq<Edge>)
    requires forall i :: 0 <= i < |es| ==> !IsOr(es[i])
    ensures Formed(es)
    decreases |es|
  {
    if es != [] { PlainFormed(es[1..]); }
  }

  lemma GroupFormed(names: seq<Name>, typ: EdgeType, field: string, es: seq<Edge>)
    requires typ != OrPreDepends && typ != OrDepends && Group(typ, field).Fields?
             && AllInterned(names, Group(typ, field).edges, es)
    ensures Formed(es)
  {
    hide Tokens, Alternatives, ParseAlternative;
    var f := field[Skip(field, ' ')..];
    var alts := Tokens(f, '|');
    var ts := Alternatives(typ, alts).edges;
    var all := Group(typ, field).edges;
    if |all| == |ts| {
      assert all == ts;
      PlainFormed(es);
    } else {
      assert all[1..] == ts;
      forall i | 1 <= i < |es|
        ensures es[i].typ == typ
      {
        assert Interned(names, all[i], es[i]) && all[i] == ts[i - 1];
      }
      assert Interned(names, all[0], es[0]);
      assert es[|alts| + 1..] == [];
    }
  }

  /** What the field becomes is a list of groups, as `check_deps` reads it. */
  lemma {:induction false} GroupsFormed(names: seq<Name>, typ: EdgeType, fields: seq<string>, es: seq<Edge>)
    requires typ != OrPreDepends && typ != OrDepends && Groups(typ, fields).Fields?
             && AllInterned(names, Groups(typ, fields).edges, es)
    ensures Formed(es)
    decreases |fields|
  {
    hide Group, Interned;
    if fields == [] {
      assert es == [];
    } else {
      var n := |fields| - 1;
      var before, last := Groups(typ, fields[..n]).edges, Group(typ, fields[n]).edges;
      var k := |before|;
      assert es == es[..k] + es[k..];
      forall i | 0 <= i < |last|
        ensures Interned(names, last[i], es[k..][i])
      {
        assert (before + last)[k + i] == last[i];
      }
      forall i | 0 <= i < k ensures Interned(names, before[i], es[..k][i]) { assert (before + last)[i] == before[i]; }
      GroupsFormed(names, typ, fields[..n], es[..k]);
      GroupFormed(names, typ, fields[n], es[k..]);
      FormedAppend(es[..k], es[k..]);
    }
  }
}
