/** Dependency fields written out: reading one back gives the dependencies it was written from. */
module DpkgRender {
  import opened DpkgCheck
  import opened DpkgTables
  import opened DpkgFields
  import opened Version

  predicate Among(c: char, chars: string) { c in chars }

  /** Text without the characters that separate or relate. */
  predicate Plain(s: string) { s != "" && forall k :: 0 <= k < |s| ==> !Among(s[k], " ,|()<=>") }

  predicate AltOk(a: Alternative) {
    a.Alternative? && Plain(a.name)
    && if a.op == VerAny then a.version == "ANY" else a.op != VerNull && Plain(a.version)
  }

  function OpText(op: Operator): (s: string) {
    match op
    case VerEqual => "="
    case VerLess => "<<"
    case VerLessEqual => "<="
    case VerMore => ">>"
    case _ => ">="
  }

  /** A name, and a relation to a version in parentheses if there is one. */
  function AltText(a: Alternative): (s: string)
    requires AltOk(a)
  {
    if a.op == VerAny then a.name else a.name + (" " + Related(a))
  }

  function Related(a: Alternative): (s: string)
    requires a.Alternative?
  {
    "(" + (OpText(a.op) + (" " + (a.version + ")")))
  }

  predicate GroupOk(alts: seq<Alternative>) { alts != [] && forall i :: 0 <= i < |alts| ==> AltOk(alts[i]) }

  /** Alternatives with bars between them. */
  function GroupText(alts: seq<Alternative>): (s: string)
    requires GroupOk(alts)
  {
    if |alts| == 1 then AltText(alts[0]) else AltText(alts[0]) + " " + "|" + (" " + GroupText(alts[1..]))
  }

  predicate LineOk(groups: seq<seq<Alternative>>) { groups != []
                                                   && forall i :: 0 <= i < |groups| ==> GroupOk(groups[i]) }

  /** Groups with commas between them. */
  function LineText(groups: seq<seq<Alternative>>): (s: string)
    requires LineOk(groups)
  {
    if |groups| == 1 then GroupText(groups[0]) else GroupText(groups[0]) + "," + (" " + LineText(groups[1..]))
  }

  // ----- scanning -----

  lemma {:induction false} SpanAt(a: string, b: string, chars: string)
    requires (forall k :: 0 <= k < |a| ==> a[k] in chars) && (b == "" || b[0] !in chars)
    ensures Span(a + b, chars) == |a|
    decreases |a|
  {
    if a == "" {
      assert a + b == b;
    } else {
      assert (a + b)[1..] == a[1..] + b;
      SpanAt(a[1..], b, chars);
    }
  }

  lemma NoSkip(s: string, c: char)
    requires s == "" || s[0] != c
    ensures Skip(s, c) == 0 && s[0..] == s
  {
  }

  lemma OneSkip(s: string, c: char)
    requires s == "" || s[0] != c
    ensures Skip([c] + s, c) == 1 && ([c] + s)[1..] == s
  {
    assert ([c] + s)[1..] == s;
  }

  lemma PlainIs(s: string)
    requires Plain(s)
    ensures ' ' !in s && ',' !in s && '|' !in s && '(' !in s && ')' !in s && '<' !in s && '=' !in s && '>' !in s
    ensures forall k :: 0 <= k < |s| ==> s[k] !in " (" && s[k] !in " )" && s[k] !in "<=>"
  {
    forall k | 0 <= k < |s| ensures s[k] !in " (" && s[k] !in " )" && s[k] !in "<=>" && s[k] != ',' && s[k] != '|' {
      assert !Among(s[k], " ,|()<=>");
      assert s[k] != " ,|()<=>"[0] && s[k] != " ,|()<=>"[1] && s[k] != " ,|()<=>"[2] && s[k] != " ,|()<=>"[3];
      assert s[k] != " ,|()<=>"[4] && s[k] != " ,|()<=>"[5] && s[k] != " ,|()<=>"[6] && s[k] != " ,|()<=>"[7];
    }
  }

  // ----- one alternative -----

  /** An alternative between blanks is read back. */
  lemma AltBack(a: Alternative, lead: string, trail: string)
    requires AltOk(a) && (lead == "" || lead == " ") && (trail == "" || trail == " ")
    ensures ParseAlternative(lead + AltText(a) + trail) == a
  {
    hide ParseAlternative, AltText, AltOk;
    IsAlternative(a);
    var f := AltText(a) + trail;
    if a.op == VerAny { NameBack(a, trail); } else { RelatedBack(a, trail); }
    LeadSkipped(lead, f);
    NoSkip(f, ' ');
    SameBehindBlanks(lead + f, f);
    assert lead + AltText(a) + trail == lead + f;
  }

  lemma SameBehindBlanks(x: string, y: string)
    requires x[Skip(x, ' ')..] == y[Skip(y, ' ')..]
    ensures ParseAlternative(x) == ParseAlternative(y)
  {
    hide Skip, Until, Span, Find, RelationOf;
  }

  lemma NameBack(a: Alternative, trail: string)
    requires AltOk(a) && a.op == VerAny && (trail == "" || trail == " ")
    ensures var f := AltText(a) + trail; f != "" && f[0] != ' ' && ParseAlternative(f) == a
  {
    hide Plain, Skip, Until, Span, Find, RelationOf;
    var f := a.name + trail;
    PlainIs(a.name);
    NameFirst(a.name);
    NoSkip(f, ' ');
    UntilAt(a.name, trail, " (");
    FindAt(f, "", '(');
    assert f + "" == f && f[..|a.name|] == a.name;
  }

  lemma NameFirst(s: string)
    requires Plain(s)
    ensures s != "" && s[0] != ' '
  {
    PlainIs(s);
  }

  lemma LeadSkipped(lead: string, f: string)
    requires (lead == "" || lead == " ") && f != "" && f[0] != ' '
    ensures (lead + f)[Skip(lead + f, ' ')..] == f
  {
    if lead == "" {
      assert lead + f == f;
      NoSkip(f, ' ');
    } else {
      OneSkip(f, ' ');
    }
  }

  lemma RelatedBack(a: Alternative, trail: string)
    requires AltOk(a) && a.op != VerAny && (trail == "" || trail == " ")
    ensures var f := AltText(a) + trail; f != "" && f[0] != ' ' && ParseAlternative(f) == a
  {
    hide Plain, Skip, Until, Span, Find, RelationOf, OpText;
    var f, rest := AltText(a) + trail, Related(a) + trail;
    PlainIs(a.name);
    NameFirst(a.name);
    NoSkip(f, ' ');
    assert f == a.name + (" " + rest);
    UntilAt(a.name, " " + rest, " (");
    assert f == (a.name + " ") + rest;
    FindAt(a.name + " ", rest, '(');
    assert f[..|a.name|] == a.name && f[|a.name| + 1..] == rest;
    RelationBack(a, trail);
  }

  /** The operator and the version in the parentheses are read back. */
  lemma RelationBack(a: Alternative, trail: string)
    requires AltOk(a) && a.op != VerAny && (trail == "" || trail == " ")
    ensures var rest := Related(a) + trail;
            var v := rest[Span(rest, " (")..];
            var n := Span(v, "<=>");
            var w := v[n..][Skip(v[n..], ' ')..];
            n > 0 && RelationOf(v[..n]) == Relation(a.op) && w[..Until(w, " )")] == a.version
  {
    hide Plain, Skip, Until, Span, Find, RelationOf;
    var op, rest, w := OpText(a.op), Related(a) + trail, a.version + (")" + trail);
    var v := op + (" " + w);
    OpParts(a.op);
    PlainIs(a.version);
    NameFirst(a.version);
    assert rest == "(" + v;
    SpanAt("(", v, " (");
    assert rest[1..] == v;
    SpanAt(op, " " + w, "<=>");
    assert v[..|op|] == op && v[|op|..] == " " + w;
    OneSkip(w, ' ');
    UntilAt(a.version, ")" + trail, " )");
    assert w[..|a.version|] == a.version;
  }

  lemma OpParts(op: Operator)
    requires op != VerAny && op != VerNull
    ensures var s := OpText(op);
            s != "" && RelationOf(s) == Relation(op) && (forall k :: 0 <= k < |s| ==> s[k] in "<=>") && s[0] !in " ("
  {
  }

  // ----- tokens -----

  lemma OneToken(a: string, sep: char)
    requires a != "" && sep !in a
    ensures Tokens(a, sep) == [a]
  {
    hide Skip, Find;
    NoSkip(a, sep);
    FindAt(a, "", sep);
    assert a + "" == a;
    NoTokens(sep);
    assert a[|a|..] == "";
  }

  lemma NoTokens(sep: char)
    ensures Tokens("", sep) == []
  {
  }

  lemma MoreTokens(a: string, b: string, sep: char)
    requires a != "" && sep !in a && b != "" && b[0] != sep
    ensures Tokens(a + [sep] + b, sep) == [a] + Tokens(b, sep)
  {
    hide Skip, Find;
    var s, t := a + [sep] + b, [sep] + b;
    assert s == a + t && s[0] == a[0];
    NoSkip(s, sep);
    FindAt(a, t, sep);
    assert s[..|a|] == a && s[|a|..] == t;
    OneSkip(b, sep);
    NoSkip(b, sep);
  }

  // ----- one group -----

  /** The tokens of a group: its alternatives between blanks. */
  function Pieces(alts: seq<Alternative>, lead: string): (r: seq<string>)
    requires GroupOk(alts)
    ensures |r| == |alts|
  {
    if |alts| == 1 then [lead + AltText(alts[0])] else [lead + AltText(alts[0]) + " "] + Pieces(alts[1..], " ")
  }

  lemma AltPlain(a: Alternative, lead: string)
    requires AltOk(a) && (lead == "" || lead == " ")
    ensures var s := lead + AltText(a);
            s != "" && s[0] != '|' && s[0] != ',' && '|' !in s && ',' !in s && (lead == "" ==> s[0] != ' ')
    ensures AltText(a) != ""
  {
    hide Plain, OpText;
    PlainIs(a.name);
    NameFirst(a.name);
    if a.op != VerAny {
      PlainIs(a.version);
      OpNeither(a.op);
    }
  }

  lemma OpNeither(op: Operator)
    ensures '|' !in OpText(op) && ',' !in OpText(op)
  {
  }

  lemma {:induction false} GroupTokens(alts: seq<Alternative>, lead: string)
    requires GroupOk(alts) && (lead == "" || lead == " ")
    ensures Tokens(lead + GroupText(alts), '|') == Pieces(alts, lead)
    decreases |alts|
  {
    hide AltOk, AltText, Tokens;
    var a := lead + AltText(alts[0]);
    AltPlain(alts[0], lead);
    if |alts| == 1 {
      OneToken(a, '|');
    } else {
      GroupTokens(alts[1..], " ");
      MoreTokens(a + " ", " " + GroupText(alts[1..]), '|');
      assert lead + GroupText(alts) == (a + " ") + "|" + (" " + GroupText(alts[1..]));
    }
  }

  lemma {:induction false} PieceBack(alts: seq<Alternative>, lead: string, i: nat)
    requires GroupOk(alts) && (lead == "" || lead == " ") && i < |alts|
    ensures ParseAlternative(Pieces(alts, lead)[i]) == alts[i]
    decreases |alts|
  {
    hide ParseAlternative, AltOk, AltText;
    if i > 0 {
      PieceBack(alts[1..], " ", i - 1);
    } else if |alts| == 1 {
      AltBack(alts[0], lead, "");
      assert lead + AltText(alts[0]) + "" == lead + AltText(alts[0]);
    } else {
      AltBack(alts[0], lead, " ");
    }
  }

  function EdgesOf(typ: EdgeType, alts: seq<Alternative>): (r: seq<TextEdge>)
    requires forall i :: 0 <= i < |alts| ==> alts[i].Alternative?
    ensures |r| == |alts|
  {
    if alts == [] then [] else EdgesOf(typ, alts[..|alts| - 1]) + [EdgeOf(typ, alts[|alts| - 1])]
  }

  lemma {:induction false} AllBack(typ: EdgeType, texts: seq<string>, alts: seq<Alternative>)
    requires |texts| == |alts|
             && forall i :: 0 <= i < |alts| ==> alts[i].Alternative? && ParseAlternative(texts[i]) == alts[i]
    ensures Alternatives(typ, texts) == Fields(EdgesOf(typ, alts))
    decreases |alts|
  {
    hide ParseAlternative;
    if alts != [] { AllBack(typ, texts[..|alts| - 1], alts[..|alts| - 1]); }
  }

  /** The edges of a group: those of its alternatives, after one that counts them if there are several. */
  function GroupEdges(typ: EdgeType, alts: seq<Alternative>): (r: seq<TextEdge>)
    requires GroupOk(alts)
  {
    (if (typ == Depends || typ == PreDepends) && |alts| > 1
     then [TextEdge(OrType(typ), GroupText(alts), VerNull, "", |alts|)] else [])
      + EdgesOf(typ, alts)
  }

  lemma GroupBack(typ: EdgeType, alts: seq<Alternative>, lead: string)
    requires GroupOk(alts) && (lead == "" || lead == " ")
    ensures Group(typ, lead + GroupText(alts)) == Fields(GroupEdges(typ, alts))
  {
    hide ParseAlternative, AltOk, AltText, GroupText, Tokens, Alternatives, Skip, EdgesOf, Pieces;
    var f, texts := GroupText(alts), Pieces(alts, "");
    GroupFirst(alts);
    LeadSkipped(lead, f);
    assert "" + f == f;
    GroupTokens(alts, "");
    forall i | 0 <= i < |alts| ensures alts[i].Alternative? && ParseAlternative(texts[i]) == alts[i] {
      PieceBack(alts, "", i);
      IsAlternative(alts[i]);
    }
    AllBack(typ, texts, alts);
    FirstPiece(alts);
    assert |alts| == 1 ==> [] + EdgesOf(typ, alts) == EdgesOf(typ, alts);
  }

  lemma IsAlternative(a: Alternative)
    requires AltOk(a)
    ensures a.Alternative?
  {
  }

  lemma GroupFirst(alts: seq<Alternative>)
    requires GroupOk(alts)
    ensures GroupText(alts) != "" && GroupText(alts)[0] != ' ' && GroupText(alts)[0] != ','
  {
    hide AltOk, AltText;
    AltPlain(alts[0], "");
    assert "" + AltText(alts[0]) == AltText(alts[0]);
  }

  /** A group is its first token exactly if it has one alternative. */
  lemma FirstPiece(alts: seq<Alternative>)
    requires GroupOk(alts)
    ensures GroupText(alts) == Pieces(alts, "")[0] <==> |alts| == 1
  {
    hide AltOk, AltText;
    assert "" + AltText(alts[0]) == AltText(alts[0]);
    if |alts| > 1 { assert |GroupText(alts)| > |AltText(alts[0]) + " "|; }
  }

  // ----- the whole field -----

  function LinePieces(groups: seq<seq<Alternative>>, lead: string): (r: seq<string>)
    requires LineOk(groups)
    ensures |r| == |groups|
  {
    if |groups| == 1 then [lead + GroupText(groups[0])]
      else [lead + GroupText(groups[0])] + LinePieces(groups[1..], " ")
  }

  lemma {:induction false} NoComma(alts: seq<Alternative>)
    requires GroupOk(alts)
    ensures ',' !in GroupText(alts)
    decreases |alts|
  {
    hide AltOk, AltText;
    AltPlain(alts[0], "");
    assert "" + AltText(alts[0]) == AltText(alts[0]);
    if |alts| > 1 { NoComma(alts[1..]); }
  }

  lemma {:induction false} LineTokens(groups: seq<seq<Alternative>>, lead: string)
    requires LineOk(groups) && (lead == "" || lead == " ")
    ensures Tokens(lead + LineText(groups), ',') == LinePieces(groups, lead)
    decreases |groups|
  {
    hide GroupOk, GroupText, Tokens;
    var a := lead + GroupText(groups[0]);
    NoComma(groups[0]);
    GroupFirst(groups[0]);
    if |groups| == 1 {
      OneToken(a, ',');
    } else {
      LineTokens(groups[1..], " ");
      MoreTokens(a, " " + LineText(groups[1..]), ',');
      assert lead + LineText(groups) == a + "," + (" " + LineText(groups[1..]));
    }
  }

  function LineEdges(typ: EdgeType, groups: seq<seq<Alternative>>): (r: seq<TextEdge>)
    requires forall i :: 0 <= i < |groups| ==> GroupOk(groups[i])
  {
    if groups == [] then [] else LineEdges(typ, groups[..|groups| - 1]) + GroupEdges(typ, groups[|groups| - 1])
  }

  lemma {:induction false} AllGroups(typ: EdgeType, fields: seq<string>, groups: seq<seq<Alternative>>)
    requires |fields| == |groups|
    requires forall i ::
               0 <= i < |groups| ==> GroupOk(groups[i]) && Group(typ, fields[i]) == Fields(GroupEdges(typ, groups[i]))
    ensures Groups(typ, fields) == Fields(LineEdges(typ, groups))
    decreases |groups|
  {
    hide Group, GroupOk, GroupEdges;
    if groups != [] { AllGroups(typ, fields[..|groups| - 1], groups[..|groups| - 1]); }
  }

  lemma {:induction false} LinePieceBack(typ: EdgeType, groups: seq<seq<Alternative>>, lead: string, i: nat)
    requires LineOk(groups) && (lead == "" || lead == " ") && i < |groups|
    ensures Group(typ, LinePieces(groups, lead)[i]) == Fields(GroupEdges(typ, groups[i]))
    decreases |groups|
  {
    hide Group, GroupOk, GroupEdges, GroupText;
    if i > 0 { LinePieceBack(typ, groups[1..], " ", i - 1); } else { GroupBack(typ, groups[0], lead); }
  }

  /** A whole dependency field is read back: every group in order, every alternative with its
      relation and its version. */
  lemma LineBack(typ: EdgeType, groups: seq<seq<Alternative>>)
    requires LineOk(groups)
    ensures LineFields(typ, LineText(groups)) == Fields(LineEdges(typ, groups))
  {
    hide Group, GroupOk, GroupEdges, GroupText, Tokens, LinePieces, Groups, LineEdges;
    LineTokens(groups, "");
    assert "" + LineText(groups) == LineText(groups);
    forall i | 0 <= i < |groups| ensures Group(typ, LinePieces(groups, "")[i]) == Fields(GroupEdges(typ, groups[i])) {
      LinePieceBack(typ, groups, "", i);
    }
    AllGroups(typ, LinePieces(groups, ""), groups);
  }

  lemma BlankLast(typ: EdgeType, x: string, y: string)
    requires Group(typ, x).Fields? && Group(typ, y) == Crashed
    ensures Groups(typ, [x, y]) == Crashed
  {
    hide Group;
    assert [x, y][..1] == [x] && [x][..0] == [];
    assert Groups(typ, []) == Fields([]);
    assert Groups(typ, [x]) == Appended([], Group(typ, x));
    assert Groups(typ, [x, y]) == Appended(Groups(typ, [x]).edges, Group(typ, y));
  }

  lemma BlankGroup(typ: EdgeType)
    ensures Group(typ, " ") == Crashed
  {
    hide Skip, Alternatives, Tokens;
    OneSkip("", ' ');
    assert [' '] + "" == " ";
    NoTokens('|');
  }

  lemma NameGroup(typ: EdgeType, name: string)
    requires Plain(name)
    ensures Group(typ, name).Fields?
  {
    hide Group, Plain;
    var alts := [Alternative(name, VerAny, "ANY")];
    GroupBack(typ, alts, "");
    assert "" + GroupText(alts) == name;
  }

  /** Lines that go wrong: an empty one, and one that ends in a comma and a blank. */
  lemma BlankCrashes(typ: EdgeType, name: string)
    requires Plain(name)
    ensures LineFields(typ, "") == Crashed && LineFields(typ, name + [','] + " ") == Crashed
  {
    hide Group, Groups, Tokens, Plain;
    NoTokens(',');
    PlainIs(name);
    NameFirst(name);
    MoreTokens(name, " ", ',');
    OneToken(" ", ',');
    NameGroup(typ, name);
    BlankGroup(typ);
    BlankLast(typ, name, " ");
    assert [name] + [" "] == [name, " "];
  }

  /** A name and something in parentheses. */
  function Bracketed(name: string, inner: string): (s: string) { name + (" " + ("(" + inner)) }

  lemma BracketedParse(name: string, inner: string)
    requires Plain(name) && inner != "" && inner[0] !in " ("
    ensures var n, a := Span(inner, "<=>"), ParseAlternative(Bracketed(name, inner));
            if n == 0 then a == NoOperator else RelationOf(inner[..n]) == NoRelation ==> a == Illegal
  {
    hide Plain, Skip, Until, Span, Find, RelationOf;
    var f, rest := Bracketed(name, inner), "(" + inner;
    PlainIs(name);
    NameFirst(name);
    NoSkip(f, ' ');
    assert f == (name + " ") + rest;
    FindAt(name + " ", rest, '(');
    assert f[|name| + 1..] == rest;
    SpanAt("(", inner, " (");
    assert rest[1..] == inner;
  }

  /** A line of one alternative stops as the alternative does. */
  lemma OneFieldStops(typ: EdgeType, f: string)
    requires f != "" && f[0] != ' ' && ',' !in f && '|' !in f && !ParseAlternative(f).Alternative?
    ensures LineFields(typ, f) == if ParseAlternative(f).Illegal? then Died else Unset
  {
    hide Tokens, ParseAlternative, Skip;
    OneToken(f, ',');
    OneToken(f, '|');
    NoSkip(f, ' ');
    assert [f][..0] == [];
    assert Alternatives(typ, []) == Fields([]) && Groups(typ, []) == Fields([]);
    assert Alternatives(typ, [f]) == Joined(typ, [], ParseAlternative(f));
    assert Groups(typ, [f]) == Appended([], Group(typ, f));
  }

  /** Lines with an operator missing, and with one that is not known. */
  lemma OperatorWrong(typ: EdgeType, name: string, version: string)
    requires Plain(name) && Plain(version)
    ensures LineFields(typ, Bracketed(name, version + ")")) == Unset
    ensures LineFields(typ, Bracketed(name, "==" + version + ")")) == Died
  {
    hide Plain, LineFields, ParseAlternative, RelationOf;
    PlainIs(name);
    NameFirst(name);
    PlainIs(version);
    NameFirst(version);
    var unset, died := version + ")", "==" + version + ")";
    SpanAt("", unset, "<=>");
    assert "" + unset == unset && died == "==" + unset;
    SpanAt("==", unset, "<=>");
    assert died[..2] == "==";
    NotKnown();
    BracketedParse(name, unset);
    BracketedParse(name, died);
    OneFieldStops(typ, Bracketed(name, unset));
    OneFieldStops(typ, Bracketed(name, died));
  }

  lemma NotKnown()
    ensures RelationOf("==") == NoRelation
  {
    assert "=="[1] != "<="[1] || "=="[0] != "<="[0];
  }
}
