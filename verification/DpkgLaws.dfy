/** The operators of dependencies, as they are written: which versions they accept, and what that makes
    of a status file. */
module DpkgLaws {
  import opened DpkgCheck
  import opened DpkgExample
  import opened DpkgFields
  import opened DpkgIndex
  import opened DpkgRecords
  import opened DpkgRender
  import opened DpkgTables
  import opened Version
  import opened VersionLaws

  /** Version `a` is in the relation written as `rel` to version `b`. */
  predicate Fulfils(a: string, rel: string, b: string) {
    RelationOf(rel).Relation? && Holds(RelationOf(rel).op, CompareVersions(a, b))
  }

  /** The smaller of two numbers is `<<` and `<=`, and nothing else. */
  lemma SmallerFulfils(m: nat, n: nat)
    requires m < n
    ensures Fulfils(Text(m), "<<", Text(n)) && Fulfils(Text(m), "<", Text(n)) && Fulfils(Text(m), "<=", Text(n))
    ensures !Fulfils(Text(m), ">>", Text(n)) && !Fulfils(Text(m), ">", Text(n)) && !Fulfils(Text(m), ">=", Text(n))
    ensures !Fulfils(Text(m), "=", Text(n))
  {
    hide CompareVersions;
    NumbersByValue(m, n);
    Relations();
  }

  /** The larger one is `>>` and `>=`, and nothing else. */
  lemma LargerFulfils(m: nat, n: nat)
    requires m > n
    ensures Fulfils(Text(m), ">>", Text(n)) && Fulfils(Text(m), ">", Text(n)) && Fulfils(Text(m), ">=", Text(n))
    ensures !Fulfils(Text(m), "<<", Text(n)) && !Fulfils(Text(m), "<", Text(n)) && !Fulfils(Text(m), "<=", Text(n))
    ensures !Fulfils(Text(m), "=", Text(n))
  {
    hide CompareVersions;
    NumbersByValue(m, n);
    Relations();
  }

  /** A version is `=`, `<=` and `>=` itself, and nothing else. */
  lemma SameFulfils(a: string)
    ensures Fulfils(a, "=", a) && Fulfils(a, "<=", a) && Fulfils(a, ">=", a)
    ensures !Fulfils(a, "<<", a) && !Fulfils(a, "<", a) && !Fulfils(a, ">>", a) && !Fulfils(a, ">", a)
  {
    hide CompareVersions;
    Reflexive(a);
    Relations();
  }

  /** What is behind a tilde comes before. */
  lemma TildeFulfils(p: string, x: string)
    requires ':' !in p && '-' !in p && ':' !in x && '-' !in x
    ensures Fulfils(p + "~" + x, "<<", p) && !Fulfils(p + "~" + x, ">=", p)
  {
    hide CompareVersions;
    TildeOlder(p, x);
    Relations();
  }

  lemma Relations()
    ensures RelationOf("=").op == VerEqual && RelationOf("<<").op == RelationOf("<").op == VerLess
    ensures RelationOf("<=").op == VerLessEqual && RelationOf(">>").op == RelationOf(">").op == VerMore
    ensures RelationOf(">=").op == VerMoreEqual
  {
    assert "="[0] != "<"[0] && "<"[0] != ">"[0] && "="[0] != ">"[0];
    assert |"<"| == 1 && |"<<"| == 2 && "<<"[1] != "<="[1] && ">>"[1] != ">="[1];
  }

  // ----- a status file -----

  /** A dependency on a version, as it is written. */
  function Wanted(other: string, rel: string, version: string): (s: string) {
    other + " (" + rel + " " + version + ")"
  }

  function Wanting(name: string, field: string): (r: Record) {
    Record(name, "1", [Field(Depends, field)], INSTALLED)
  }

  function Versioned(name: string, version: string): (r: Record) { Record(name, version, [], INSTALLED) }

  lemma WantedEdges(name: string, other: string, op: Operator, version: string)
    requires Plain(other) && Plain(version) && op != VerAny && op != VerNull
    ensures RecordEdges(Wanting(name, Wanted(other, OpText(op), version)).fields)
         == Fields([TextEdge(Depends, other, op, version, 0)])
  {
    hide LineFields, Plain, OpText;
    var alts := [Alternative(other, op, version)];
    var field := Wanted(other, OpText(op), version);
    LineBack(Depends, [alts]);
    assert GroupText(alts) == field && LineText([alts]) == field;
    OneAlternative(Depends, alts);
    assert [alts][..0] == [] && LineEdges(Depends, [alts]) == [] + GroupEdges(Depends, alts);
    var fields := Wanting(name, field).fields;
    assert fields[..0] == [];
  }

  /** The dependency is met exactly if the version fits. */
  lemma VersionDecides(name: string, other: string, op: Operator, wanted: string, version: string)
    requires Plain(other) && Plain(wanted) && op != VerAny && op != VerNull && name != other
    ensures Satisfied([Wanting(name, Wanted(other, OpText(op), wanted)), Versioned(other, version)])
            <==> Holds(op, CompareVersions(version, wanted))
  {
    hide RecordEdges, Plain, Says, CompareVersions, Wanted, OpText;
    var rs := [Wanting(name, Wanted(other, OpText(op), wanted)), Versioned(other, version)];
    var e := TextEdge(Depends, other, op, wanted, 0);
    WantedEdges(name, other, op, wanted);
    NoFields();
    Statuses();
    assert Edges(rs[0]) == [e] && Edges(rs[1]) == [] && [e][1..] == [];
    assert Latest(rs, 1) && Says(rs[1].status, Depends);
    assert Latest(rs, 0) && Says(rs[0].status, Depends);
    assert HasStatus(rs, other, Depends) && HasStatus(rs, name, Depends);
    assert Stored(rs, 0) && Stored(rs, 1);
    assert !Fits(rs[0], e) && !ProvidesName(rs[0], other) && !ProvidesName(rs[1], other);
    assert !EntryMeets(rs, e, 0) && (EntryMeets(rs, e, 1) <==> Fits(rs[1], e));
    assert IsMet(rs, e) <==> Fits(rs[1], e);
    assert GroupsMet(rs, []) && (GroupsMet(rs, [e]) <==> IsMet(rs, e));
    forall i: nat | Stored(rs, i) ensures i == 0 || i == 1 {}
  }

  /** With the smaller of two versions there, a dependency on less than the larger is met, and one on
      more is not. */
  lemma TextDecides(name: string, other: string, m: nat, n: nat)
    requires Plain(other) && name != other && m < n
    ensures Satisfied([Wanting(name, other + " (<< " + Text(n) + ")"), Versioned(other, Text(m))])
    ensures Satisfied([Wanting(name, other + " (<= " + Text(n) + ")"), Versioned(other, Text(m))])
    ensures !Satisfied([Wanting(name, other + " (>> " + Text(n) + ")"), Versioned(other, Text(m))])
    ensures !Satisfied([Wanting(name, other + " (>= " + Text(n) + ")"), Versioned(other, Text(m))])
    ensures !Satisfied([Wanting(name, other + " (= " + Text(n) + ")"), Versioned(other, Text(m))])
  {
    hide Satisfied, Plain, CompareVersions, Wanting, Versioned, Text;
    NumberText(n);
    NumbersByValue(m, n);
    var w := Text(n);
    assert Wanted(other, "<<", w) == other + " (<< " + w + ")" && Wanted(other, "<=", w) == other + " (<= " + w + ")";
    assert Wanted(other, ">>", w) == other + " (>> " + w + ")" && Wanted(other, ">=", w) == other + " (>= " + w + ")";
    assert Wanted(other, "=", w) == other + " (= " + w + ")";
    VersionDecides(name, other, VerLess, w, Text(m));
    VersionDecides(name, other, VerLessEqual, w, Text(m));
    VersionDecides(name, other, VerMore, w, Text(m));
    VersionDecides(name, other, VerMoreEqual, w, Text(m));
    VersionDecides(name, other, VerEqual, w, Text(m));
  }

  lemma PairFits(name: string, other: string, op: Operator, wanted: string, version: string)
    requires Plain(other) && Plain(wanted) && op != VerAny && op != VerNull
    requires NoNul(name) && NoNul(other) && NoNul(wanted) && NoNul(version) && version != "unknown"
    ensures var rs := [Wanting(name, Wanted(other, OpText(op), wanted)), Versioned(other, version)];
            Needed(rs) == 16 && Known(rs) == rs && IsText(rs[0]) && IsText(rs[1]) && AllLegal(rs)
  {
    hide RecordEdges, Plain;
    var a, b := Wanting(name, Wanted(other, OpText(op), wanted)), Versioned(other, version);
    WantedEdges(name, other, op, wanted);
    NoFields();
    assert NamesOf(a) == 6 && NamesOf(b) == 4;
    assert [a, b][1..] == [b] && [b][1..] == [];
    assert Needed([]) == 2 && Needed([b]) == 8;
    assert |"1"| != |"unknown"|;
    TwoKnown(a, b);
    FieldText(other, op, wanted);
  }

  lemma FieldText(other: string, op: Operator, wanted: string)
    requires NoNul(other) && NoNul(wanted)
    ensures NoNul(Wanted(other, OpText(op), wanted))
  {
    var a, b, c := other, " (" + OpText(op) + " ", wanted;
    assert NoNul(b);
    assert Wanted(other, OpText(op), wanted) == a + b + c + ")";
  }

  lemma NumberText(n: nat)
    ensures Plain(Text(n)) && NoNul(Text(n)) && Text(n) != "unknown"
  {
    var s := Text(n);
    forall k | 0 <= k < |s| ensures !Among(s[k], " ,|()<=>") && s[k] != '\0' { assert IsDigit(s[k]); }
    assert IsDigit(s[0]) && "unknown"[0] == 'u';
  }

  /** What the program makes of a file with one dependency on a version. */
  method OneVersion(name: string, other: string, op: Operator, wanted: nat, version: nat) returns (r: Outcome)
    requires Plain(name) && NoNul(name) && Plain(other) && NoNul(other) && name != other
    requires op != VerAny && op != VerNull
    ensures r == Checked(Holds(op, Sign(version - wanted)))
  {
    hide Needed, Known, IsText, Satisfied, Legal, Plain, NoNul, Wanting, Versioned, Holds, Wanted, OpText,
      CompareVersions;
    var w, v := Text(wanted), Text(version);
    NumberText(wanted);
    NumberText(version);
    NumbersByValue(version, wanted);
    PairFits(name, other, op, w, v);
    VersionDecides(name, other, op, w, v);
    r := CheckStatusFile([Wanting(name, Wanted(other, OpText(op), w)), Versioned(other, v)]);
  }

  /** A dependency on a smaller version, on a larger one and on the same. */
  method VersionFiles(name: string, other: string, m: nat, n: nat) returns (less: Outcome, more: Outcome, same: Outcome)
    requires Plain(name) && NoNul(name) && Plain(other) && NoNul(other) && name != other && m < n
    ensures less == Checked(true) && more == Checked(false) && same == Checked(false)
  {
    hide Plain, NoNul;
    less := OneVersion(name, other, VerLess, n, m);
    more := OneVersion(name, other, VerMore, n, m);
    same := OneVersion(name, other, VerEqual, n, m);
  }
}
