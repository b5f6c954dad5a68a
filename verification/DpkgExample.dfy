/** A status file that is in order and one that is not. */
module DpkgExample {
  import opened DpkgCheck
  import opened DpkgFields
  import opened DpkgIndex
  import opened DpkgRecords
  import opened DpkgRender
  import opened DpkgTables
  import opened Version

  const INSTALLED: string := "install ok installed"

  /** An installed package that depends on another by name. */
  function Needing(name: string, other: string): (r: Record) {
    Record(name, "1", [Field(Depends, other)], INSTALLED)
  }

  function Alone(name: string): (r: Record) { Record(name, "1", [], INSTALLED) }

  lemma NameLine(typ: EdgeType, name: string)
    requires Plain(name)
    ensures LineFields(typ, name) == Fields([TextEdge(typ, name, VerAny, "ANY", 0)])
  {
    hide LineFields, Plain;
    var alts := [Alternative(name, VerAny, "ANY")];
    LineBack(typ, [alts]);
    assert GroupText(alts) == name && LineText([alts]) == name;
    OneAlternative(typ, alts);
    assert [alts][..0] == [] && LineEdges(typ, [alts]) == [] + GroupEdges(typ, alts);
  }

  lemma OneAlternative(typ: EdgeType, alts: seq<Alternative>)
    requires GroupOk(alts) && |alts| == 1
    ensures GroupEdges(typ, alts) == [EdgeOf(typ, alts[0])]
  {
    assert EdgesOf(typ, alts[..0]) == [];
  }

  lemma NeedingEdges(name: string, other: string)
    requires Plain(other)
    ensures RecordEdges(Needing(name, other).fields) == Fields([TextEdge(Depends, other, VerAny, "ANY", 0)])
  {
    hide LineFields, Plain;
    NameLine(Depends, other);
    var fields := Needing(name, other).fields;
    assert fields[..0] == [];
  }

  lemma ExampleLegal(name: string, other: string)
    requires Plain(name) && NoNul(name) && Plain(other) && NoNul(other)
    ensures Legal(Needing(name, other)) && Legal(Alone(other))
  {
    hide RecordEdges, Plain;
    NeedingEdges(name, other);
    assert RecordEdges([]) == Fields([]) by { NoFields(); }
  }

  lemma NoFields()
    ensures RecordEdges([]) == Fields([])
  {
  }

  /** With the other package the dependency is met. */
  lemma Complete(name: string, other: string)
    requires Plain(name) && Plain(other) && name != other
    ensures Satisfied([Needing(name, other), Alone(other)])
  {
    hide RecordEdges, Plain, Says, CompareVersions;
    var rs := [Needing(name, other), Alone(other)];
    var e := TextEdge(Depends, other, VerAny, "ANY", 0);
    NeedingEdges(name, other);
    NoFields();
    Statuses();
    assert Latest(rs, 1) && rs[1].name == other && Says(rs[1].status, Depends);
    assert HasStatus(rs, other, Depends);
    assert EntryMeets(rs, e, 1);
    assert Edges(rs[0]) == [e] && Edges(rs[1]) == [];
    assert [e][1..] == [] && IsMet(rs, e);
    assert GroupsMet(rs, []) && GroupsMet(rs, [e]);
    forall i: nat | Stored(rs, i) ensures GroupsMet(rs, Edges(rs[i])) { assert i == 0 || i == 1; }
  }

  /** Without it, the dependency of a package that is wanted is not met. */
  lemma Missing(name: string, other: string)
    requires Plain(name) && Plain(other) && name != other
    ensures HasStatus([Needing(name, other)], name, Depends) && !Satisfied([Needing(name, other)])
  {
    hide RecordEdges, Plain, Says, CompareVersions;
    var rs := [Needing(name, other)];
    var e := TextEdge(Depends, other, VerAny, "ANY", 0);
    NeedingEdges(name, other);
    Statuses();
    assert Edges(rs[0]) == [e];
    assert Latest(rs, 0) && Says(rs[0].status, Depends);
    assert HasStatus(rs, name, Depends);
    assert !Fits(rs[0], e) && !ProvidesName(rs[0], other);
    assert !IsMet(rs, e);
    assert Stored(rs, 0);
  }

  lemma ExampleFits(name: string, other: string)
    requires Plain(other)
    ensures Needed([Needing(name, other), Alone(other)]) == 16 && Needed([Needing(name, other)]) == 10
  {
    hide RecordEdges, Plain;
    var a, b := Needing(name, other), Alone(other);
    NeedingEdges(name, other);
    NoFields();
    assert NamesOf(a) == 6 && NamesOf(b) == 4;
    assert [a, b][1..] == [b] && [b][1..] == [] && [a][1..] == [];
    assert Needed([]) == 2 && Needed([b]) == 8;
  }

  lemma OneKnown(a: Record)
    requires a.version != "unknown"
    ensures Known([a]) == [a]
  {
    assert [a][..0] == [];
  }

  lemma TwoKnown(a: Record, b: Record)
    requires a.version != "unknown" && b.version != "unknown"
    ensures Known([a, b]) == [a, b]
  {
    OneKnown(a);
    assert [a, b][..1] == [a];
  }

  lemma ExampleText(name: string, other: string)
    requires NoNul(name) && NoNul(other)
    ensures IsText(Needing(name, other)) && IsText(Alone(other))
    ensures Needing(name, other).version != "unknown" && Alone(other).version != "unknown"
  {
    assert |"1"| != |"unknown"|;
  }

  /** The program tells the two files apart. */
  method TwoFiles(name: string, other: string) returns (complete: Outcome, missing: Outcome)
    requires Plain(name) && NoNul(name) && Plain(other) && NoNul(other) && name != other
    ensures complete == Checked(true) && missing == Checked(false)
  {
    hide Needed, Known, IsText, Satisfied, Legal, Plain, NoNul, HasStatus, Needing, Alone;
    var rs := [Needing(name, other), Alone(other)];
    ExampleFits(name, other);
    ExampleText(name, other);
    OneKnown(rs[0]);
    TwoKnown(rs[0], rs[1]);
    ExampleLegal(name, other);
    Complete(name, other);
    Missing(name, other);
    assert rs[..1] == [Needing(name, other)];
    complete := CheckStatusFile(rs);
    missing := CheckStatusFile(rs[..1]);
  }
}
