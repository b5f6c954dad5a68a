/** The entries of the status file as text, and what it means for the dependencies among them to be
    met: no tables, no numbers, no edges that count others. */
module DpkgRecords {
  import opened DpkgCheck
  import opened DpkgFields
  import opened DpkgTables
  import opened Version

  /** A dependency field: its kind and its text. */
  datatype Field = Field(typ: EdgeType, text: string)

  datatype Record = Record(name: string, version: string, fields: seq<Field>, status: string)

  /** The edges of all fields of a record, in order. */
  function RecordEdges(fields: seq<Field>): (r: Fields) {
    if fields == [] then Fields([])
    else
      var n := |fields| - 1;
      match RecordEdges(fields[..n])
      case Fields(es) => Appended(es, LineFields(fields[n].typ, fields[n].text))
      case r => r
  }

  /** A record that can be read: C strings, and fields that do not end the program. */
  ghost predicate Legal(r: Record) {
    && NoNul(r.name) && NoNul(r.version) && NoNul(r.status)
    && (forall i ::
        0 <= i < |r.fields| ==>
          NoNul(r.fields[i].text) && r.fields[i].typ != OrPreDepends && r.fields[i].typ != OrDepends)
    && RecordEdges(r.fields).Fields?
  }

  /** The edges of a legal record. */
  function Edges(r: Record): (es: seq<TextEdge>) {
    if RecordEdges(r.fields).Fields? then RecordEdges(r.fields).edges else []
  }

  // ----- which entries count -----

  /** A later entry of the same name and an equal version replaces an earlier one. */
  predicate Replaces(new_: Record, old_: Record) {
    new_.name == old_.name && CompareVersions(old_.version, new_.version) == 0
  }

  ghost predicate Stored(rs: seq<Record>, i: nat) {
    i < |rs| && forall j :: i < j < |rs| ==> !Replaces(rs[j], rs[i])
  }

  /** The status of a name is that of its last entry. */
  ghost predicate Latest(rs: seq<Record>, i: nat) {
    i < |rs| && forall j :: i < j < |rs| ==> rs[j].name != rs[i].name
  }

  // ----- what must be met -----

  ghost predicate HasStatus(rs: seq<Record>, key: string, typ: EdgeType) {
    exists i: nat :: Latest(rs, i) && rs[i].name == key && Says(rs[i].status, typ)
  }

  predicate Fits(r: Record, e: TextEdge) {
    r.name == e.name && (e.op == VerAny || Holds(e.op, CompareVersions(r.version, e.version)))
  }

  ghost predicate ProvidesName(r: Record, key: string) {
    exists j :: 0 <= j < |Edges(r)| && Edges(r)[j].typ == Provides && Edges(r)[j].name == key
  }

  /** A dependency is met by an entry of its name and a version that fits, or by one that provides
      its name, if the status is right. */
  ghost predicate EntryMeets(rs: seq<Record>, e: TextEdge, i: nat)
    requires i < |rs|
  {
    Stored(rs, i)
    && ((Fits(rs[i], e) && HasStatus(rs, e.name, e.typ))
        || (ProvidesName(rs[i], e.name) && HasStatus(rs, rs[i].name, e.typ)))
  }

  ghost predicate IsMet(rs: seq<Record>, e: TextEdge) {
    exists i: nat :: i < |rs| && EntryMeets(rs, e, i)
  }

  predicate StartsGroup(e: TextEdge) { e.typ == OrPreDepends || e.typ == OrDepends }

  ghost predicate SomeMet(rs: seq<Record>, es: seq<TextEdge>, from: nat, to: nat)
    requires from <= to <= |es|
  {
    exists i :: from <= i < to && IsMet(rs, es[i])
  }

  /** Every group has an alternative that is met. */
  ghost predicate GroupsMet(rs: seq<Record>, es: seq<TextEdge>)
    decreases |es|
  {
    if es == [] then true
    else if StartsGroup(es[0]) then
      es[0].count < |es| && SomeMet(rs, es, 1, es[0].count + 1) && GroupsMet(rs, es[es[0].count + 1..])
    else (es[0].typ == PreDepends || es[0].typ == Depends ==> IsMet(rs, es[0])) && GroupsMet(rs, es[1..])
  }

  /** The dependencies of every entry whose name is wanted are met. */
  ghost predicate Satisfied(rs: seq<Record>) {
    forall i: nat :: Stored(rs, i) && HasStatus(rs, rs[i].name, Depends) ==> GroupsMet(rs, Edges(rs[i]))
  }

  // ----- one more entry -----

  lemma StoredMore(rs: seq<Record>, r: Record, i: nat)
    requires i < |rs|
    ensures Stored(rs + [r], i) <==> Stored(rs, i) && !Replaces(r, rs[i])
  {
    hide Replaces;
    var all := rs + [r];
    assert all[|rs|] == r;
    if Stored(all, i) {
      forall j | i < j < |rs| ensures !Replaces(rs[j], rs[i]) { assert all[j] == rs[j]; }
      assert !Replaces(all[|rs|], all[i]);
    }
  }

  lemma LatestMore(rs: seq<Record>, r: Record, i: nat)
    requires i < |rs|
    ensures Latest(rs + [r], i) <==> Latest(rs, i) && r.name != rs[i].name
  {
    var all := rs + [r];
    assert all[|rs|] == r;
    if Latest(all, i) {
      forall j | i < j < |rs| ensures rs[j].name != rs[i].name { assert all[j] == rs[j]; }
    }
  }

  lemma LastIs(rs: seq<Record>, r: Record)
    ensures Stored(rs + [r], |rs|) && Latest(rs + [r], |rs|)
  {
  }

  /** Two entries that the same one replaces, replace one another. */
  lemma ReplaceBoth(r: Record, a: Record, b: Record)
    requires Replaces(r, a) && Replaces(r, b)
    ensures Replaces(b, a)
  {
    hide CompareVersions;
    Antisymmetric(b.version, r.version);
    Transitive(a.version, r.version, b.version);
    Antisymmetric(a.version, r.version);
    Transitive(b.version, r.version, a.version);
    Antisymmetric(a.version, b.version);
  }
}
