/** The entries of the status file become tables that the dependency pass can work on. */
module DpkgLoad {
  import opened Arith
  import opened DpkgCheck
  import opened DpkgDeps
  import opened DpkgFields
  import opened DpkgGrown
  import opened DpkgLink
  import opened DpkgRecords
  import opened DpkgState
  import opened DpkgTables
  import opened OpenTable
  import opened Probe
  import opened Version

  // ----- the edges of an entry -----

  lemma {:induction false} TokensNoNul(s: string, sep: char, i: nat)
    requires NoNul(s) && i < |Tokens(s, sep)|
    ensures NoNul(Tokens(s, sep)[i])
    decreases |s|
  {
    hide Skip, Find;
    var t := s[Skip(s, sep)..];
    var n := Find(t, sep);
    if i > 0 { TokensNoNul(t[n..], sep, i - 1); }
  }

  lemma AlternativeNoNul(field: string)
    requires NoNul(field) && ParseAlternative(field).Alternative?
    ensures NoNul(ParseAlternative(field).name) && NoNul(ParseAlternative(field).version)
  {
    hide Skip, Find, Until, Span, RelationOf;
    assert NoNul("ANY");
  }

  ghost predicate TextOk(e: TextEdge) { NoNul(e.name) && NoNul(e.version) }

  lemma {:induction false} AlternativesNoNul(typ: EdgeType, alts: seq<string>, i: nat)
    requires (forall k :: 0 <= k < |alts| ==> NoNul(alts[k])) && Alternatives(typ, alts).Fields? && i < |alts|
    ensures TextOk(Alternatives(typ, alts).edges[i])
    decreases |alts|
  {
    hide ParseAlternative, NoNul;
    var n := |alts| - 1;
    if i < n { AlternativesNoNul(typ, alts[..n], i); } else { AlternativeNoNul(alts[n]); }
  }

  lemma GroupNoNul(typ: EdgeType, field: string, i: nat)
    requires NoNul(field) && Group(typ, field).Fields? && i < |Group(typ, field).edges|
    ensures TextOk(Group(typ, field).edges[i])
  {
    hide Tokens, Alternatives, Skip;
    var f := field[Skip(field, ' ')..];
    var alts := Tokens(f, '|');
    forall k | 0 <= k < |alts| ensures NoNul(alts[k]) { TokensNoNul(f, '|', k); }
    forall k | 0 <= k < |alts| ensures TextOk(Alternatives(typ, alts).edges[k]) { AlternativesNoNul(typ, alts, k); }
    assert NoNul("");
  }

  lemma {:induction false} GroupsNoNul(typ: EdgeType, fields: seq<string>, i: nat)
    requires (forall k :: 0 <= k < |fields| ==> NoNul(fields[k])) && Groups(typ, fields).Fields?
             && i < |Groups(typ, fields).edges|
    ensures TextOk(Groups(typ, fields).edges[i])
    decreases |fields|
  {
    hide Group, NoNul;
    var n := |fields| - 1;
    var k := |Groups(typ, fields[..n]).edges|;
    if i < k { GroupsNoNul(typ, fields[..n], i); } else { GroupNoNul(typ, fields[n], i - k); }
  }

  lemma LineNoNul(typ: EdgeType, line: string, i: nat)
    requires NoNul(line) && LineFields(typ, line).Fields? && i < |LineFields(typ, line).edges|
    ensures TextOk(LineFields(typ, line).edges[i])
  {
    hide Tokens, Groups;
    var fields := Tokens(line, ',');
    forall k | 0 <= k < |fields| ensures NoNul(fields[k]) { TokensNoNul(line, ',', k); }
    GroupsNoNul(typ, fields, i);
  }

  ghost predicate FieldsOk(fields: seq<Field>) {
    forall i ::
      0 <= i < |fields| ==> NoNul(fields[i].text) && fields[i].typ != OrPreDepends && fields[i].typ != OrDepends
  }

  lemma {:induction false} EdgesNoNul(fields: seq<Field>, i: nat)
    requires FieldsOk(fields) && RecordEdges(fields).Fields? && i < |RecordEdges(fields).edges|
    ensures TextOk(RecordEdges(fields).edges[i])
    decreases |fields|
  {
    hide LineFields, NoNul;
    var n := |fields| - 1;
    var k := |RecordEdges(fields[..n]).edges|;
    if i < k { EdgesNoNul(fields[..n], i); } else { LineNoNul(fields[n].typ, fields[n].text, i - k); }
  }

  /** The edges of an entry are groups, as the pass reads them. */
  lemma {:induction false} EdgesFormed(names: seq<Name>, fields: seq<Field>, es: seq<Edge>)
    requires FieldsOk(fields) && RecordEdges(fields).Fields? && AllInterned(names, RecordEdges(fields).edges, es)
    ensures Formed(es)
    decreases |fields|
  {
    hide LineFields, Interned, NoNul;
    if fields == [] {
      assert es == [];
    } else {
      var n := |fields| - 1;
      var before, last := RecordEdges(fields[..n]).edges, LineFields(fields[n].typ, fields[n].text).edges;
      var k := |before|;
      assert es == es[..k] + es[k..];
      forall i | 0 <= i < |last|
        ensures Interned(names, last[i], es[k..][i])
      {
        assert (before + last)[k + i] == last[i];
      }
      forall i | 0 <= i < k ensures Interned(names, before[i], es[..k][i]) { assert (before + last)[i] == before[i]; }
      EdgesFormed(names, fields[..n], es[..k]);
      LineFormed(names, fields[n], es[k..]);
      FormedAppend(es[..k], es[k..]);
    }
  }

  lemma LineFormed(names: seq<Name>, f: Field, es: seq<Edge>)
    requires f.typ != OrPreDepends && f.typ != OrDepends && LineFields(f.typ, f.text).Fields?
             && AllInterned(names, LineFields(f.typ, f.text).edges, es)
    ensures Formed(es)
  {
    hide Tokens, Groups, Interned;
    GroupsFormed(names, f.typ, Tokens(f.text, ','), es);
  }

  lemma {:induction false} EdgesStop(fields: seq<Field>, n: nat)
    requires n <= |fields| && !RecordEdges(fields[..n]).Fields?
    ensures RecordEdges(fields) == RecordEdges(fields[..n])
    decreases |fields|
  {
    hide LineFields;
    if n == |fields| {
      assert fields[..n] == fields;
    } else {
      var rest := fields[..|fields| - 1];
      assert rest[..n] == fields[..n];
      EdgesStop(rest, n);
    }
  }

  /** The fields of an entry, one by one. */
  method ReadFields(fields: seq<Field>) returns (r: Fields)
    ensures r == RecordEdges(fields)
  {
    hide LineFields;
    var acc: seq<TextEdge>, i := [], 0;
    assert fields[..0] == [];
    while i < |fields|
      invariant 0 <= i <= |fields| && RecordEdges(fields[..i]) == Fields(acc)
    {
      assert fields[..i + 1][..i] == fields[..i];
      var more := AddSplitDependencies(fields[i].text, fields[i].typ);
      if !more.Fields? {
        EdgesStop(fields, i + 1);
        return more;
      }
      acc, i := acc + more.edges, i + 1;
    }
    assert fields[..i] == fields;
    r := Fields(acc);
  }

  // ----- the tables are good enough for the pass -----

  lemma FreeSlot(taken: seq<bool>, own: seq<nat>, p: nat, n: nat)
    requires |taken| >= p == |own| > n && (forall x :: 0 <= x < p && taken[x] ==> own[x] < n)
    requires forall x, y :: 0 <= x < y < p && taken[x] && taken[y] ==> own[x] != own[y]
    ensures exists x :: 0 <= x < p && !taken[x]
  {
    hide Below;
    if forall x :: 0 <= x < p ==> taken[x] {
      var s := Images(own, n, p);
      BelowCount(n);
      forall a | a in s ensures a in Below(n) { BelowHas(n, a); }
      SubsetSize(s, Below(n));
    }
  }

  lemma LoadedOk(db: Db, rs: seq<Record>, own: seq<nat>, sown: seq<nat>)
    requires Loaded(db, rs, own, sown) && |rs| < STATUS_HASH_PRIME
    ensures DbOk(db)
  {
    hide NamesOk, PackagesOk, StatusOk, Formed, Edges;
    PackageFree(db, rs, own);
    StatusFree(db, rs, sown);
    TablesSizes(db, rs, own, sown);
    forall x | 0 <= x < PACKAGE_HASH_PRIME && db.pkgs[x].Package?
      ensures EdgesOk(db, db.pkgs[x].edges) && Formed(db.pkgs[x].edges)
    {
      assert Owned(db, rs, own, x);
      EdgesGood(db, rs[own[x]], db.pkgs[x].edges);
    }
  }

  lemma TablesSizes(db: Db, rs: seq<Record>, own: seq<nat>, sown: seq<nat>)
    requires Loaded(db, rs, own, sown)
    ensures |db.pkgs| == PACKAGE_HASH_PRIME + 1 && |db.sts| == STATUS_HASH_PRIME + 1
  {
    hide NamesOk, PackagesAre, StatusesAre, OnPath;
  }

  lemma EdgesGood(db: Db, r: Record, es: seq<Edge>)
    requires Legal(r) && AllInterned(db.names, Edges(r), es)
    ensures EdgesOk(db, es) && Formed(es)
  {
    hide RecordEdges, NoNul, Formed;
    EdgesFormed(db.names, r.fields, es);
    forall j | 0 <= j < |es| && !IsOr(es[j]) ensures Named(db.names, es[j].name) && Named(db.names, es[j].version) {
      assert Interned(db.names, Edges(r)[j], es[j]);
    }
  }

  lemma PackageFree(db: Db, rs: seq<Record>, own: seq<nat>)
    requires PackagesAre(db, rs, own) && |rs| < STATUS_HASH_PRIME
    ensures exists x :: 0 <= x < PACKAGE_HASH_PRIME && db.pkgs[x].NoPackage?
  {
    hide IsRecord;
    forall x: nat | x < PACKAGE_HASH_PRIME && db.pkgs[x].Package?
      ensures own[x] < |rs|
    {
      assert Owned(db, rs, own, x);
    }
    FreeSlot(PackagesTaken(db.pkgs), own, PACKAGE_HASH_PRIME, |rs|);
    var x :| 0 <= x < PACKAGE_HASH_PRIME && !PackagesTaken(db.pkgs)[x];
    assert db.pkgs[x].NoPackage?;
  }

  lemma StatusFree(db: Db, rs: seq<Record>, own: seq<nat>)
    requires StatusesAre(db, rs, own) && |rs| < STATUS_HASH_PRIME
    ensures exists x :: 0 <= x < STATUS_HASH_PRIME && db.sts[x].NoStatus?
  {
    hide IsEntry, NameIs;
    forall x: nat | x < STATUS_HASH_PRIME && db.sts[x].Status?
      ensures own[x] < |rs|
    {
      assert StatusOwned(db, rs, own, x);
    }
    FreeSlot(StatusTaken(db.sts), own, STATUS_HASH_PRIME, |rs|);
    var x :| 0 <= x < STATUS_HASH_PRIME && !StatusTaken(db.sts)[x];
    assert db.sts[x].NoStatus?;
  }
}
