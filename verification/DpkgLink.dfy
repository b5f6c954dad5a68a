/** The tables stand for the entries of the status file: what the dependency pass decides about the
    tables is what the entries say. */
module DpkgLink {
  import opened DpkgCheck
  import opened DpkgDeps
  import opened DpkgFields
  import opened DpkgGrown
  import opened DpkgRecords
  import opened DpkgTables
  import opened Probe
  import opened Version

  /** The package is the entry: its name, its version and its edges. */
  ghost predicate IsRecord(names: seq<Name>, p: Package, r: Record) {
    && p.Package? && NameIs(names, p.name, r.name) && NameIs(names, p.version, r.version)
    && AllInterned(names, Edges(r), p.edges)
  }

  ghost predicate Owned(db: Db, rs: seq<Record>, own: seq<nat>, x: nat)
    requires x < |own| && x < |db.pkgs|
  {
    Stored(rs, own[x]) && IsRecord(db.names, db.pkgs[x], rs[own[x]])
  }

  ghost predicate Holder(pkgs: seq<Package>, own: seq<nat>, i: nat, x: nat) {
    x < PACKAGE_HASH_PRIME && x < |pkgs| && x < |own| && pkgs[x].Package? && own[x] == i
  }

  /** Every package is an entry that counts, and every such entry is a package once; `own` tells which. */
  ghost predicate PackagesAre(db: Db, rs: seq<Record>, own: seq<nat>) {
    && |own| == PACKAGE_HASH_PRIME < |db.pkgs|
    && (forall x: nat :: x < PACKAGE_HASH_PRIME && db.pkgs[x].Package? ==> Owned(db, rs, own, x))
    && (forall x: nat, y: nat | x < PACKAGE_HASH_PRIME && y < PACKAGE_HASH_PRIME ::
          db.pkgs[x].Package? && db.pkgs[y].Package? && own[x] == own[y] ==> x == y)
    && forall i: nat :: Stored(rs, i) ==> exists x: nat :: Holder(db.pkgs, own, i, x)
  }

  ghost predicate StatusOwned(db: Db, rs: seq<Record>, own: seq<nat>, x: nat)
    requires x < |own| && x < |db.sts| && db.sts[x].Status?
  {
    Latest(rs, own[x]) && IsEntry(db.names, db.pkgs, db.sts[x], rs[own[x]].name)
    && NameIs(db.names, db.sts[x].status, rs[own[x]].status)
  }

  ghost predicate StatusHolder(sts: seq<Status>, own: seq<nat>, i: nat, x: nat) {
    x < STATUS_HASH_PRIME && x < |sts| && x < |own| && sts[x].Status? && own[x] == i
  }

  /** Every status is that of the last entry of a name, and every such entry has one. */
  ghost predicate StatusesAre(db: Db, rs: seq<Record>, own: seq<nat>) {
    && |own| == STATUS_HASH_PRIME < |db.sts|
    && (forall x: nat :: x < STATUS_HASH_PRIME && db.sts[x].Status? ==> StatusOwned(db, rs, own, x))
    && (forall x: nat, y: nat | x < STATUS_HASH_PRIME && y < STATUS_HASH_PRIME ::
          db.sts[x].Status? && db.sts[y].Status? && own[x] == own[y] ==> x == y)
    && forall i: nat :: Latest(rs, i) ==> exists x: nat :: StatusHolder(db.sts, own, i, x)
  }

  // ----- the same meaning -----

  lemma StatusSame(db: Db, rs: seq<Record>, own: seq<nat>, key: string, typ: EdgeType)
    requires StatusesAre(db, rs, own)
    ensures Satisfies(db, key, typ) <==> HasStatus(rs, key, typ)
  {
    hide Says, NoNul;
    if Satisfies(db, key, typ) {
      var x :| 0 <= x < STATUS_HASH_PRIME && x < |db.sts| && IsEntry(db.names, db.pkgs, db.sts[x], key)
        && Says(db.names[db.sts[x].status].s, typ);
      assert StatusOwned(db, rs, own, x);
      assert Latest(rs, own[x]) && rs[own[x]].name == key && Says(rs[own[x]].status, typ);
    }
    if HasStatus(rs, key, typ) {
      var i: nat :| Latest(rs, i) && rs[i].name == key && Says(rs[i].status, typ);
      var x: nat :| StatusHolder(db.sts, own, i, x);
      assert StatusOwned(db, rs, own, x);
    }
  }

  lemma MatchSame(names: seq<Name>, p: Package, r: Record, e: Edge, te: TextEdge)
    requires NamesOk(names) && IsRecord(names, p, r) && Interned(names, te, e) && !IsOr(e)
    ensures Matches(names, p, e.name, e.version, e.op) <==> Fits(r, te)
  {
    hide NamesOk, AllInterned, CompareVersions, Holds, NoNul;
    if p.name != e.name && r.name == te.name { SameIndex(names, p.name, e.name); }
  }

  lemma ProvidedSame(names: seq<Name>, p: Package, r: Record, name: nat, key: string)
    requires NamesOk(names) && IsRecord(names, p, r) && NameIs(names, name, key)
    ensures Provided(p, name) <==> ProvidesName(r, key)
  {
    hide NamesOk, NoNul, Edges;
    var ts := Edges(r);
    if Provided(p, name) {
      var j :| 0 <= j < |p.edges| && p.edges[j].typ == Provides && p.edges[j].name == name;
      assert Interned(names, ts[j], p.edges[j]);
      assert ts[j].typ == Provides && ts[j].name == key;
    }
    if ProvidesName(r, key) {
      var j :| 0 <= j < |ts| && ts[j].typ == Provides && ts[j].name == key;
      assert Interned(names, ts[j], p.edges[j]);
      SameIndex(names, p.edges[j].name, name);
    }
  }

  /** A dependency is met in the tables exactly if it is met by the entries. */
  lemma MetSame(db: Db, rs: seq<Record>, own: seq<nat>, sown: seq<nat>, e: Edge, te: TextEdge)
    requires NamesOk(db.names) && PackagesAre(db, rs, own) && StatusesAre(db, rs, sown) && Interned(db.names, te, e)
             && !IsOr(e)
    ensures Met(db, e) <==> IsMet(rs, te)
  {
    hide NamesOk, StatusesAre, Satisfies, HasStatus, Stored, Fits, ProvidesName, IsRecord, AllInterned, NoNul,
      CompareVersions, Holds;
    if Met(db, e) {
      var x: nat :| x < PACKAGE_HASH_PRIME && x < |db.pkgs|
        && ((Matches(db.names, db.pkgs[x], e.name, e.version, e.op) && Satisfies(db, NameAt(db, e.name), e.typ))
            || (Provided(db.pkgs[x], e.name) && Satisfies(db, NameAt(db, db.pkgs[x].name), e.typ)));
      IsPackage(db.names, db.pkgs[x], e);
      MetOne(db, rs, own, sown, e, te, x);
    }
    if IsMet(rs, te) {
      var i: nat :| i < |rs| && EntryMeets(rs, te, i);
      var x: nat :| Holder(db.pkgs, own, i, x);
      MetOne(db, rs, own, sown, e, te, x);
    }
  }

  lemma IsPackage(names: seq<Name>, p: Package, e: Edge)
    ensures Matches(names, p, e.name, e.version, e.op) || Provided(p, e.name) ==> p.Package?
  {
  }

  lemma MetOne(db: Db, rs: seq<Record>, own: seq<nat>, sown: seq<nat>, e: Edge, te: TextEdge, x: nat)
    requires NamesOk(db.names) && PackagesAre(db, rs, own) && StatusesAre(db, rs, sown) && Interned(db.names, te, e)
             && !IsOr(e)
    requires x < PACKAGE_HASH_PRIME && db.pkgs[x].Package?
    ensures own[x] < |rs| && NameAt(db, e.name) == te.name && e.typ == te.typ
    ensures EntryMeets(rs, te, own[x]) <==>
              ((Matches(db.names, db.pkgs[x], e.name, e.version, e.op) && Satisfies(db, NameAt(db, e.name), e.typ))
                                             || (Provided(db.pkgs[x], e.name)
                                                 && Satisfies(db, NameAt(db, db.pkgs[x].name), e.typ)))
  {
    hide NamesOk, StatusesAre, Satisfies, HasStatus, Matches, Fits, Provided, ProvidesName, AllInterned, NoNul;
    assert Owned(db, rs, own, x);
    var r := rs[own[x]];
    MatchSame(db.names, db.pkgs[x], r, e, te);
    ProvidedSame(db.names, db.pkgs[x], r, e.name, te.name);
    StatusSame(db, rs, sown, te.name, te.typ);
    StatusSame(db, rs, sown, r.name, te.typ);
  }

  lemma {:induction false} GroupsSame(db: Db, rs: seq<Record>, own: seq<nat>, sown: seq<nat>, es: seq<Edge>,
                                      ts: seq<TextEdge>)
    requires NamesOk(db.names) && PackagesAre(db, rs, own) && StatusesAre(db, rs, sown)
             && AllInterned(db.names, ts, es) && Formed(es)
    ensures AllMet(db, es) <==> GroupsMet(rs, ts)
    decreases |es|
  {
    hide NamesOk, PackagesAre, StatusesAre, Met, IsMet, Interned;
    if es != [] {
      InternedKind(db.names, ts[0], es[0]);
      if IsOr(es[0]) {
        var n := es[0].version;
        forall i | 1 <= i <= n
          ensures Met(db, es[i]) <==> IsMet(rs, ts[i])
        {
          MetSame(db, rs, own, sown, es[i], ts[i]);
        }
        assert OneMet(db, es, 1, n + 1) <==> SomeMet(rs, ts, 1, n + 1);
        RestInterned(db.names, ts, es, n + 1);
        GroupsSame(db, rs, own, sown, es[n + 1..], ts[n + 1..]);
      } else {
        MetSame(db, rs, own, sown, es[0], ts[0]);
        RestInterned(db.names, ts, es, 1);
        GroupsSame(db, rs, own, sown, es[1..], ts[1..]);
      }
    }
  }

  lemma InternedKind(names: seq<Name>, t: TextEdge, e: Edge)
    requires Interned(names, t, e)
    ensures e.typ == t.typ && (IsOr(e) <==> StartsGroup(t)) && (IsOr(e) ==> e.version == t.count)
  {
  }

  lemma RestInterned(names: seq<Name>, ts: seq<TextEdge>, es: seq<Edge>, n: nat)
    requires AllInterned(names, ts, es) && n <= |es|
    ensures AllInterned(names, ts[n..], es[n..])
  {
    hide Interned;
  }

  /** The pass decides whether the dependencies among the entries are met. */
  lemma SameAnswer(db: Db, rs: seq<Record>, own: seq<nat>, sown: seq<nat>)
    requires DbOk(db) && PackagesAre(db, rs, own) && StatusesAre(db, rs, sown)
    ensures Consistent(db) <==> Satisfied(rs)
  {
    hide NamesOk, PackagesOk, StatusOk, StatusesAre, Satisfies, HasStatus, AllMet, GroupsMet, EdgesOk, NoNul;
    forall x: nat | x < PACKAGE_HASH_PRIME && db.pkgs[x].Package?
      ensures Stored(rs, own[x])
              && (Satisfies(db, NameAt(db, db.pkgs[x].name), Depends) <==> HasStatus(rs, rs[own[x]].name, Depends))
              && (AllMet(db, db.pkgs[x].edges) <==> GroupsMet(rs, Edges(rs[own[x]])))
    {
      assert Owned(db, rs, own, x);
      StatusSame(db, rs, sown, rs[own[x]].name, Depends);
      GroupsSame(db, rs, own, sown, db.pkgs[x].edges, Edges(rs[own[x]]));
    }
    if Consistent(db) {
      forall i: nat | Stored(rs, i) && HasStatus(rs, rs[i].name, Depends) ensures GroupsMet(rs, Edges(rs[i])) {
        var x: nat :| Holder(db.pkgs, own, i, x);
      }
    }
  }
}
