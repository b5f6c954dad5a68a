/** What the tables hold after some entries of the status file have been read, and why one more keeps
    it so. */
module DpkgState {
  import opened DpkgCheck
  import opened DpkgDeps
  import opened DpkgFields
  import opened DpkgGrown
  import opened DpkgLink
  import opened DpkgRecords
  import opened DpkgTables
  import opened OpenTable
  import opened Probe
  import opened Version

  /** The tables are in order and stand for the entries `rs`. */
  ghost predicate Loaded(db: Db, rs: seq<Record>, own: seq<nat>, sown: seq<nat>) {
    && NamesOk(db.names) && PackagesOk(db.names, db.pkgs) && StatusOk(db.names, db.pkgs, db.sts)
    && PackagesAre(db, rs, own) && StatusesAre(db, rs, sown)
    && forall i :: 0 <= i < |rs| ==> Legal(rs[i])
  }

  // ----- more names -----

  lemma InternedStays(names: seq<Name>, names': seq<Name>, ts: seq<TextEdge>, es: seq<Edge>)
    requires Kept(names, names') && AllInterned(names, ts, es)
    ensures AllInterned(names', ts, es)
  {
    hide Kept, Named;
    forall i | 0 <= i < |ts| ensures Interned(names', ts[i], es[i]) {
      assert Interned(names, ts[i], es[i]);
      NameStays(names, names', es[i].name);
      if !IsOr(es[i]) { NameStays(names, names', es[i].version); }
    }
  }

  lemma PackagesAreStay(db: Db, names': seq<Name>, rs: seq<Record>, own: seq<nat>)
    requires Kept(db.names, names') && PackagesAre(db, rs, own)
    ensures PackagesAre(db.(names := names'), rs, own)
  {
    hide Kept, Stored, AllInterned, Edges, Named;
    forall x: nat | x < PACKAGE_HASH_PRIME && db.pkgs[x].Package? ensures Owned(db.(names := names'), rs, own, x) {
      assert Owned(db, rs, own, x);
      var p := db.pkgs[x];
      StoredIn(rs, own[x]);
      NameStays(db.names, names', p.name);
      NameStays(db.names, names', p.version);
      InternedStays(db.names, names', Edges(rs[own[x]]), p.edges);
    }
  }

  lemma StoredIn(rs: seq<Record>, i: nat)
    requires Stored(rs, i)
    ensures i < |rs|
  {
  }

  lemma StatusesAreStay(db: Db, names': seq<Name>, rs: seq<Record>, own: seq<nat>)
    requires Kept(db.names, names') && StatusesAre(db, rs, own)
    ensures StatusesAre(db.(names := names'), rs, own)
  {
    hide Kept, Named;
    forall x: nat | x < STATUS_HASH_PRIME && db.sts[x].Status? ensures StatusOwned(db.(names := names'), rs, own, x) {
      assert StatusOwned(db, rs, own, x);
      NameStays(db.names, names', db.sts[x].status);
      NameStays(db.names, names', db.pkgs[db.sts[x].package].name);
    }
  }

  lemma LoadedStays(db: Db, names': seq<Name>, rs: seq<Record>, own: seq<nat>, sown: seq<nat>)
    requires Kept(db.names, names') && NamesOk(names') && Loaded(db, rs, own, sown)
    ensures Loaded(db.(names := names'), rs, own, sown)
  {
    hide Kept, NamesOk, PackagesOk, StatusOk, PackagesAre, StatusesAre, Legal;
    NamesStay(db.names, names', db.pkgs);
    StatusStays(db.names, names', db.pkgs, db.sts);
    PackagesAreStay(db, names', rs, own);
    StatusesAreStay(db, names', rs, sown);
  }

  // ----- one more package -----

  lemma ReplaceMatch(names: seq<Name>, p: Package, r: Record, p': Package, r': Record)
    requires NamesOk(names) && IsRecord(names, p, r) && IsRecord(names, p', r')
    ensures Matches(names, p, p'.name, p'.version, VerEqual) <==> Replaces(r', r)
  {
    hide NamesOk, AllInterned, CompareVersions, NoNul;
    if p.name != p'.name && r.name == r'.name { SameIndex(names, p.name, p'.name); }
  }

  /** The slot that a new package takes. */
  ghost predicate Slot(db: Db, p: Package, a: nat) {
    && p.Package? && a < PACKAGE_HASH_PRIME < |db.pkgs|
    && (db.pkgs[a].Package? ==> Matches(db.names, db.pkgs[a], p.name, p.version, VerEqual))
    && ((exists x :: 0 <= x < PACKAGE_HASH_PRIME && Matches(db.names, db.pkgs[x], p.name, p.version, VerEqual)) ==>
        db.pkgs[a].Package?)
  }

  /** No other slot holds a package that the new one replaces. */
  lemma OthersStay(db: Db, rs: seq<Record>, own: seq<nat>, r: Record, p: Package, a: nat, x: nat)
    requires NamesOk(db.names) && PackagesAre(db, rs, own) && IsRecord(db.names, p, r) && Slot(db, p, a)
    requires x < PACKAGE_HASH_PRIME && db.pkgs[x].Package? && x != a
    ensures Stored(rs, own[x]) && !Replaces(r, rs[own[x]])
  {
    hide NamesOk, Matches, Replaces, IsRecord;
    assert Owned(db, rs, own, x);
    var q := rs[own[x]];
    ReplaceMatch(db.names, db.pkgs[x], q, p, r);
    if Replaces(r, q) {
      assert Owned(db, rs, own, a);
      var s := rs[own[a]];
      ReplaceMatch(db.names, db.pkgs[a], s, p, r);
      ReplaceBoth(r, q, s);
      ReplaceBoth(r, s, q);
    }
  }

  lemma PackageLoaded(db: Db, rs: seq<Record>, own: seq<nat>, r: Record, p: Package, a: nat)
    requires NamesOk(db.names) && PackagesAre(db, rs, own) && IsRecord(db.names, p, r) && Slot(db, p, a)
    ensures PackagesAre(db.(pkgs := db.pkgs[a := p]), rs + [r], own[a := |rs|])
  {
    hide NamesOk, Matches, Replaces, IsRecord, Stored;
    var db', all, own' := db.(pkgs := db.pkgs[a := p]), rs + [r], own[a := |rs|];
    LastIs(rs, r);
    assert all[|rs|] == r;
    forall x: nat | x < PACKAGE_HASH_PRIME && db'.pkgs[x].Package?
      ensures Owned(db', all, own', x) && (x != a ==> own'[x] < |rs|)
    {
      if x != a {
        assert Owned(db, rs, own, x);
        OthersStay(db, rs, own, r, p, a, x);
        StoredIn(rs, own[x]);
        StoredMore(rs, r, own[x]);
      }
    }
    forall i: nat | Stored(all, i) ensures exists x: nat :: Holder(db'.pkgs, own', i, x) {
      StoredIn(all, i);
      if i < |rs| {
        StoredMore(rs, r, i);
        var x: nat :| Holder(db.pkgs, own, i, x);
        if x == a {
          assert Owned(db, rs, own, x);
          ReplaceMatch(db.names, db.pkgs[a], rs[i], p, r);
        }
        assert Holder(db'.pkgs, own', i, x);
      } else {
        assert Holder(db'.pkgs, own', i, a);
      }
    }
  }

  /** A package that is replaced by one of its name, or a new one, leaves the statuses alone. */
  lemma StatusKept(db: Db, p: Package, a: nat)
    requires StatusOk(db.names, db.pkgs, db.sts) && Slot(db, p, a)
    ensures StatusOk(db.names, db.pkgs[a := p], db.sts)
    ensures forall x, key ::
              0 <= x < STATUS_HASH_PRIME && db.sts[x].Status? ==>
                (IsEntry(db.names, db.pkgs[a := p], db.sts[x], key) <==> IsEntry(db.names, db.pkgs, db.sts[x], key))
  {
    hide OnPath, HashOf, NoNul, CompareVersions;
    var pkgs' := db.pkgs[a := p];
    forall x | 0 <= x < STATUS_HASH_PRIME && db.sts[x].Status?
      ensures Entry(db.names, pkgs', db.sts[x])
              && EntryName(db.names, pkgs', db.sts[x]) == EntryName(db.names, db.pkgs, db.sts[x])
    {
      assert Entry(db.names, db.pkgs, db.sts[x]);
    }
  }

  lemma StatusesKept(db: Db, rs: seq<Record>, own: seq<nat>, p: Package, a: nat)
    requires StatusOk(db.names, db.pkgs, db.sts) && StatusesAre(db, rs, own) && Slot(db, p, a)
    ensures StatusesAre(db.(pkgs := db.pkgs[a := p]), rs, own)
  {
    hide StatusOk, Matches, IsEntry, NameIs;
    StatusKept(db, p, a);
    var db' := db.(pkgs := db.pkgs[a := p]);
    forall x: nat | x < STATUS_HASH_PRIME && db'.sts[x].Status? ensures StatusOwned(db', rs, own, x) {
      assert StatusOwned(db, rs, own, x);
    }
  }

  // ----- one more status -----

  /** The slot that a new status takes. */
  ghost predicate StatusSlot(db: Db, key: string, b: nat) {
    && b < STATUS_HASH_PRIME < |db.sts|
    && (db.sts[b].Status? ==> IsEntry(db.names, db.pkgs, db.sts[b], key))
    && (db.sts[b].NoStatus? ==> forall x :: 0 <= x < STATUS_HASH_PRIME ==> !IsEntry(db.names, db.pkgs, db.sts[x], key))
  }

  lemma StatusLoaded(db: Db, rs: seq<Record>, own: seq<nat>, r: Record, s: Status, b: nat)
    requires StatusOk(db.names, db.pkgs, db.sts) && StatusesAre(db, rs, own) && StatusSlot(db, r.name, b)
    requires IsEntry(db.names, db.pkgs, s, r.name) && NameIs(db.names, s.status, r.status)
    ensures StatusesAre(db.(sts := db.sts[b := s]), rs + [r], own[b := |rs|])
  {
    hide Latest, NameIs, OnPath, HashOf, NoNul;
    var db', all, own' := db.(sts := db.sts[b := s]), rs + [r], own[b := |rs|];
    LastIs(rs, r);
    assert all[|rs|] == r;
    forall x: nat | x < STATUS_HASH_PRIME && db'.sts[x].Status?
      ensures StatusOwned(db', all, own', x) && (x != b ==> own'[x] < |rs|)
    {
      if x != b {
        assert StatusOwned(db, rs, own, x);
        LatestIn(rs, own[x]);
        LatestMore(rs, r, own[x]);
        OneEntry(db, r.name, b, x);
      }
    }
    forall i: nat | Latest(all, i) ensures exists x: nat :: StatusHolder(db'.sts, own', i, x) {
      LatestIn(all, i);
      if i < |rs| {
        LatestMore(rs, r, i);
        var x: nat :| StatusHolder(db.sts, own, i, x);
        assert StatusOwned(db, rs, own, x);
        assert x != b;
        assert StatusHolder(db'.sts, own', i, x);
      } else {
        assert StatusHolder(db'.sts, own', i, b);
      }
    }
  }

  lemma LatestIn(rs: seq<Record>, i: nat)
    requires Latest(rs, i)
    ensures i < |rs|
  {
  }

  lemma OneEntry(db: Db, key: string, b: nat, x: nat)
    requires StatusOk(db.names, db.pkgs, db.sts) && StatusSlot(db, key, b) && x < STATUS_HASH_PRIME && x != b
             && db.sts[x].Status?
    ensures !IsEntry(db.names, db.pkgs, db.sts[x], key)
  {
    hide OnPath, HashOf, NoNul;
  }
}
