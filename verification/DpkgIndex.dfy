/** `index_status_file` and the dependency pass behind it: from the entries of the status file to the
    answer. */
module DpkgIndex {
  import opened Arith
  import opened DpkgCheck
  import opened DpkgDeps
  import opened DpkgFields
  import opened DpkgGrown
  import opened DpkgLink
  import opened DpkgLoad
  import opened DpkgPass
  import opened DpkgRecords
  import opened DpkgState
  import opened DpkgTables
  import opened OpenTable
  import opened Probe
  import opened Version

  /** One name, and the room that is left. */
  method InternName(t: NameTable, key: string) returns (r: nat)
    requires t.Valid() && NoNul(key) && |Free(t.slots[..])| >= 1
    modifies t.slots
    ensures t.Valid() && Kept(old(t.slots[..]), t.slots[..]) && NameIs(t.slots[..], r, key)
    ensures |Free(t.slots[..])| >= |Free(old(t.slots[..]))| - 1
  {
    hide NamesOk, NameRoom, NoNul;
    ghost var was := t.slots[..];
    TableSize(was);
    FreeRoom(was, key);
    r := t.Intern(key);
    OneTaken(was, t.slots[..], r);
  }

  method InternEdges(t: NameTable, ts: seq<TextEdge>) returns (es: seq<Edge>)
    requires t.Valid() && (forall i :: 0 <= i < |ts| ==> TextOk(ts[i])) && |Free(t.slots[..])| >= 2 * |ts|
    modifies t.slots
    ensures t.Valid() && Kept(old(t.slots[..]), t.slots[..]) && AllInterned(t.slots[..], ts, es)
    ensures |Free(t.slots[..])| >= |Free(old(t.slots[..]))| - 2 * |ts|
  {
    hide NamesOk, Kept, NoNul;
    es := [];
    KeptSame(t.slots[..]);
    while |es| < |ts|
      invariant |es| <= |ts| && t.Valid() && Kept(old(t.slots[..]), t.slots[..])
                && AllInterned(t.slots[..], ts[..|es|], es)
      invariant |Free(t.slots[..])| >= |Free(old(t.slots[..]))| - 2 * |es|
    {
      ghost var was := t.slots[..];
      var te := ts[|es|];
      var name := InternName(t, te.name);
      ghost var mid := t.slots[..];
      var version := te.count;
      if StartsGroup(te) {
        KeptSame(mid);
      } else {
        version := InternName(t, te.version);
      }
      NameStays(mid, t.slots[..], name);
      KeptTwice(was, mid, t.slots[..]);
      KeptTwice(old(t.slots[..]), was, t.slots[..]);
      InternedStays(was, t.slots[..], ts[..|es|], es);
      es := es + [Edge(te.typ, name, version, te.op)];
    }
    assert ts[..|es|] == ts;
  }

  /** An entry without a version, or with the version `unknown`, is not kept. */
  function Known(rs: seq<Record>): (r: seq<Record>)
    ensures |r| <= |rs|
  {
    if rs == [] then []
    else
      var n := |rs| - 1;
      Known(rs[..n]) + if rs[n].version == "unknown" then [] else [rs[n]]
  }

  /** The names that reading an entry can add to the table. */
  function NamesOf(r: Record): (n: nat) { 4 + 2 * |Edges(r)| }

  /** The names that reading the entries and then looking at two words of each status can add. */
  function Needed(rs: seq<Record>): (n: nat) {
    if rs == [] then 2 else NamesOf(rs[0]) + 2 + Needed(rs[1..])
  }

  /** The words of the statuses that the pass can look up. */
  ghost function WordsOf(rs: seq<Record>): (w: set<string>)
    ensures |w| <= 2 * |rs| + 2
  {
    if rs == [] then {"install", "installed"}
    else
      var n := |rs| - 1;
      WordsOf(rs[..n]) + {StatusWord(rs[n].status, 1), StatusWord(rs[n].status, 3)}
  }

  ghost predicate IsText(r: Record) {
    NoNul(r.name) && NoNul(r.version) && NoNul(r.status) && FieldsOk(r.fields)
  }

  ghost predicate AllLegal(rs: seq<Record>) { forall i :: 0 <= i < |rs| ==> Legal(rs[i]) }

  /** Entry `i` is the first that cannot be read. */
  ghost predicate FirstUnread(rs: seq<Record>, i: nat) { i < |rs| && !Legal(rs[i]) && AllLegal(rs[..i]) }

  /** Reading has stopped at a field that it could not deal with, or the pass has decided. */
  datatype Outcome = Stopped(why: Fields) | Checked(ok: bool)

  class Index {
    const names: NameTable
    const pkgs: array<Package>
    const sts: array<Status>
    ghost var entries: seq<Record>
    ghost var own: seq<nat>
    ghost var sown: seq<nat>

    ghost function Contents(): (db: Db)
      reads names.slots, pkgs, sts
    {
      Db(names.slots[..], pkgs[..], sts[..])
    }

    ghost predicate Valid()
      reads this, names.slots, pkgs, sts
    {
      Loaded(Contents(), entries, own, sown)
    }

    constructor ()
      ensures Valid() && entries == [] && fresh(names.slots) && fresh(pkgs) && fresh(sts)
      ensures forall x :: 0 <= x <= NAME_HASH_PRIME && x < names.slots.Length ==> names.slots[x] == NoName
    {
      hide NamesOk, Loaded;
      names := new NameTable();
      pkgs := new Package[PACKAGE_HASH_PRIME + 1](_ => NoPackage);
      sts := new Status[STATUS_HASH_PRIME + 1](_ => NoStatus);
      entries := [];
      own, sown := seq(PACKAGE_HASH_PRIME, _ => 0), seq(STATUS_HASH_PRIME, _ => 0);
      new;
      NothingLoaded(Contents(), own, sown);
    }

    /** The end of `fill_package_struct`: the package of the entry is in its table. */
    method AddPackage(r: Record, p: Package) returns (a: nat)
      requires Valid() && |entries| < STATUS_HASH_PRIME && Legal(r) && IsRecord(names.slots[..], p, r)
      modifies this`own, pkgs
      ensures a < PACKAGE_HASH_PRIME && pkgs.Length > a && pkgs[a] == p && Half(Contents(), entries, r, own, sown)
    {
      hide NamesOk, PackagesOk, StatusOk, PackagesAre, StatusesAre, Legal, AllInterned, Matches;
      ghost var db := Contents();
      PackageHasRoom(db, entries, own, r, p);
      OwnSizes(db, entries, own);
      a := StorePackage(names.slots, pkgs, p);
      HalfLoaded(db, entries, own, sown, r, p, a);
      own := own[a := |entries|];
      assert Contents() == db.(pkgs := db.pkgs[a := p]);
    }

    /** The end of the loop of `index_status_file`: the status of the entry is in its table. */
    method AddStatus(r: Record, a: nat)
      requires Half(Contents(), entries, r, own, sown) && |entries| < STATUS_HASH_PRIME && |Free(names.slots[..])| >= 1
      requires a < PACKAGE_HASH_PRIME && pkgs.Length > a && pkgs[a].Package?
               && NameIs(names.slots[..], pkgs[a].name, r.name)
      modifies this`entries, this`sown, names.slots, sts
      ensures Valid() && entries == old(entries) + [r] && |Free(names.slots[..])| >= |Free(old(names.slots[..]))| - 1
    {
      hide NamesOk, PackagesOk, StatusOk, PackagesAre, StatusesAre, Legal, Kept, StatusRoom, NoNul;
      ghost var db := Contents();
      LegalText(r);
      var status := InternName(names, r.status);
      ghost var db1 := Contents();
      HalfStays(db, db1.names, entries, r, own, sown);
      NameStays(db.names, db1.names, pkgs[a].name);
      var entry := Status(a, status);
      StatusHasRoom(db1, entries, sown, r.name);
      StatusSizes(db1, entries, sown);
      OwnSizes(db1, entries + [r], own);
      var b := StoreStatus(names.slots, pkgs, sts, entry);
      StatusLoaded(db1, entries, sown, r, entry, b);
      sown := sown[b := |entries|];
      entries := entries + [r];
      assert Contents() == db1.(sts := db1.sts[b := entry]);
      StatusesApart(db1, Contents().sts, entries, own);
    }

    /** One entry, in the order of `index_status_file`. */
    method Add(r: Record, edges: seq<TextEdge>)
      requires Valid() && Legal(r) && edges == Edges(r) && |entries| + 1 < STATUS_HASH_PRIME
               && |Free(names.slots[..])| >= NamesOf(r)
      modifies this, names.slots, pkgs, sts
      ensures Valid() && entries == old(entries) + (if r.version == "unknown" then [] else [r])
      ensures |Free(names.slots[..])| >= |Free(old(names.slots[..]))| - NamesOf(r)
    {
      hide NamesOk, PackagesOk, StatusOk, PackagesAre, StatusesAre, Legal, AllInterned, Edges, Kept, Half;
      ghost var db := Contents();
      LegalText(r);
      var name := InternName(names, r.name);
      ghost var n1 := names.slots[..];
      var version := InternName(names, r.version);
      ghost var n2 := names.slots[..];
      var es := InternEdges(names, edges);
      ghost var n3 := names.slots[..];
      var unknown := InternName(names, "unknown");
      ghost var n4 := names.slots[..];
      KeptTwice(n2, n3, n4);
      KeptTwice(n1, n2, n4);
      KeptTwice(db.names, n1, n4);
      LoadedStays(db, n4, entries, own, sown);
      assert Contents() == db.(names := n4);
      NameStays(n1, n4, name);
      NameStays(n2, n4, version);
      InternedStays(n3, n4, edges, es);
      SameWord(n4, version, r.version, unknown, "unknown");
      if version == unknown { return; }
      var a := AddPackage(r, Package(name, version, es));
      AddStatus(r, a);
    }
  }

  /** The status file is read entry by entry and then checked: the pass gets through exactly if the
      dependencies of every entry whose name is wanted are met by the entries. */
  method CheckStatusFile(rs: seq<Record>) returns (r: Outcome)
    requires (forall i :: 0 <= i < |rs| ==> IsText(rs[i])) && |rs| < STATUS_HASH_PRIME && Needed(rs) <= NAME_HASH_PRIME
    ensures AllLegal(rs) ==> r == Checked(Satisfied(Known(rs)))
    ensures !AllLegal(rs) ==> exists i: nat :: FirstUnread(rs, i) && r == Stopped(RecordEdges(rs[i].fields))
  {
    hide Legal, IsText, Satisfied, Needed, Known, NamesOf, Loaded, RecordEdges, WordsOf, Ready;
    var index := new Index();
    IndexSize(index.Contents(), index.entries, index.own, index.sown);
    AllFree(index.names.slots[..], NAME_HASH_PRIME);
    var i: nat := 0;
    Whole(rs);
    while i < |rs|
      invariant i <= |rs| && AllLegal(rs[..i])
      invariant index.Valid() && index.entries == Known(rs[..i])
      invariant |Free(index.names.slots[..])| >= Needed(rs[i..]) + 2 * i
      invariant fresh(index.names.slots) && fresh(index.pkgs) && fresh(index.sts)
    {
      var edges := ReadFields(rs[i].fields);
      IsLegal(rs[i]);
      if !edges.Fields? {
        assert FirstUnread(rs, i) && !Legal(rs[i]);
        return Stopped(edges);
      }
      OneMore(rs, i);
      index.Add(rs[i], edges.edges);
      i := i + 1;
    }
    assert rs[..i] == rs && rs[i..] == [];
    NoneLeft();
    ghost var words := WordsOf(index.entries);
    LoadedReady(index.Contents(), index.entries, index.own, index.sown);
    LoadedOk(index.Contents(), index.entries, index.own, index.sown);
    SameLoaded(index.Contents(), index.entries, index.own, index.sown);
    var db := new Database(index.names, index.pkgs, index.sts);
    assert db.Contents() == index.Contents();
    var ok := db.CheckDeps(words);
    r := Checked(ok);
  }

  lemma NoneLeft()
    ensures Needed([]) == 2
  {
  }

  lemma {:induction false} WordsIn(rs: seq<Record>, i: nat)
    requires i < |rs|
    ensures StatusWord(rs[i].status, 1) in WordsOf(rs) && StatusWord(rs[i].status, 3) in WordsOf(rs)
    decreases |rs|
  {
    hide StatusWord;
    if i < |rs| - 1 { WordsIn(rs[..|rs| - 1], i); }
  }

  lemma {:induction false} WordsFirst(rs: seq<Record>)
    ensures "install" in WordsOf(rs) && "installed" in WordsOf(rs)
    decreases |rs|
  {
    hide StatusWord;
    if rs != [] { WordsFirst(rs[..|rs| - 1]); }
  }

  /** The tables have room for all words that the pass looks up. */
  lemma LoadedReady(db: Db, rs: seq<Record>, own: seq<nat>, sown: seq<nat>)
    requires Loaded(db, rs, own, sown) && |rs| < STATUS_HASH_PRIME && |Free(db.names)| >= 2 * |rs| + 2
    ensures Ready(db, WordsOf(rs))
  {
    hide NamesOk, PackagesOk, StatusOk, PackagesAre, DbOk, WordsOf, StatusWord, Legal, Latest, NoNul;
    LoadedOk(db, rs, own, sown);
    WordsFirst(rs);
    SubsetSize(Missing(db.names, WordsOf(rs)), WordsOf(rs));
    forall x: nat | x < STATUS_HASH_PRIME && x < |db.sts| && db.sts[x].Status?
      ensures StatusWord(NameAt(db, db.sts[x].status), 1) in WordsOf(rs)
              && StatusWord(NameAt(db, db.sts[x].status), 3) in WordsOf(rs)
    {
      assert StatusOwned(db, rs, sown, x);
      LatestIn(rs, sown[x]);
      WordsIn(rs, sown[x]);
    }
  }

  lemma IndexSize(db: Db, rs: seq<Record>, own: seq<nat>, sown: seq<nat>)
    requires Loaded(db, rs, own, sown)
    ensures |db.names| == NAME_HASH_PRIME + 1
  {
    hide PackagesOk, StatusOk, PackagesAre, StatusesAre, OnPath, Legal;
  }

  lemma Whole(rs: seq<Record>)
    ensures rs[0..] == rs && Known(rs[..0]) == []
  {
  }

  lemma IsLegal(r: Record)
    requires IsText(r)
    ensures Legal(r) <==> RecordEdges(r.fields).Fields?
    ensures Legal(r) ==> Edges(r) == RecordEdges(r.fields).edges
  {
    hide RecordEdges, NoNul;
  }

  lemma OneMore(rs: seq<Record>, i: nat)
    requires i < |rs|
    ensures Known(rs[..i + 1]) == Known(rs[..i]) + (if rs[i].version == "unknown" then [] else [rs[i]])
    ensures Needed(rs[i..]) == NamesOf(rs[i]) + 2 + Needed(rs[i + 1..])
  {
    hide NamesOf;
    assert rs[..i + 1][..i] == rs[..i];
    assert rs[i..][1..] == rs[i + 1..];
  }

  lemma SameLoaded(db: Db, rs: seq<Record>, own: seq<nat>, sown: seq<nat>)
    requires Loaded(db, rs, own, sown) && DbOk(db)
    ensures Consistent(db) <==> Satisfied(rs)
  {
    hide NamesOk, PackagesOk, StatusOk, PackagesAre, StatusesAre, Legal, Consistent, Satisfied;
    SameAnswer(db, rs, own, sown);
  }

  lemma LegalText(r: Record)
    requires Legal(r)
    ensures NoNul(r.name) && NoNul(r.version) && NoNul(r.status) && NoNul("unknown")
    ensures forall i :: 0 <= i < |Edges(r)| ==> TextOk(Edges(r)[i])
  {
    hide RecordEdges, TextOk;
    forall i | 0 <= i < |Edges(r)| ensures TextOk(Edges(r)[i]) { EdgesNoNul(r.fields, i); }
  }

  lemma NothingLoaded(db: Db, own: seq<nat>, sown: seq<nat>)
    requires NamesOk(db.names) && |db.pkgs| == PACKAGE_HASH_PRIME + 1 && |db.sts| == STATUS_HASH_PRIME + 1
    requires (forall x :: 0 <= x < |db.pkgs| ==> db.pkgs[x] == NoPackage)
             && (forall x :: 0 <= x < |db.sts| ==> db.sts[x] == NoStatus)
    requires |own| == PACKAGE_HASH_PRIME && |sown| == STATUS_HASH_PRIME
    ensures Loaded(db, [], own, sown)
  {
    hide NamesOk, Legal, OnPath, HashOf;
  }

  lemma OwnSizes(db: Db, rs: seq<Record>, own: seq<nat>)
    requires PackagesAre(db, rs, own)
    ensures |own| == PACKAGE_HASH_PRIME < |db.pkgs|
  {
  }

  lemma StatusSizes(db: Db, rs: seq<Record>, own: seq<nat>)
    requires StatusesAre(db, rs, own)
    ensures |own| == STATUS_HASH_PRIME < |db.sts|
  {
  }

  lemma PackageHasRoom(db: Db, rs: seq<Record>, own: seq<nat>, r: Record, p: Package)
    requires PackagesAre(db, rs, own) && PackagesOk(db.names, db.pkgs) && |rs| < STATUS_HASH_PRIME
             && IsRecord(db.names, p, r)
    ensures PackageRoom(db.names, db.pkgs, p.name, p.version, VerEqual)
  {
    hide PackagesAre, Matches, OnPath, HashOf;
    PackageFree(db, rs, own);
  }

  lemma StatusHasRoom(db: Db, rs: seq<Record>, own: seq<nat>, key: string)
    requires StatusesAre(db, rs, own) && StatusOk(db.names, db.pkgs, db.sts) && |rs| < STATUS_HASH_PRIME
    ensures StatusRoom(db.names, db.pkgs, db.sts, key)
  {
    hide StatusesAre, IsEntry, OnPath, HashOf;
    StatusFree(db, rs, own);
  }

  /** The package of the entry `r` is there, its status is not. */
  ghost predicate Half(db: Db, rs: seq<Record>, r: Record, own: seq<nat>, sown: seq<nat>) {
    && NamesOk(db.names) && PackagesOk(db.names, db.pkgs) && StatusOk(db.names, db.pkgs, db.sts)
    && PackagesAre(db, rs + [r], own) && StatusesAre(db, rs, sown) && Legal(r)
       && forall i :: 0 <= i < |rs| ==> Legal(rs[i])
  }

  lemma HalfLoaded(db: Db, rs: seq<Record>, own: seq<nat>, sown: seq<nat>, r: Record, p: Package, a: nat)
    requires Loaded(db, rs, own, sown) && Legal(r) && IsRecord(db.names, p, r) && Slot(db, p, a)
             && PackagesOk(db.names, db.pkgs[a := p]) && |own| > a
    ensures Half(db.(pkgs := db.pkgs[a := p]), rs, r, own[a := |rs|], sown)
  {
    hide NamesOk, PackagesOk, StatusOk, PackagesAre, StatusesAre, Legal, IsRecord, Matches;
    PackageLoaded(db, rs, own, r, p, a);
    StatusKept(db, p, a);
    StatusesKept(db, rs, sown, p, a);
  }

  lemma HalfStays(db: Db, names': seq<Name>, rs: seq<Record>, r: Record, own: seq<nat>, sown: seq<nat>)
    requires Kept(db.names, names') && NamesOk(names') && Half(db, rs, r, own, sown)
    ensures Half(db.(names := names'), rs, r, own, sown)
  {
    hide Kept, NamesOk, PackagesOk, StatusOk, PackagesAre, StatusesAre, Legal;
    NamesStay(db.names, names', db.pkgs);
    StatusStays(db.names, names', db.pkgs, db.sts);
    PackagesAreStay(db, names', rs + [r], own);
    StatusesAreStay(db, names', rs, sown);
  }

  lemma StatusesApart(db: Db, sts': seq<Status>, rs: seq<Record>, own: seq<nat>)
    requires PackagesAre(db, rs, own)
    ensures PackagesAre(db.(sts := sts'), rs, own)
  {
    hide Stored, IsRecord;
    var db' := db.(sts := sts');
    forall x: nat | x < PACKAGE_HASH_PRIME && db'.pkgs[x].Package?
      ensures Owned(db', rs, own, x)
    {
      assert Owned(db, rs, own, x);
    }
  }
}
