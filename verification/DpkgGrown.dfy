/** The tables while the dependency pass adds names: the words of statuses. Nothing that the pass asks
    of them changes. */
module DpkgGrown {
  import opened Arith
  import opened DpkgCheck
  import opened DpkgDeps
  import opened DpkgTables
  import opened OpenTable
  import opened Probe
  import opened Version

  // ----- more names -----

  ghost predicate NameIs(names: seq<Name>, i: nat, s: string) { Named(names, i) && names[i].s == s }

  lemma NameStays(names: seq<Name>, names': seq<Name>, i: nat)
    requires Kept(names, names') && Named(names, i)
    ensures Named(names', i) && names'[i] == names[i]
  {
  }

  lemma KeptSame(t: seq<Name>)
    ensures Kept(t, t)
  {
  }

  lemma KeptTwice(a: seq<Name>, b: seq<Name>, c: seq<Name>)
    requires Kept(a, b) && Kept(b, c)
    ensures Kept(a, c)
  {
  }

  lemma SameIndex(names: seq<Name>, i: nat, j: nat)
    requires NamesOk(names) && Named(names, i) && Named(names, j) && names[i].s == names[j].s
    ensures i == j
  {
    NamedOnce(names, i, j);
  }

  /** Comparing indices is comparing names. */
  lemma SameWord(names: seq<Name>, i: nat, s: string, j: nat, w: string)
    requires NamesOk(names) && NameIs(names, i, s) && NameIs(names, j, w)
    ensures i == j <==> s == w
  {
    hide NamesOk;
    if s == w { SameIndex(names, i, j); }
  }

  lemma StatusStays(names: seq<Name>, names': seq<Name>, pkgs: seq<Package>, sts: seq<Status>)
    requires Kept(names, names') && StatusOk(names, pkgs, sts)
    ensures StatusOk(names', pkgs, sts)
  {
    hide OnPath, HashOf, NoNul;
    forall x | 0 <= x < STATUS_HASH_PRIME && sts[x].Status?
      ensures Entry(names', pkgs, sts[x]) && EntryName(names', pkgs, sts[x]) == EntryName(names, pkgs, sts[x])
    {
      assert Entry(names, pkgs, sts[x]);
      NameStays(names, names', pkgs[sts[x].package].name);
      NameStays(names, names', sts[x].status);
    }
  }

  lemma NamesStay(names: seq<Name>, names': seq<Name>, pkgs: seq<Package>)
    requires Kept(names, names') && PackagesOk(names, pkgs)
    ensures PackagesOk(names', pkgs)
  {
    hide PackagesOk;
    PackagesStay(names, names', pkgs);
  }

  // ----- the answers stay -----

  /** The same packages and statuses, and all names where they were. */
  ghost predicate Grown(db: Db, db': Db) {
    db'.pkgs == db.pkgs && db'.sts == db.sts && Kept(db.names, db'.names) && NamesOk(db'.names)
  }

  lemma GrownEdges(db: Db, db': Db, edges: seq<Edge>)
    requires Kept(db.names, db'.names) && EdgesOk(db, edges)
    ensures EdgesOk(db', edges)
  {
    hide Kept, Named;
    forall j | 0 <= j < |edges| && !IsOr(edges[j])
      ensures Named(db'.names, edges[j].name) && Named(db'.names, edges[j].version)
    {
      NameStays(db.names, db'.names, edges[j].name);
      NameStays(db.names, db'.names, edges[j].version);
    }
  }

  lemma GrownOk(db: Db, db': Db)
    requires DbOk(db) && Grown(db, db')
    ensures DbOk(db')
  {
    hide NamesOk, PackagesOk, StatusOk, Formed, EdgesOk, Kept;
    NamesStay(db.names, db'.names, db.pkgs);
    StatusStays(db.names, db'.names, db.pkgs, db.sts);
    Lengths(db);
    forall x | 0 <= x < PACKAGE_HASH_PRIME && db.pkgs[x].Package?
      ensures EdgesOk(db', db.pkgs[x].edges)
    {
      GrownEdges(db, db', db.pkgs[x].edges);
    }
  }

  lemma Lengths(db: Db)
    requires DbOk(db)
    ensures |db.pkgs| == PACKAGE_HASH_PRIME + 1 && |db.sts| == STATUS_HASH_PRIME + 1
  {
    hide NamesOk, OnPath, HashOf, Formed, EdgesOk;
  }

  lemma GrownTwice(a: Db, b: Db, c: Db)
    requires Grown(a, b) && Grown(b, c)
    ensures Grown(a, c)
  {
    hide NamesOk, Kept;
    KeptTwice(a.names, b.names, c.names);
  }

  lemma GrownSame(db: Db)
    requires DbOk(db)
    ensures Grown(db, db)
  {
  }

  /** The name of a package and the name of a dependency. */
  lemma GrownName(db: Db, db': Db, i: nat)
    requires Grown(db, db') && Named(db.names, i)
    ensures NameAt(db', i) == NameAt(db, i)
  {
    hide NamesOk, NoNul;
  }

  lemma GrownPackage(db: Db, db': Db, x: nat)
    requires DbOk(db) && Grown(db, db') && x < PACKAGE_HASH_PRIME && db.pkgs[x].Package?
    ensures NameAt(db', db'.pkgs[x].name) == NameAt(db, db.pkgs[x].name)
  {
    hide NamesOk, StatusOk, Formed, EdgesOk, OnPath, HashOf, Kept;
    GrownName(db, db', db.pkgs[x].name);
  }

  lemma GrownSatisfies(db: Db, db': Db, key: string, typ: EdgeType)
    requires DbOk(db) && Grown(db, db')
    ensures Satisfies(db', key, typ) == Satisfies(db, key, typ)
  {
    hide NamesOk, PackagesOk, Formed, EdgesOk, OnPath, HashOf, Kept, Says, NoNul;
    forall x | 0 <= x < STATUS_HASH_PRIME && x < |db.sts|
      ensures IsEntry(db'.names, db.pkgs, db.sts[x], key) == IsEntry(db.names, db.pkgs, db.sts[x], key)
      ensures db.sts[x].Status? ==> Named(db.names, db.sts[x].status) && Named(db'.names, db.sts[x].status)
                                    && db'.names[db.sts[x].status] == db.names[db.sts[x].status]
    {
      if db.sts[x].Status? {
        assert Entry(db.names, db.pkgs, db.sts[x]);
        NameStays(db.names, db'.names, db.pkgs[db.sts[x].package].name);
        NameStays(db.names, db'.names, db.sts[x].status);
      }
    }
  }

  lemma GrownMatches(db: Db, db': Db, x: nat, e: Edge)
    requires DbOk(db) && Grown(db, db') && x < PACKAGE_HASH_PRIME && Named(db.names, e.version)
    ensures Matches(db'.names, db'.pkgs[x], e.name, e.version, e.op)
              == Matches(db.names, db.pkgs[x], e.name, e.version, e.op)
  {
    hide NamesOk, StatusOk, Formed, EdgesOk, OnPath, HashOf, Kept, CompareVersions, Holds, NoNul;
    if db.pkgs[x].Package? {
      NameStays(db.names, db'.names, db.pkgs[x].version);
      NameStays(db.names, db'.names, e.version);
    }
  }

  /** Whether a dependency is met does not depend on the names added. */
  lemma GrownMet(db: Db, db': Db, e: Edge)
    requires DbOk(db) && Grown(db, db') && Named(db.names, e.name) && Named(db.names, e.version)
    ensures Met(db', e) == Met(db, e)
  {
    hide DbOk, Grown, Named, Matches, Provided, Satisfies, NameAt;
    Lengths(db);
    GrownTables(db, db');
    GrownName(db, db', e.name);
    GrownSatisfies(db, db', NameAt(db, e.name), e.typ);
    forall x: nat | x < PACKAGE_HASH_PRIME
      ensures Matches(db'.names, db.pkgs[x], e.name, e.version, e.op)
                == Matches(db.names, db.pkgs[x], e.name, e.version, e.op)
      ensures Provided(db.pkgs[x], e.name) ==> db.pkgs[x].Package?
      ensures db.pkgs[x].Package? ==>
                Satisfies(db', NameAt(db', db.pkgs[x].name), e.typ) == Satisfies(db, NameAt(db, db.pkgs[x].name), e.typ)
    {
      GrownMatches(db, db', x, e);
      if Provided(db.pkgs[x], e.name) { IsProvider(db.pkgs[x], e.name); }
      if db.pkgs[x].Package? {
        GrownPackage(db, db', x);
        GrownSatisfies(db, db', NameAt(db, db.pkgs[x].name), e.typ);
      }
    }
  }

  lemma GrownTables(db: Db, db': Db)
    requires Grown(db, db')
    ensures db'.pkgs == db.pkgs && db'.sts == db.sts
  {
  }

  lemma IsProvider(p: Package, name: nat)
    requires Provided(p, name)
    ensures p.Package?
  {
  }

  lemma {:induction false} GrownAllMet(db: Db, db': Db, edges: seq<Edge>)
    requires DbOk(db) && Grown(db, db') && EdgesOk(db, edges) && Formed(edges)
    ensures AllMet(db', edges) == AllMet(db, edges)
    decreases |edges|
  {
    hide DbOk, Grown, Met, Named;
    if edges != [] {
      if IsOr(edges[0]) {
        var n := edges[0].version;
        forall i | 1 <= i <= n ensures Met(db', edges[i]) == Met(db, edges[i]) { GrownMet(db, db', edges[i]); }
        assert OneMet(db', edges, 1, n + 1) == OneMet(db, edges, 1, n + 1);
        GrownAllMet(db, db', edges[n + 1..]);
      } else {
        GrownMet(db, db', edges[0]);
        GrownAllMet(db, db', edges[1..]);
      }
    }
  }

  // ----- room for the words -----

  /** The words that have no slot yet. */
  ghost function Missing(names: seq<Name>, words: set<string>): (m: set<string>) {
    set s | s in words && forall x :: 0 <= x < NAME_HASH_PRIME && x < |names| ==> names[x] != Name(s)
  }

  /** Every word can get a slot. */
  ghost predicate WordRoom(names: seq<Name>, words: set<string>) { |Missing(names, words)| <= |Free(names)| }

  lemma RoomForWord(names: seq<Name>, words: set<string>, s: string)
    requires |names| == NAME_HASH_PRIME + 1 && WordRoom(names, words) && s in words
    ensures NameRoom(names, s)
  {
    if s in Missing(names, words) {
      assert Missing(names, words) - {s} < Missing(names, words);
      FreeRoom(names, s);
    } else {
      var x :| 0 <= x < NAME_HASH_PRIME && names[x] == Name(s);
    }
  }

  lemma WordAdded(names: seq<Name>, names': seq<Name>, words: set<string>, s: string, r: nat)
    requires |names| == NAME_HASH_PRIME + 1 && WordRoom(names, words) && s in words && r < NAME_HASH_PRIME
    requires (names[r] == NoName || names[r] == Name(s)) && names' == names[r := Name(s)]
    requires forall x :: 0 <= x < NAME_HASH_PRIME && names'[x] == Name(s) ==> x == r
    ensures WordRoom(names', words)
  {
    if names[r] == Name(s) {
      assert names' == names;
    } else {
      forall x | 0 <= x < NAME_HASH_PRIME ensures names[x] != Name(s) { assert x != r ==> names'[x] == names[x]; }
      assert s in Missing(names, words);
      forall t | t in Missing(names', words) ensures t in Missing(names, words) - {s} {
        assert names'[r] == Name(s);
        forall x | 0 <= x < NAME_HASH_PRIME ensures names[x] != Name(t) { assert x != r ==> names'[x] == names[x]; }
      }
      SubsetSize(Missing(names', words), Missing(names, words) - {s});
      OneTaken(names, names', r);
    }
  }

  /** All words that the pass looks up. */
  ghost predicate Covers(db: Db, words: set<string>) {
    && "install" in words && "installed" in words
    && forall x :: 0 <= x < STATUS_HASH_PRIME && x < |db.sts| && db.sts[x].Status? ==>
         StatusWord(NameAt(db, db.sts[x].status), 1) in words && StatusWord(NameAt(db, db.sts[x].status), 3) in words
  }

  ghost predicate Ready(db: Db, words: set<string>) {
    DbOk(db) && Covers(db, words) && WordRoom(db.names, words)
  }

  lemma GrownCovers(db: Db, db': Db, words: set<string>)
    requires DbOk(db) && Grown(db, db') && Covers(db, words)
    ensures Covers(db', words)
  {
    hide NamesOk, PackagesOk, Formed, EdgesOk, OnPath, HashOf, Kept, StatusWord, NoNul;
    forall x | 0 <= x < STATUS_HASH_PRIME && x < |db.sts| && db.sts[x].Status?
      ensures NameAt(db', db.sts[x].status) == NameAt(db, db.sts[x].status)
    {
      assert Entry(db.names, db.pkgs, db.sts[x]);
      GrownName(db, db', db.sts[x].status);
    }
  }

  lemma GrownReady(db: Db, db': Db, words: set<string>)
    requires Ready(db, words) && Grown(db, db') && WordRoom(db'.names, words)
    ensures Ready(db', words)
  {
    hide DbOk, Grown, Covers, WordRoom;
    GrownOk(db, db');
    GrownCovers(db, db', words);
  }

  // ----- words of a text -----

  lemma {:induction false} WordNoNul(s: string, num: nat)
    requires NoNul(s) && num >= 1
    ensures NoNul(StatusWord(s, num))
    decreases num
  {
    hide Until, Spaces;
    if num > 1 {
      var t := s[Until(s, " ")..];
      WordNoNul(t[Spaces(t)..], num - 1);
    }
  }
}
