/** The loops of `check_deps`' dependency pass. */
module DpkgPass {
  import opened DpkgCheck
  import opened DpkgDeps
  import opened DpkgGrown
  import opened DpkgTables
  import opened OpenTable
  import opened Probe
  import opened Version

  lemma SatisfiesEntry(db: Db, key: string, typ: EdgeType, a: nat)
    requires StatusOk(db.names, db.pkgs, db.sts) && a < STATUS_HASH_PRIME && IsEntry(db.names, db.pkgs, db.sts[a], key)
    ensures Satisfies(db, key, typ) <==> Says(db.names[db.sts[a].status].s, typ)
  {
    hide OnPath, HashOf, Says, NoNul;
  }

  lemma NoEntry(db: Db, key: string, typ: EdgeType)
    requires forall x :: 0 <= x < STATUS_HASH_PRIME && x < |db.sts| ==> !IsEntry(db.names, db.pkgs, db.sts[x], key)
    ensures !Satisfies(db, key, typ)
  {
  }

  /** The group of alternatives that the loop is in: `n` of them are left, none before was met. */
  ghost predicate InGroup(db: Db, edges: seq<Edge>, j: nat, n: nat, goal: bool) {
    j + n <= |edges| && Formed(edges[j + n..])
    && (forall i :: j <= i < j + n ==> IsDep(edges[i]))
    && goal == (OneMet(db, edges, j, j + n) && AllMet(db, edges[j + n..]))
  }

  /** Between groups. */
  ghost predicate Between(db: Db, edges: seq<Edge>, j: nat, goal: bool) {
    j <= |edges| && Formed(edges[j..]) && goal == AllMet(db, edges[j..])
  }

  lemma OpenGroup(db: Db, edges: seq<Edge>, j: nat, goal: bool)
    requires Between(db, edges, j, goal) && j < |edges| && IsOr(edges[j])
    ensures edges[j].version >= 1 && InGroup(db, edges, j + 1, edges[j].version, goal)
    ensures forall i :: j < i <= j + edges[j].version ==> edges[i].typ == Kind(edges[j].typ)
  {
    hide Met;
    var s, n := edges[j..], edges[j].version;
    assert s[n + 1..] == edges[j + n + 1..];
    forall i | j < i <= j + n ensures edges[i].typ == Kind(edges[j].typ) { assert s[i - j] == edges[i]; }
    assert OneMet(db, s, 1, n + 1) <==> OneMet(db, edges, j + 1, j + 1 + n) by {
      if i :| 1 <= i < n + 1 && Met(db, s[i]) { assert Met(db, edges[j + i]); }
      if i :| j + 1 <= i < j + 1 + n && Met(db, edges[i]) { assert Met(db, s[i - j]); }
    }
  }

  lemma SingleEdge(db: Db, edges: seq<Edge>, j: nat, goal: bool)
    requires Between(db, edges, j, goal) && j < |edges| && !IsOr(edges[j])
    ensures IsDep(edges[j]) ==> InGroup(db, edges, j, 1, goal)
    ensures !IsDep(edges[j]) ==> Between(db, edges, j + 1, goal)
  {
    hide Met;
    var s := edges[j..];
    assert s[1..] == edges[j + 1..];
    if IsDep(edges[j]) {
      assert OneMet(db, edges, j, j + 1) <==> Met(db, edges[j]) by {
        if Met(db, edges[j]) { assert Met(db, edges[j]); }
      }
    }
  }

  /** An alternative that is met settles the group. */
  lemma GroupMet(db: Db, edges: seq<Edge>, j: nat, n: nat, goal: bool)
    requires InGroup(db, edges, j, n, goal) && n >= 1 && Met(db, edges[j])
    ensures j + n <= |edges| && Between(db, edges, j + n, goal)
  {
    hide Met, AllMet;
  }

  /** One that is not met leaves the others; without any left the group is not met. */
  lemma GroupNot(db: Db, edges: seq<Edge>, j: nat, n: nat, goal: bool)
    requires InGroup(db, edges, j, n, goal) && n >= 1 && !Met(db, edges[j])
    ensures n == 1 ==> !goal
    ensures n > 1 ==> InGroup(db, edges, j + 1, n - 1, goal)
  {
    hide Met, AllMet;
    assert OneMet(db, edges, j, j + n) <==> OneMet(db, edges, j + 1, j + n) by {
      if i :| j <= i < j + n && Met(db, edges[i]) { assert i != j; }
    }
  }

  lemma NextWord(s: string, num: nat)
    requires num >= 2
    ensures var t := s[Until(s, " ")..]; StatusWord(s, num) == StatusWord(t[Spaces(t)..], num - 1)
  {
    hide Until, Spaces;
  }

  lemma ThisWord(s: string)
    ensures StatusWord(s, 1) == s[..Until(s, " \n")]
  {
    hide Until, Spaces;
  }

  /** `get_status`: the words before are passed one by one, and the word ends at a blank or at the
      end of the line. */
  method GetStatus(status: string, num: nat) returns (word: string)
    requires num >= 1
    ensures word == StatusWord(status, num)
  {
    hide StatusWord, Until, Spaces;
    var s, i := status, 1;
    while i < num
      invariant 1 <= i <= num && StatusWord(status, num) == StatusWord(s, num + 1 - i)
    {
      NextWord(s, num + 1 - i);
      s := s[Until(s, " ")..];
      s := s[Spaces(s)..];
      i := i + 1;
    }
    ThisWord(s);
    word := s[..Until(s, " \n")];
  }

  class Database {
    const names: NameTable
    const pkgs: array<Package>
    const sts: array<Status>

    constructor (n: NameTable, p: array<Package>, s: array<Status>)
      ensures names == n && pkgs == p && sts == s
    {
      names, pkgs, sts := n, p, s;
    }

    ghost function Contents(): (db: Db)
      reads names.slots, pkgs, sts
    {
      Db(names.slots[..], pkgs[..], sts[..])
    }

    /** A word of a status, or one it is compared with. */
    method InternWord(word: string, ghost words: set<string>) returns (r: nat)
      requires names.Valid() && NoNul(word) && word in words && WordRoom(names.slots[..], words)
      modifies names.slots
      ensures names.Valid() && Kept(old(names.slots[..]), names.slots[..]) && WordRoom(names.slots[..], words)
      ensures NameIs(names.slots[..], r, word)
    {
      hide NamesOk, NameRoom, WordRoom, NoNul;
      ghost var t := names.slots[..];
      TableSize(t);
      RoomForWord(t, words, word);
      r := names.Intern(word);
      WordAdded(t, names.slots[..], words, word, r);
    }

    method SameAs(word: string, other: string, ghost words: set<string>) returns (ok: bool)
      requires names.Valid() && NoNul(word) && NoNul(other) && word in words && other in words
      requires WordRoom(names.slots[..], words)
      modifies names.slots
      ensures names.Valid() && Kept(old(names.slots[..]), names.slots[..]) && WordRoom(names.slots[..], words)
      ensures ok == (word == other)
    {
      hide NamesOk, WordRoom, NoNul, Kept;
      ghost var t0 := names.slots[..];
      var a := InternWord(word, words);
      ghost var t1 := names.slots[..];
      var b := InternWord(other, words);
      NameStays(t1, names.slots[..], a);
      KeptTwice(t0, t1, names.slots[..]);
      SameWord(names.slots[..], a, word, b, other);
      ok := a == b;
    }

    /** The words of the status are looked up in the table of names and their slots compared. */
    method StatusAccepts(status: string, typ: EdgeType, ghost words: set<string>) returns (ok: bool)
      requires names.Valid() && NoNul(status) && "install" in words && "installed" in words
      requires StatusWord(status, 1) in words && StatusWord(status, 3) in words && WordRoom(names.slots[..], words)
      modifies names.slots
      ensures names.Valid() && Kept(old(names.slots[..]), names.slots[..]) && WordRoom(names.slots[..], words)
      ensures ok == Says(status, typ)
    {
      hide StatusWord, NamesOk, WordRoom, Kept;
      KeptSame(names.slots[..]);
      ok := false;
      WordNoNul(status, 1);
      WordNoNul(status, 3);
      if typ == PreDepends {
        var word := GetStatus(status, 3);
        ok := SameAs(word, "installed", words);
      } else if typ == Depends {
        var word := GetStatus(status, 1);
        ok := SameAs(word, "install", words);
      }
    }

    /** `package_satisfies_dependency`. */
    method PackageSatisfies(package: nat, typ: EdgeType, ghost words: set<string>) returns (ok: bool)
      requires Ready(Contents(), words) && package < PACKAGE_HASH_PRIME && pkgs[package].Package?
      modifies names.slots
      ensures Ready(Contents(), words) && Grown(old(Contents()), Contents())
      ensures ok == Satisfies(old(Contents()), NameAt(old(Contents()), pkgs[package].name), typ)
    {
      hide OnPath, HashOf, Says, Satisfies, Formed, EdgesOk, NamesOk, CompareVersions, Kept, WordRoom, StatusWord;
      ghost var db := Contents();
      KeptSame(db.names);
      var key := names.slots[pkgs[package].name].s;
      var a := SearchStatus(names.slots, pkgs, sts, key);
      if sts[a].NoStatus? {
        NoEntry(db, key, typ);
        return false;
      }
      SatisfiesEntry(db, key, typ, a);
      ok := StatusAccepts(names.slots[sts[a].status].s, typ, words);
      GrownReady(db, Contents(), words);
    }

    /** `search_for_provides`: the next package after `startAt` that provides the name. */
    method SearchForProvides(needle: nat, startAt: int) returns (r: int)
      requires pkgs.Length == PACKAGE_HASH_PRIME + 1 && startAt >= -1
      ensures r == -1 || (startAt < r < PACKAGE_HASH_PRIME && Provided(pkgs[r], needle))
      ensures forall x ::
                startAt < x < (if r == -1 then PACKAGE_HASH_PRIME as int else r) ==> !Provided(pkgs[x], needle)
    {
      var i := startAt + 1;
      while i < PACKAGE_HASH_PRIME
        invariant startAt < i && (i > PACKAGE_HASH_PRIME ==> i == startAt + 1)
        invariant forall x :: startAt < x < i && x < PACKAGE_HASH_PRIME ==> !Provided(pkgs[x], needle)
      {
        var p := pkgs[i];
        if p.Package? {
          var j := 0;
          while j < |p.edges|
            invariant 0 <= j <= |p.edges|
            invariant forall k :: 0 <= k < j ==> !(p.edges[k].typ == Provides && p.edges[k].name == needle)
          {
            if p.edges[j].typ == Provides && p.edges[j].name == needle { return i; }
            j := j + 1;
          }
        }
        i := i + 1;
      }
      r := -1;
    }

    /** One dependency: a package of the right version, or else a provider. */
    method EdgeMet(e: Edge, ghost words: set<string>) returns (ok: bool)
      requires Ready(Contents(), words) && IsDep(e) && Named(names.slots[..], e.name)
               && Named(names.slots[..], e.version)
      modifies names.slots
      ensures Ready(Contents(), words) && Grown(old(Contents()), Contents())
      ensures ok == Met(old(Contents()), e)
    {
      hide DbOk, Ready, Grown, Satisfies, Provided, Matches, Named, CompareVersions;
      ghost var db := Contents();
      ReadyOk(db, words);
      Searchable(db, e);
      var num := SearchPackage(names.slots, pkgs, e.name, e.version, e.op);
      ok := false;
      if pkgs[num].Package? {
        MatchName(names.slots[..], pkgs[num], e.name, e.version, e.op);
        ok := PackageSatisfies(num, e.typ, words);
      }
      assert ok <==> exists x :: 0 <= x < PACKAGE_HASH_PRIME && x < |db.pkgs| &&
                                 Matches(db.names, db.pkgs[x], e.name, e.version, e.op) &&
                                 Satisfies(db, NameAt(db, e.name), e.typ);
      if !ok {
        ghost var db1 := Contents();
        ok := ProviderSatisfies(e, words);
        GrownTwice(db, db1, Contents());
        SameProviders(db, db1, e);
      }
    }

    method ProviderSatisfies(e: Edge, ghost words: set<string>) returns (ok: bool)
      requires Ready(Contents(), words)
      modifies names.slots
      ensures Ready(Contents(), words) && Grown(old(Contents()), Contents())
      ensures ok <==> HasProvider(old(Contents()), e)
    {
      hide DbOk, Ready, Grown, Satisfies, Provided, NameAt;
      ghost var db := Contents();
      ReadyOk(db, words);
      var provider := -1;
      while true
        invariant -1 <= provider < PACKAGE_HASH_PRIME && Ready(Contents(), words) && Grown(db, Contents())
        invariant forall x :: 0 <= x <= provider && Provided(db.pkgs[x], e.name) ==>
                    db.pkgs[x].Package? && !Satisfies(db, NameAt(db, db.pkgs[x].name), e.typ)
        decreases PACKAGE_HASH_PRIME as int - provider
      {
        var next := SearchForProvides(e.name, provider);
        if next == -1 { return false; }
        ghost var db1 := Contents();
        IsProvider(pkgs[next], e.name);
        ok := PackageSatisfies(next, e.typ, words);
        GrownPackage(db, db1, next);
        GrownSatisfies(db, db1, NameAt(db, db.pkgs[next].name), e.typ);
        GrownTwice(db, db1, Contents());
        if ok { return; }
        provider := next;
      }
    }

    /** The edges of one package: the pass dies unless every group has an alternative that is met. */
    method CheckEdges(edges: seq<Edge>, ghost words: set<string>) returns (ok: bool)
      requires Ready(Contents(), words) && EdgesOk(Contents(), edges) && Formed(edges)
      modifies names.slots
      ensures Ready(Contents(), words) && Grown(old(Contents()), Contents())
      ensures ok == AllMet(old(Contents()), edges)
    {
      hide Formed, AllMet, Met, DbOk, Between, InGroup, Ready, Grown, Named;
      ghost var db := Contents();
      ghost var goal := AllMet(db, edges);
      var j, alternatives := 0, 0;
      ghost var inGroup := false;
      Begin(db, edges);
      ReadyOk(db, words);
      while j < |edges|
        invariant 0 <= j <= |edges| && 0 <= alternatives && Ready(Contents(), words) && Grown(db, Contents())
        invariant inGroup ==> alternatives >= 1 && InGroup(db, edges, j, alternatives, goal)
        invariant !inGroup ==> alternatives <= 1 && Between(db, edges, j, goal)
        decreases |edges| - j
      {
        var e := edges[j];
        if IsOr(e) {
          GroupEdge(db, edges, j, alternatives, goal, inGroup);
          OpenGroup(db, edges, j, goal);
          alternatives := e.version;
          inGroup := true;
        } else {
          if alternatives == 0 { alternatives := 1; }
          if !inGroup { SingleEdge(db, edges, j, goal); }
          if IsDep(e) {
            ghost var db1 := Contents();
            GrownEdge(db, db1, e);
            var met := EdgeMet(e, words);
            GrownMet(db, db1, e);
            GrownTwice(db, db1, Contents());
            if met {
              GroupMet(db, edges, j, alternatives, goal);
              alternatives := alternatives - 1;
              j := j + alternatives;
              alternatives, inGroup := 0, false;
            } else {
              GroupNot(db, edges, j, alternatives, goal);
              alternatives := alternatives - 1;
              if alternatives == 0 { return false; }
              inGroup := true;
            }
          } else {
            GroupEdge(db, edges, j, alternatives, goal, inGroup);
          }
        }
        j := j + 1;
      }
      Finished(db, edges, j, alternatives, goal, inGroup);
      return true;
    }

    /** The dependency pass over all packages: it gets through exactly when the dependencies of
        every package that is wanted are met. */
    method CheckDeps(ghost words: set<string>) returns (ok: bool)
      requires Ready(Contents(), words)
      modifies names.slots
      ensures Ready(Contents(), words) && Grown(old(Contents()), Contents())
      ensures ok == Consistent(old(Contents()))
    {
      hide Satisfies, Formed, EdgesOk, AllMet, Ready, Grown, DbOk, NameAt;
      ghost var db := Contents();
      ReadyOk(db, words);
      AllFormed(db);
      var i := 0;
      while i < PACKAGE_HASH_PRIME
        invariant 0 <= i <= PACKAGE_HASH_PRIME && Ready(Contents(), words) && Grown(db, Contents())
        invariant forall x ::
                    0 <= x < i && db.pkgs[x].Package? && Satisfies(db, NameAt(db, db.pkgs[x].name), Depends) ==>
                    AllMet(db, db.pkgs[x].edges)
      {
        if pkgs[i].Package? {
          ghost var db1 := Contents();
          var wanted := PackageSatisfies(i, Depends, words);
          ghost var db2 := Contents();
          GrownPackage(db, db1, i);
          GrownSatisfies(db, db1, NameAt(db, db.pkgs[i].name), Depends);
          GrownTwice(db, db1, db2);
          if wanted {
            PackageEdges(db, db2, i);
            var met := CheckEdges(pkgs[i].edges, words);
            GrownAllMet(db, db2, db.pkgs[i].edges);
            GrownTwice(db, db2, Contents());
            if !met { return false; }
          }
        }
        i := i + 1;
      }
      ok := true;
    }
  }

  ghost predicate HasProvider(db: Db, e: Edge) {
    exists x :: 0 <= x < PACKAGE_HASH_PRIME && x < |db.pkgs| && Provided(db.pkgs[x], e.name) &&
                Satisfies(db, NameAt(db, db.pkgs[x].name), e.typ)
  }

  lemma ReadyOk(db: Db, words: set<string>)
    requires Ready(db, words)
    ensures DbOk(db) && Grown(db, db) && |db.pkgs| == PACKAGE_HASH_PRIME + 1
  {
    hide DbOk, Grown, Covers, WordRoom;
    Lengths(db);
    GrownSame(db);
  }

  lemma AllFormed(db: Db)
    requires DbOk(db)
    ensures forall x :: 0 <= x < PACKAGE_HASH_PRIME && x < |db.pkgs| && db.pkgs[x].Package? ==> Formed(db.pkgs[x].edges)
  {
    hide NamesOk, PackagesOk, StatusOk, Formed, EdgesOk;
  }

  lemma Searchable(db: Db, e: Edge)
    requires DbOk(db)
    ensures PackagesOk(db.names, db.pkgs) && PackageRoom(db.names, db.pkgs, e.name, e.version, e.op)
  {
    hide NamesOk, StatusOk, Formed, EdgesOk, PackagesOk, PackageRoom;
    PackagesHaveRoom(db, e);
  }

  lemma SameProviders(db: Db, db': Db, e: Edge)
    requires DbOk(db) && Grown(db, db')
    ensures HasProvider(db', e) == HasProvider(db, e)
  {
    hide DbOk, Grown, Satisfies, Provided, NameAt;
    Lengths(db);
    GrownTables(db, db');
    forall x: nat | x < PACKAGE_HASH_PRIME && Provided(db.pkgs[x], e.name)
      ensures db.pkgs[x].Package?
      ensures Satisfies(db', NameAt(db', db.pkgs[x].name), e.typ) == Satisfies(db, NameAt(db, db.pkgs[x].name), e.typ)
    {
      IsProvider(db.pkgs[x], e.name);
      GrownPackage(db, db', x);
      GrownSatisfies(db, db', NameAt(db, db.pkgs[x].name), e.typ);
    }
  }

  lemma GrownEdge(db: Db, db': Db, e: Edge)
    requires Grown(db, db') && Named(db.names, e.name) && Named(db.names, e.version)
    ensures Named(db'.names, e.name) && Named(db'.names, e.version)
  {
    hide NamesOk, NoNul;
  }

  lemma PackageEdges(db: Db, db': Db, x: nat)
    requires DbOk(db) && Grown(db, db') && x < PACKAGE_HASH_PRIME && db.pkgs[x].Package?
    ensures EdgesOk(db, db.pkgs[x].edges) && EdgesOk(db', db.pkgs[x].edges) && Formed(db.pkgs[x].edges)
  {
    hide NamesOk, PackagesOk, StatusOk, Formed, EdgesOk, Kept;
    Lengths(db);
    GrownEdges(db, db', db.pkgs[x].edges);
  }

  lemma Begin(db: Db, edges: seq<Edge>)
    requires Formed(edges)
    ensures Between(db, edges, 0, AllMet(db, edges))
  {
    assert edges[0..] == edges;
  }

  /** An edge that is no dependency is in no group. */
  lemma GroupEdge(db: Db, edges: seq<Edge>, j: nat, n: nat, goal: bool, inGroup: bool)
    requires j < |edges| && !IsDep(edges[j]) && (inGroup ==> n >= 1 && InGroup(db, edges, j, n, goal))
    ensures !inGroup
  {
    hide Met, AllMet, Formed;
  }

  lemma Finished(db: Db, edges: seq<Edge>, j: nat, n: nat, goal: bool, inGroup: bool)
    requires j >= |edges| && (if inGroup then n >= 1 && InGroup(db, edges, j, n, goal) else Between(db, edges, j, goal))
    ensures goal
  {
    hide Met;
    if !inGroup { assert edges[j..] == []; }
  }

  lemma PackagesHaveRoom(db: Db, e: Edge)
    requires DbOk(db)
    ensures PackageRoom(db.names, db.pkgs, e.name, e.version, e.op)
  {
    hide NamesOk, StatusOk, Formed, EdgesOk, OnPath, HashOf;
  }
}
