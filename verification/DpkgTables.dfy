/** `dpkg`'s three open-addressed tables: names, packages and statuses. */
module DpkgTables {
  import opened Arith
  import opened OpenTable
  import opened Probe
  import opened Version

  // ----- names -----

  datatype Name = NoName | Name(s: string)

  ghost function NamesTaken(t: seq<Name>): (r: seq<bool>)
    ensures |r| == |t| && forall x :: 0 <= x < |t| ==> r[x] == t[x].Name?
  {
    seq(|t|, x requires 0 <= x < |t| => t[x].Name?)
  }

  ghost function NameHits(t: seq<Name>, key: string): (r: seq<bool>)
    ensures |r| == |t| && forall x :: 0 <= x < |t| ==> r[x] == (t[x] == Name(key))
  {
    seq(|t|, x requires 0 <= x < |t| => t[x] == Name(key))
  }

  /** Every name is where a search for it gets to, and no name is there twice. */
  ghost predicate NamesOk(t: seq<Name>) {
    && |t| == NAME_HASH_PRIME + 1
    && (forall x :: 0 <= x < NAME_HASH_PRIME && t[x].Name? ==>
          NoNul(t[x].s) && OnPath(NamesTaken(t), HashOf(t[x].s, NAME_HASH_PRIME), NAME_HASH_PRIME, x))
    && (forall x, y :: 0 <= x < NAME_HASH_PRIME && 0 <= y < NAME_HASH_PRIME && t[x].Name? && t[x] == t[y] ==> x == y)
  }

  /** The search can end: a slot is free, or the name is there. */
  ghost predicate NameRoom(t: seq<Name>, key: string) {
    |t| == NAME_HASH_PRIME + 1 && exists x :: 0 <= x < NAME_HASH_PRIME && (t[x].NoName? || t[x] == Name(key))
  }

  lemma NameAdded(t: seq<Name>, r: nat, key: string)
    requires NamesOk(t) && r < NAME_HASH_PRIME && t[r].NoName? && NoNul(key)
    requires OnPath(NamesTaken(t), HashOf(key, NAME_HASH_PRIME), NAME_HASH_PRIME, r)
    requires forall x :: 0 <= x < NAME_HASH_PRIME ==> t[x] != Name(key)
    ensures NamesOk(t[r := Name(key)])
  {
    hide OnPath, HashOf, Prime;
    var t' := t[r := Name(key)];
    forall x | 0 <= x < NAME_HASH_PRIME && t'[x].Name?
      ensures NoNul(t'[x].s) && OnPath(NamesTaken(t'), HashOf(t'[x].s, NAME_HASH_PRIME), NAME_HASH_PRIME, x)
    {
      PathStays(NamesTaken(t), NamesTaken(t'), HashOf(t'[x].s, NAME_HASH_PRIME), NAME_HASH_PRIME, x);
    }
  }

  class NameTable {
    const slots: array<Name>

    ghost predicate Valid()
      reads slots
    {
      NamesOk(slots[..])
    }

    constructor ()
      ensures Valid() && fresh(slots) && forall x :: 0 <= x <= NAME_HASH_PRIME ==> slots[x] == NoName
    {
      slots := new Name[NAME_HASH_PRIME + 1](_ => NoName);
    }

    /** The probe loop: it ends at the name, or at a free slot that the name's path leads to. */
    method Probe(key: string) returns (a: nat)
      requires Valid() && NameRoom(slots[..], key)
      ensures a < NAME_HASH_PRIME && (slots[a] == Name(key) || slots[a].NoName?)
      ensures OnPath(NamesTaken(slots[..]), HashOf(key, NAME_HASH_PRIME), NAME_HASH_PRIME, a)
      ensures slots[a].NoName? ==> forall x :: 0 <= x < NAME_HASH_PRIME ==> slots[x] != Name(key)
    {
      hide HashOf, At, Prime, OnPath;
      var start, dec := MakeHash(key, NAME_HASH_PRIME);
      a := start;
      ghost var h, p, i := Hash(start, dec), NAME_HASH_PRIME, 0;
      ghost var t := slots[..];
      ghost var taken, hit := NamesTaken(t), NameHits(t, key);
      ghost var room :| 0 <= room < NAME_HASH_PRIME && (t[room].NoName? || t[room] == Name(key));
      IsPrime(p);
      AtStart(h, p);
      while slots[a].Name?
        invariant i < p && a == At(h, p, i) && a < NAME_HASH_PRIME && Searching(taken, hit, h, p, i)
        decreases p - i
      {
        if slots[a].s == key {
          Reached(taken, hit, h, p, i);
          return;
        }
        AtNext(h, p, i);
        StopsInTime(taken, hit, h, p, i + 1, room);
        a := Down(a, dec, NAME_HASH_PRIME);
        i := i + 1;
      }
      Reached(taken, hit, h, p, i);
      forall x | 0 <= x < NAME_HASH_PRIME ensures t[x] != Name(key) {
        if t[x] == Name(key) { Missed(taken, hit, h, p, i, x); }
      }
    }

    /** `search_name_hashtable`: the slot of the name, which is added if it is new. Nothing that
        was there moves, and no other name gets its slot. */
    method Intern(key: string) returns (r: nat)
      requires Valid() && NoNul(key) && NameRoom(slots[..], key)
      modifies slots
      ensures Valid() && r < NAME_HASH_PRIME && slots[..] == old(slots[..])[r := Name(key)]
      ensures old(slots[r]) == NoName || old(slots[r]) == Name(key)
      ensures forall x :: 0 <= x < NAME_HASH_PRIME && slots[x] == Name(key) ==> x == r
    {
      hide OnPath, HashOf, NameRoom;
      r := Probe(key);
      if slots[r].NoName? {
        NameAdded(slots[..], r, key);
        slots[r] := Name(key);
      }
    }

    /** Any run of searches that the table has room for: the table is a map. Equal names get the
        same slot and different names different ones, and every slot handed out keeps its name. */
    method InternAll(keys: seq<string>) returns (at: seq<nat>)
      requires Valid() && (forall i :: 0 <= i < |keys| ==> NoNul(keys[i])) && |Free(slots[..])| >= |keys|
      modifies slots
      ensures Valid() && Kept(old(slots[..]), slots[..])
      ensures |at| == |keys| && forall i :: 0 <= i < |keys| ==> at[i] < NAME_HASH_PRIME && slots[at[i]] == Name(keys[i])
      ensures forall i, j :: 0 <= i < |keys| && 0 <= j < |keys| ==> (at[i] == at[j] <==> keys[i] == keys[j])
    {
      hide NamesOk, NameRoom, OnPath, NoNul;
      at := [];
      TableSize(slots[..]);
      while |at| < |keys|
        invariant |at| <= |keys| && Valid() && Kept(old(slots[..]), slots[..])
        invariant slots.Length == NAME_HASH_PRIME + 1 && |Free(slots[..])| >= |keys| - |at|
        invariant forall i :: 0 <= i < |at| ==> at[i] < NAME_HASH_PRIME && slots[at[i]] == Name(keys[i])
      {
        ghost var t := slots[..];
        FreeRoom(t, keys[|at|]);
        var r := Intern(keys[|at|]);
        OneTaken(t, slots[..], r);
        at := at + [r];
      }
      forall i, j | 0 <= i < |keys| && 0 <= j < |keys| ensures at[i] == at[j] <==> keys[i] == keys[j] {
        NamedOnce(slots[..], at[i], at[j]);
      }
    }
  }

  ghost function Free(t: seq<Name>): (f: set<nat>) {
    set x: nat | x < NAME_HASH_PRIME && x < |t| && t[x].NoName?
  }

  /** No name has moved. */
  ghost predicate Kept(t: seq<Name>, t': seq<Name>) {
    |t| == |t'| && forall x :: 0 <= x < |t| && t[x].Name? ==> t'[x] == t[x]
  }

  lemma TableSize(t: seq<Name>)
    requires NamesOk(t)
    ensures |t| == NAME_HASH_PRIME + 1
  {
  }

  lemma FreeRoom(t: seq<Name>, key: string)
    requires |t| == NAME_HASH_PRIME + 1 && |Free(t)| >= 1
    ensures NameRoom(t, key)
  {
    var x :| x in Free(t);
    assert t[x].NoName?;
  }

  lemma OneTaken(t: seq<Name>, t': seq<Name>, r: nat)
    requires |t| == |t'| && forall x :: 0 <= x < |t| && x != r ==> t'[x] == t[x]
    ensures |Free(t')| >= |Free(t)| - 1
  {
    SubsetSize(Free(t) - {r}, Free(t'));
  }

  lemma NamedOnce(t: seq<Name>, x: nat, y: nat)
    requires NamesOk(t) && x < NAME_HASH_PRIME && y < NAME_HASH_PRIME && t[x].Name?
    ensures t[x] == t[y] <==> x == y
  {
    hide OnPath;
  }

  lemma AtStart(h: Hash, p: nat)
    requires HashOk(h, p)
    ensures At(h, p, 0) == h.start
  {
  }

  /** Exactly when a search for a name ends. */
  lemma NameSearchEnds(t: seq<Name>, key: string)
    requires NamesOk(t)
    ensures NameRoom(t, key) <==>
            exists i ::
              0 <= i && !Searching(NamesTaken(t), NameHits(t, key), HashOf(key, NAME_HASH_PRIME), NAME_HASH_PRIME, i)
  {
    hide HashOf, Prime, Searching, OnPath;
    IsPrime(NAME_HASH_PRIME);
    SearchEnds(NamesTaken(t), NameHits(t, key), HashOf(key, NAME_HASH_PRIME), NAME_HASH_PRIME);
    var taken, hit := NamesTaken(t), NameHits(t, key);
    if x :| 0 <= x < NAME_HASH_PRIME && (!taken[x] || hit[x]) {
      assert t[x].NoName? || t[x] == Name(key);
    }
    if x :| NameRoom(t, key) && 0 <= x < NAME_HASH_PRIME && (t[x].NoName? || t[x] == Name(key)) {
      assert !taken[x] || hit[x];
    }
  }

  /** The name of `n + 1` letters. */
  function LongName(n: nat): (s: string)
    ensures NoNul(s) && |s| == n + 1
  {
    seq(n + 1, _ => 'a')
  }

  /** A full table is reached by as many searches for different names as it has slots; from then
      on a search for any other name goes on for ever. */
  method FullTable() returns (t: NameTable)
    ensures t.Valid() && (forall x :: 0 <= x < NAME_HASH_PRIME ==> t.slots[x].Name?)
    ensures forall key, i: nat :: |key| > NAME_HASH_PRIME ==>
              Searching(NamesTaken(t.slots[..]), NameHits(t.slots[..], key), HashOf(key, NAME_HASH_PRIME),
                        NAME_HASH_PRIME, i)
  {
    hide NamesOk, HashOf, Searching, NamesTaken, NameHits, NoNul;
    t := new NameTable();
    TableSize(t.slots[..]);
    ghost var all := t.slots[..];
    AllFree(all, NAME_HASH_PRIME);
    var keys: seq<string>, n := [], 0;
    while n < NAME_HASH_PRIME
      invariant 0 <= n <= NAME_HASH_PRIME && |keys| == n && t.slots[..] == all
      invariant forall i :: 0 <= i < n ==> keys[i] == LongName(i)
    {
      keys, n := keys + [LongName(n)], n + 1;
    }
    var at := t.InternAll(keys);
    ghost var full := t.slots[..];
    forall x: nat | x < NAME_HASH_PRIME ensures full[x].Name? && |full[x].s| <= NAME_HASH_PRIME {
      var i := AllTaken(full, keys, at, NAME_HASH_PRIME, x);
    }
    forall key, i: nat | |key| > NAME_HASH_PRIME
      ensures Searching(NamesTaken(full), NameHits(full, key), HashOf(key, NAME_HASH_PRIME), NAME_HASH_PRIME, i)
    {
      NameSearchEnds(full, key);
    }
  }

  lemma AllFree(t: seq<Name>, p: nat)
    requires p == NAME_HASH_PRIME && |t| == p + 1 && forall x :: 0 <= x <= p ==> t[x] == NoName
    ensures |Free(t)| >= p
  {
    hide Below;
    BelowCount(p);
    forall x | x in Below(p) ensures x in Free(t) {}
    SubsetSize(Below(p), Free(t));
  }

  lemma {:induction false} Images(at: seq<nat>, p: nat, n: nat) returns (s: set<nat>)
    requires n <= |at| && (forall i :: 0 <= i < n ==> at[i] < p) && forall i, j :: 0 <= i < j < n ==> at[i] != at[j]
    ensures |s| == n && forall x :: x in s ==> x < p && x in at[..n]
  {
    if n == 0 {
      s := {};
    } else {
      s := Images(at, p, n - 1);
      s := s + {at[n - 1]};
    }
  }

  /** As many different slots as there are: all of them. */
  lemma Onto(at: seq<nat>, p: nat, x: nat)
    requires |at| == p && (forall i :: 0 <= i < p ==> at[i] < p) && (forall i, j :: 0 <= i < j < p ==> at[i] != at[j])
             && x < p
    ensures x in at
  {
    hide Below;
    var s := Images(at, p, p);
    BelowCount(p);
    forall a | a in s ensures a in Below(p) { BelowHas(p, a); }
    SubsetEqual(s, Below(p));
    BelowHas(p, x);
  }

  lemma AllTaken(t: seq<Name>, keys: seq<string>, at: seq<nat>, p: nat, x: nat) returns (i: nat)
    requires |t| == p + 1 && |keys| == |at| == p && (forall i :: 0 <= i < p ==> at[i] < p && t[at[i]] == Name(keys[i]))
    requires (forall i, j :: 0 <= i < p && 0 <= j < p ==> (at[i] == at[j] <==> keys[i] == keys[j]))
    requires (forall i :: 0 <= i < p ==> keys[i] == LongName(i)) && x < p
    ensures i < p && t[x] == Name(LongName(i))
  {
    hide NoNul;
    forall i, j | 0 <= i < j < p ensures at[i] != at[j] { assert |keys[i]| != |keys[j]|; }
    Onto(at, p, x);
    i :| 0 <= i < |at| && at[i] == x;
  }

  // ----- packages -----

  datatype EdgeType = PreDepends | OrPreDepends | Depends | OrDepends | Provides | OtherEdge

  /** A dependency; for an edge that starts a list of alternatives, `version` is their number. */
  datatype Edge = Edge(typ: EdgeType, name: nat, version: nat, op: Operator)

  datatype Package = NoPackage | Package(name: nat, version: nat, edges: seq<Edge>)

  ghost predicate Named(names: seq<Name>, i: nat) {
    i < NAME_HASH_PRIME && NAME_HASH_PRIME <= |names| && names[i].Name? && NoNul(names[i].s)
  }

  ghost function PackagesTaken(t: seq<Package>): (r: seq<bool>)
    ensures |r| == |t| && forall x :: 0 <= x < |t| ==> r[x] == t[x].Package?
  {
    seq(|t|, x requires 0 <= x < |t| => t[x].Package?)
  }

  /** A package of that name whose version is in the relation `op` to the version asked for. */
  ghost predicate Matches(names: seq<Name>, p: Package, name: nat, version: nat, op: Operator) {
    && p.Package? && p.name == name
    && (op == VerAny || (Named(names, p.version) && Named(names, version)
                         && Holds(op, CompareVersions(names[p.version].s, names[version].s))))
  }

  ghost function PackageHits(names: seq<Name>, t: seq<Package>, name: nat, version: nat, op: Operator): (r: seq<bool>)
    ensures |r| == |t| && forall x :: 0 <= x < |t| ==> r[x] == Matches(names, t[x], name, version, op)
  {
    seq(|t|, x requires 0 <= x < |t| => Matches(names, t[x], name, version, op))
  }

  ghost predicate PackagesOk(names: seq<Name>, t: seq<Package>) {
    && |t| == PACKAGE_HASH_PRIME + 1
    && forall x :: 0 <= x < PACKAGE_HASH_PRIME && t[x].Package? ==>
         Named(names, t[x].name) && Named(names, t[x].version)
         && OnPath(PackagesTaken(t), HashOf(names[t[x].name].s, PACKAGE_HASH_PRIME), PACKAGE_HASH_PRIME, x)
  }

  ghost predicate PackageRoom(names: seq<Name>, t: seq<Package>, name: nat, version: nat, op: Operator) {
    |t| == PACKAGE_HASH_PRIME + 1
    && exists x :: 0 <= x < PACKAGE_HASH_PRIME && (t[x].NoPackage? || Matches(names, t[x], name, version, op))
  }

  /** Exactly when a search for a package ends. */
  lemma PackageSearchEnds(names: seq<Name>, t: seq<Package>, name: nat, version: nat, op: Operator)
    requires PackagesOk(names, t) && Named(names, name)
    ensures PackageRoom(names, t, name, version, op) <==>
            exists i :: 0 <= i && !Searching(PackagesTaken(t), PackageHits(names, t, name, version, op),
                                             HashOf(names[name].s, PACKAGE_HASH_PRIME), PACKAGE_HASH_PRIME, i)
  {
    hide HashOf, Prime, Searching, OnPath, Matches, NoNul;
    IsPrime(PACKAGE_HASH_PRIME);
    var taken, hit := PackagesTaken(t), PackageHits(names, t, name, version, op);
    SearchEnds(taken, hit, HashOf(names[name].s, PACKAGE_HASH_PRIME), PACKAGE_HASH_PRIME);
    if x :| 0 <= x < PACKAGE_HASH_PRIME && (!taken[x] || hit[x]) {
      assert t[x].NoPackage? || Matches(names, t[x], name, version, op);
    }
    if PackageRoom(names, t, name, version, op) {
      var x :| 0 <= x < PACKAGE_HASH_PRIME && (t[x].NoPackage? || Matches(names, t[x], name, version, op));
      assert !taken[x] || hit[x];
    }
  }

  /** `search_package_hashtable`: a slot with a match if there is one anywhere in the table, else a
      free slot that the path of the name leads to. */
  method SearchPackage(names: array<Name>, t: array<Package>, name: nat, version: nat, op: Operator) returns (a: nat)
    requires PackagesOk(names[..], t[..]) && Named(names[..], name) && Named(names[..], version)
    requires PackageRoom(names[..], t[..], name, version, op)
    ensures a < PACKAGE_HASH_PRIME && (t[a].Package? ==> Matches(names[..], t[a], name, version, op))
    ensures t[a].Package? <==> exists x :: 0 <= x < PACKAGE_HASH_PRIME && Matches(names[..], t[x], name, version, op)
    ensures OnPath(PackagesTaken(t[..]), HashOf(names[name].s, PACKAGE_HASH_PRIME), PACKAGE_HASH_PRIME, a)
  {
    hide HashOf, At, Prime, OnPath, NoNul, CompareVersions;
    var start, dec := MakeHash(names[name].s, PACKAGE_HASH_PRIME);
    a := start;
    ghost var h, p, i := Hash(start, dec), PACKAGE_HASH_PRIME, 0;
    ghost var ns, ts := names[..], t[..];
    ghost var taken, hit := PackagesTaken(ts), PackageHits(ns, ts, name, version, op);
    ghost var room :| 0 <= room < PACKAGE_HASH_PRIME
      && (ts[room].NoPackage? || Matches(ns, ts[room], name, version, op));
    IsPrime(p);
    AtStart(h, p);
    while t[a].Package?
      invariant i < p && a == At(h, p, i) && a < PACKAGE_HASH_PRIME && Searching(taken, hit, h, p, i)
      decreases p - i
    {
      if t[a].name == name {
        var ok := op == VerAny;
        if !ok { ok := TestVersion(names[t[a].version].s, names[version].s, op); }
        if ok {
          Reached(taken, hit, h, p, i);
          assert Matches(ns, ts[a], name, version, op);
          return;
        }
      }
      assert !Matches(ns, ts[a], name, version, op);
      AtNext(h, p, i);
      StopsInTime(taken, hit, h, p, i + 1, room);
      a := Down(a, dec, PACKAGE_HASH_PRIME);
      i := i + 1;
    }
    Reached(taken, hit, h, p, i);
    forall x | 0 <= x < PACKAGE_HASH_PRIME && Matches(ns, ts[x], name, version, op) ensures false {
      Missed(taken, hit, h, p, i, x);
    }
  }

  /** The end of `fill_package_struct`: the package replaces one of the same name and an equal
      version, or takes a free slot. */
  method StorePackage(names: array<Name>, t: array<Package>, new_: Package) returns (a: nat)
    requires PackagesOk(names[..], t[..]) && new_.Package? && Named(names[..], new_.name)
             && Named(names[..], new_.version)
    requires PackageRoom(names[..], t[..], new_.name, new_.version, VerEqual)
    modifies t
    ensures PackagesOk(names[..], t[..]) && a < PACKAGE_HASH_PRIME && t[..] == old(t[..])[a := new_]
    ensures old(t[a]).Package? <==>
              exists x ::
                0 <= x < PACKAGE_HASH_PRIME && Matches(names[..], old(t[x]), new_.name, new_.version, VerEqual)
    ensures old(t[a]).Package? ==> Matches(names[..], old(t[a]), new_.name, new_.version, VerEqual)
  {
    hide HashOf, OnPath, Matches, PackageRoom;
    a := SearchPackage(names, t, new_.name, new_.version, VerEqual);
    ghost var ts := t[..];
    assert ts[a].Package? ==> ts[a].name == new_.name by {
      if ts[a].Package? { MatchName(names[..], ts[a], new_.name, new_.version, VerEqual); }
    }
    t[a] := new_;
    PackageAdded(names[..], ts, t[..], a);
  }

  lemma MatchName(names: seq<Name>, p: Package, name: nat, version: nat, op: Operator)
    requires Matches(names, p, name, version, op)
    ensures p.Package? && p.name == name
  {
  }

  lemma PackageAdded(names: seq<Name>, t: seq<Package>, t': seq<Package>, a: nat)
    requires PackagesOk(names, t) && a < PACKAGE_HASH_PRIME && |t'| == |t| && t' == t[a := t'[a]] && t'[a].Package?
    requires Named(names, t'[a].name) && Named(names, t'[a].version)
    requires OnPath(PackagesTaken(t), HashOf(names[t'[a].name].s, PACKAGE_HASH_PRIME), PACKAGE_HASH_PRIME, a)
    ensures PackagesOk(names, t')
  {
    hide OnPath, HashOf;
    forall x | 0 <= x < PACKAGE_HASH_PRIME && t'[x].Package?
      ensures Named(names, t'[x].name) && Named(names, t'[x].version)
              && OnPath(PackagesTaken(t'), HashOf(names[t'[x].name].s, PACKAGE_HASH_PRIME), PACKAGE_HASH_PRIME, x)
    {
      PathStays(PackagesTaken(t), PackagesTaken(t'), HashOf(names[t'[x].name].s, PACKAGE_HASH_PRIME),
                PACKAGE_HASH_PRIME, x);
    }
  }

  /** Adding names keeps the package table in order. */
  lemma PackagesStay(names: seq<Name>, names': seq<Name>, t: seq<Package>)
    requires PackagesOk(names, t) && |names| == |names'|
             && forall x :: 0 <= x < |names| && names[x].Name? ==> names'[x] == names[x]
    ensures PackagesOk(names', t)
  {
    hide OnPath, HashOf, NoNul;
  }
}
