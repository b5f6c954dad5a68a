/** `dpkg`'s table of statuses. */
module DpkgDeps {
  import opened DpkgTables
  import opened OpenTable
  import opened Probe
  import opened Version

  // ----- statuses -----

  datatype Status = NoStatus | Status(package: nat, status: nat)

  /** The name of a status entry is that of its package. */
  ghost predicate Entry(names: seq<Name>, pkgs: seq<Package>, s: Status) {
    && s.Status? && s.package < PACKAGE_HASH_PRIME <= |pkgs| && pkgs[s.package].Package?
    && Named(names, pkgs[s.package].name) && Named(names, s.status)
  }

  ghost function EntryName(names: seq<Name>, pkgs: seq<Package>, s: Status): (n: string)
    requires Entry(names, pkgs, s)
  {
    names[pkgs[s.package].name].s
  }

  ghost function StatusTaken(t: seq<Status>): (r: seq<bool>)
    ensures |r| == |t| && forall x :: 0 <= x < |t| ==> r[x] == t[x].Status?
  {
    seq(|t|, x requires 0 <= x < |t| => t[x].Status?)
  }

  ghost predicate IsEntry(names: seq<Name>, pkgs: seq<Package>, s: Status, key: string) {
    Entry(names, pkgs, s) && EntryName(names, pkgs, s) == key
  }

  ghost function StatusHits(names: seq<Name>, pkgs: seq<Package>, t: seq<Status>, key: string): (r: seq<bool>)
    ensures |r| == |t| && forall x :: 0 <= x < |t| ==> r[x] == IsEntry(names, pkgs, t[x], key)
  {
    seq(|t|, x requires 0 <= x < |t| => IsEntry(names, pkgs, t[x], key))
  }

  /** Every entry is where a search for its name gets to, and no name has two. */
  ghost predicate StatusOk(names: seq<Name>, pkgs: seq<Package>, t: seq<Status>) {
    && |t| == STATUS_HASH_PRIME + 1
    && (forall x :: 0 <= x < STATUS_HASH_PRIME && t[x].Status? ==>
          Entry(names, pkgs, t[x])
          && OnPath(StatusTaken(t), HashOf(EntryName(names, pkgs, t[x]), STATUS_HASH_PRIME), STATUS_HASH_PRIME, x))
    && (forall x, y | 0 <= x < STATUS_HASH_PRIME && 0 <= y < STATUS_HASH_PRIME && t[x].Status? && t[y].Status? ::
          EntryName(names, pkgs, t[x]) == EntryName(names, pkgs, t[y]) ==> x == y)
  }

  /** The search can end: a slot is free, or the name has an entry. */
  ghost predicate StatusRoom(names: seq<Name>, pkgs: seq<Package>, t: seq<Status>, key: string) {
    |t| == STATUS_HASH_PRIME + 1
    && exists x :: 0 <= x < STATUS_HASH_PRIME && (t[x].NoStatus? || IsEntry(names, pkgs, t[x], key))
  }

  /** Exactly when a search for a status ends. */
  lemma StatusSearchEnds(names: seq<Name>, pkgs: seq<Package>, t: seq<Status>, key: string)
    requires StatusOk(names, pkgs, t)
    ensures StatusRoom(names, pkgs, t, key) <==>
            exists i ::
              0 <= i
              && !Searching(StatusTaken(t), StatusHits(names, pkgs, t, key), HashOf(key, STATUS_HASH_PRIME),
                            STATUS_HASH_PRIME, i)
  {
    hide HashOf, Prime, Searching, OnPath, IsEntry;
    IsPrime(STATUS_HASH_PRIME);
    var taken, hit := StatusTaken(t), StatusHits(names, pkgs, t, key);
    SearchEnds(taken, hit, HashOf(key, STATUS_HASH_PRIME), STATUS_HASH_PRIME);
    if x :| 0 <= x < STATUS_HASH_PRIME && (!taken[x] || hit[x]) {
      assert t[x].NoStatus? || IsEntry(names, pkgs, t[x], key);
    }
    if StatusRoom(names, pkgs, t, key) {
      var x :| 0 <= x < STATUS_HASH_PRIME && (t[x].NoStatus? || IsEntry(names, pkgs, t[x], key));
      assert !taken[x] || hit[x];
    }
  }

  /** `search_status_hashtable`: the entry of the name if there is one, else a free slot that the
      path of the name leads to. */
  method SearchStatus(names: array<Name>, pkgs: array<Package>, t: array<Status>, key: string) returns (a: nat)
    requires StatusOk(names[..], pkgs[..], t[..]) && StatusRoom(names[..], pkgs[..], t[..], key)
    ensures a < STATUS_HASH_PRIME && (t[a].Status? ==> IsEntry(names[..], pkgs[..], t[a], key))
    ensures t[a].Status? <==> exists x :: 0 <= x < STATUS_HASH_PRIME && IsEntry(names[..], pkgs[..], t[x], key)
    ensures OnPath(StatusTaken(t[..]), HashOf(key, STATUS_HASH_PRIME), STATUS_HASH_PRIME, a)
  {
    hide HashOf, At, Prime, OnPath, NoNul;
    var start, dec := MakeHash(key, STATUS_HASH_PRIME);
    a := start;
    ghost var h, p, i := Hash(start, dec), STATUS_HASH_PRIME, 0;
    ghost var ns, ps, ts := names[..], pkgs[..], t[..];
    ghost var taken, hit := StatusTaken(ts), StatusHits(ns, ps, ts, key);
    ghost var room :| 0 <= room < STATUS_HASH_PRIME && (ts[room].NoStatus? || IsEntry(ns, ps, ts[room], key));
    IsPrime(p);
    AtStart(h, p);
    while t[a].Status?
      invariant i < p && a == At(h, p, i) && a < STATUS_HASH_PRIME && Searching(taken, hit, h, p, i)
      decreases p - i
    {
      assert Entry(ns, ps, ts[a]);
      if names[pkgs[t[a].package].name].s == key {
        Reached(taken, hit, h, p, i);
        assert IsEntry(ns, ps, ts[a], key);
        return;
      }
      assert !IsEntry(ns, ps, ts[a], key);
      AtNext(h, p, i);
      StopsInTime(taken, hit, h, p, i + 1, room);
      a := Down(a, dec, STATUS_HASH_PRIME);
      i := i + 1;
    }
    Reached(taken, hit, h, p, i);
    forall x | 0 <= x < STATUS_HASH_PRIME && IsEntry(ns, ps, ts[x], key) ensures false {
      Missed(taken, hit, h, p, i, x);
    }
  }

  /** The end of `index_status_file`: an entry replaces that of the same name. */
  method StoreStatus(names: array<Name>, pkgs: array<Package>, t: array<Status>, entry: Status) returns (a: nat)
    requires StatusOk(names[..], pkgs[..], t[..]) && Entry(names[..], pkgs[..], entry)
    requires StatusRoom(names[..], pkgs[..], t[..], EntryName(names[..], pkgs[..], entry))
    modifies t
    ensures StatusOk(names[..], pkgs[..], t[..]) && a < STATUS_HASH_PRIME && t[..] == old(t[..])[a := entry]
    ensures old(t[a]).Status? ==> IsEntry(names[..], pkgs[..], old(t[a]), EntryName(names[..], pkgs[..], entry))
    ensures old(t[a]).NoStatus? ==>
              forall x ::
                0 <= x < STATUS_HASH_PRIME ==>
                  !IsEntry(names[..], pkgs[..], old(t[x]), EntryName(names[..], pkgs[..], entry))
  {
    hide HashOf, OnPath, NoNul, StatusRoom;
    ghost var ns, ps, ts := names[..], pkgs[..], t[..];
    a := SearchStatus(names, pkgs, t, names[pkgs[entry.package].name].s);
    t[a] := entry;
    StatusAdded(ns, ps, ts, t[..], a);
  }

  lemma StatusAdded(ns: seq<Name>, ps: seq<Package>, t: seq<Status>, t': seq<Status>, a: nat)
    requires StatusOk(ns, ps, t) && a < STATUS_HASH_PRIME && |t'| == |t| && t' == t[a := t'[a]] && Entry(ns, ps, t'[a])
    requires OnPath(StatusTaken(t), HashOf(EntryName(ns, ps, t'[a]), STATUS_HASH_PRIME), STATUS_HASH_PRIME, a)
    requires t[a].Status? ==> EntryName(ns, ps, t[a]) == EntryName(ns, ps, t'[a])
    requires t[a].NoStatus? ==>
               forall x :: 0 <= x < STATUS_HASH_PRIME ==> !IsEntry(ns, ps, t[x], EntryName(ns, ps, t'[a]))
    ensures StatusOk(ns, ps, t')
  {
    hide OnPath, HashOf, NoNul;
    forall x | 0 <= x < STATUS_HASH_PRIME && t'[x].Status?
      ensures Entry(ns, ps, t'[x])
              && OnPath(StatusTaken(t'), HashOf(EntryName(ns, ps, t'[x]), STATUS_HASH_PRIME), STATUS_HASH_PRIME, x)
    {
      PathStays(StatusTaken(t), StatusTaken(t'), HashOf(EntryName(ns, ps, t'[x]), STATUS_HASH_PRIME),
                STATUS_HASH_PRIME, x);
    }
    forall x, y | 0 <= x < STATUS_HASH_PRIME && 0 <= y < STATUS_HASH_PRIME && t'[x].Status? && t'[y].Status?
                  && EntryName(ns, ps, t'[x]) == EntryName(ns, ps, t'[y])
      ensures x == y
    {
      if t[a].NoStatus? {
        assert !IsEntry(ns, ps, t[x], EntryName(ns, ps, t'[a]));
        assert !IsEntry(ns, ps, t[y], EntryName(ns, ps, t'[a]));
      }
    }
  }
}
