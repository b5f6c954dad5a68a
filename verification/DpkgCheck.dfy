/** The dependency pass of `check_deps`: it gets through exactly when every dependency of every
    package that is wanted is met. */
module DpkgCheck {
  import opened DpkgDeps
  import opened DpkgTables
  import opened Probe

  // ----- what the pass should decide -----

  /** The characters of `s` before the first one of `stop`: `strcspn`. */
  function Until(s: string, stop: string): (n: nat)
    ensures n <= |s|
  {
    if s == "" || s[0] in stop then 0 else 1 + Until(s[1..], stop)
  }

  /** The spaces at the start of `s`. */
  function Spaces(s: string): (n: nat)
    ensures n <= |s|
  {
    if s != "" && s[0] == ' ' then 1 + Spaces(s[1..]) else 0
  }

  /** Word `num` of a status: what `get_status` looks up. Names are interned, so that comparing
      the slots of two words is comparing the words. */
  function StatusWord(s: string, num: nat): (w: string)
    requires num >= 1
  {
    if num == 1 then s[..Until(s, " \n")]
    else
      var t := s[Until(s, " ")..];
      StatusWord(t[Spaces(t)..], num - 1)
  }

  /** What a package's status must say for it to satisfy a dependency of this kind. */
  predicate Says(status: string, typ: EdgeType) {
    (typ == PreDepends && StatusWord(status, 3) == "installed")
    || (typ == Depends && StatusWord(status, 1) == "install")
  }

  lemma {:induction false} UntilAt(a: string, b: string, stop: string)
    requires (forall k :: 0 <= k < |a| ==> a[k] !in stop) && (b == "" || b[0] in stop)
    ensures Until(a + b, stop) == |a|
    decreases |a|
  {
    if a == "" {
      assert a + b == b;
    } else {
      assert (a + b)[1..] == a[1..] + b;
      UntilAt(a[1..], b, stop);
    }
  }

  predicate Word(w: string) { w != "" && forall k :: 0 <= k < |w| ==> w[k] !in " \n" && w[k] !in " " }

  /** The first word, and the words behind it. */
  lemma FirstWord(w: string, rest: string)
    requires Word(w) && rest != "" && Word(rest[..1])
    ensures StatusWord(w + (" " + rest), 1) == w
            && forall n: nat :: n >= 1 ==> StatusWord(w + (" " + rest), n + 1) == StatusWord(rest, n)
  {
    var s, t := w + (" " + rest), " " + rest;
    UntilAt(w, t, " \n");
    UntilAt(w, t, " ");
    assert s[..|w|] == w && s[|w|..] == t && t[1..] == rest;
    assert rest[..1][0] !in " ";
    assert Spaces(t) == 1;
  }

  lemma LastWord(w: string)
    requires Word(w)
    ensures StatusWord(w, 1) == w
  {
    UntilAt(w, "", " \n");
    assert w + "" == w && w[..|w|] == w;
  }

  lemma Words(want: string, flag: string, state: string)
    requires Word(want) && Word(flag) && Word(state)
    ensures var s := want + (" " + (flag + (" " + state))); StatusWord(s, 1) == want && StatusWord(s, 3) == state
  {
    hide StatusWord, Word;
    var rest := flag + (" " + state);
    Start(flag, rest);
    Start(state, state);
    FirstWord(want, rest);
    FirstWord(flag, state);
    LastWord(state);
    assert StatusWord(rest, 2) == StatusWord(state, 1);
  }

  lemma Start(w: string, s: string)
    requires Word(w) && w <= s
    ensures s != "" && Word(s[..1])
  {
    assert s[..1] == w[..1];
  }

  /** What the statuses of an installed, a wanted and a removed package satisfy. */
  lemma Statuses()
    ensures Says("install ok installed", Depends) && Says("install ok installed", PreDepends)
    ensures Says("install ok unpacked", Depends) && !Says("install ok unpacked", PreDepends)
    ensures !Says("deinstall ok config-files", Depends) && !Says("deinstall ok config-files", PreDepends)
  {
    hide Says, Word;
    Installed();
    Unpacked();
    Removed();
  }

  lemma Installed()
    ensures Says("install ok installed", Depends) && Says("install ok installed", PreDepends)
  {
    hide Says;
    StatusSays("install", "installed", "install ok installed");
  }

  lemma Unpacked()
    ensures Says("install ok unpacked", Depends) && !Says("install ok unpacked", PreDepends)
  {
    hide Says;
    assert |"installed"| != |"unpacked"|;
    StatusSays("install", "unpacked", "install ok unpacked");
  }

  lemma Removed()
    ensures !Says("deinstall ok config-files", Depends) && !Says("deinstall ok config-files", PreDepends)
  {
    hide Says;
    assert |"install"| != |"deinstall"| && |"installed"| != |"config-files"|;
    StatusSays("deinstall", "config-files", "deinstall ok config-files");
  }

  lemma StatusSays(want: string, state: string, s: string)
    requires Word(want) && Word(state) && s == want + (" " + ("ok" + (" " + state)))
    ensures Says(s, Depends) == (want == "install") && Says(s, PreDepends) == (state == "installed")
  {
    hide StatusWord;
    Words(want, "ok", state);
  }

  /** The name has a status that satisfies a dependency of this kind. */
  ghost predicate Satisfies(db: Db, key: string, typ: EdgeType) {
    exists x ::
      0 <= x < STATUS_HASH_PRIME && x < |db.sts| && IsEntry(db.names, db.pkgs, db.sts[x], key)
      && Says(db.names[db.sts[x].status].s, typ)
  }

  /** The three tables. */
  datatype Db = Db(names: seq<Name>, pkgs: seq<Package>, sts: seq<Status>)

  ghost predicate DbOk(db: Db) {
    && NamesOk(db.names) && PackagesOk(db.names, db.pkgs) && StatusOk(db.names, db.pkgs, db.sts)
    && (exists x :: 0 <= x < STATUS_HASH_PRIME && db.sts[x].NoStatus?)
       && (exists x :: 0 <= x < PACKAGE_HASH_PRIME && db.pkgs[x].NoPackage?)
    && forall x ::
         0 <= x < PACKAGE_HASH_PRIME && db.pkgs[x].Package? ==>
           EdgesOk(db, db.pkgs[x].edges) && Formed(db.pkgs[x].edges)
  }

  predicate IsOr(e: Edge) { e.typ == OrPreDepends || e.typ == OrDepends }
  predicate IsDep(e: Edge) { e.typ == PreDepends || e.typ == Depends }

  ghost predicate EdgesOk(db: Db, edges: seq<Edge>) {
    forall j ::
      0 <= j < |edges| && !IsOr(edges[j]) ==> Named(db.names, edges[j].name) && Named(db.names, edges[j].version)
  }

  /** The kind of the alternatives of an edge that starts a list of them. */
  function Kind(t: EdgeType): (r: EdgeType) {
    if t == OrPreDepends then PreDepends else Depends
  }

  /** As `add_split_dependencies` builds them: an edge that starts a list of alternatives is
      followed by as many edges of its kind as it says. */
  ghost predicate Formed(edges: seq<Edge>)
    decreases |edges|
  {
    if edges == [] then true
    else if IsOr(edges[0]) then
      var n := edges[0].version;
      1 <= n < |edges| && (forall i :: 1 <= i <= n ==> edges[i].typ == Kind(edges[0].typ)) && Formed(edges[n + 1..])
    else Formed(edges[1..])
  }

  ghost predicate Provided(p: Package, name: nat) {
    p.Package? && exists j :: 0 <= j < |p.edges| && p.edges[j].typ == Provides && p.edges[j].name == name
  }

  /** A dependency is met by a package of the right version, or by one that provides its name. */
  ghost predicate Met(db: Db, e: Edge) {
    || (exists x ::
        0 <= x < PACKAGE_HASH_PRIME && x < |db.pkgs| && Matches(db.names, db.pkgs[x], e.name, e.version, e.op) &&
          Satisfies(db, NameAt(db, e.name), e.typ))
    || (exists x ::
        0 <= x < PACKAGE_HASH_PRIME && x < |db.pkgs| && Provided(db.pkgs[x], e.name)
        && Satisfies(db, NameAt(db, db.pkgs[x].name), e.typ))
  }

  function NameAt(db: Db, i: nat): (s: string) {
    if i < |db.names| && db.names[i].Name? then db.names[i].s else ""
  }

  ghost predicate OneMet(db: Db, edges: seq<Edge>, from: nat, to: nat)
    requires from <= to <= |edges|
  {
    exists i :: from <= i < to && Met(db, edges[i])
  }

  /** Every group of alternatives has one that is met. */
  ghost predicate AllMet(db: Db, edges: seq<Edge>)
    requires Formed(edges)
    decreases |edges|
  {
    if edges == [] then true
    else if IsOr(edges[0]) then
      var n := edges[0].version;
      OneMet(db, edges, 1, n + 1) && AllMet(db, edges[n + 1..])
    else (IsDep(edges[0]) ==> Met(db, edges[0])) && AllMet(db, edges[1..])
  }

  /** The dependencies of every package that is wanted are met. */
  ghost predicate Consistent(db: Db)
    requires DbOk(db)
  {
    forall x ::
      0 <= x < PACKAGE_HASH_PRIME && db.pkgs[x].Package? && Satisfies(db, NameAt(db, db.pkgs[x].name), Depends) ==>
      AllMet(db, db.pkgs[x].edges)
  }
}
