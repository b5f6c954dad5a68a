/** What the parts of a version are and in which order they decide, in terms of its text. */
module VersionLaws {
  import opened Version
  import E = ExprValue

  /** A number as text. */
  function Text(n: nat): (s: string)
    ensures s != "" && AllDigits(s)
  {
    E.Digits(n)
  }

  lemma {:induction false} SameValue(s: string)
    requires AllDigits(s)
    ensures E.AllDigits(s) && Value(s) == E.Value10(s)
    decreases |s|
  {
    if s != "" { SameValue(s[..|s| - 1]); }
  }

  lemma TextValue(n: nat)
    ensures Value(Text(n)) == n
  {
    E.DigitsValue(n);
    SameValue(Text(n));
  }

  // ----- the parts -----

  lemma FindLastAt(a: string, b: string, c: char)
    requires c !in b
    ensures FindLast(a + [c] + b, c) == |a|
  {
    hide FindLast;
    var s := a + [c] + b;
    forall k: nat | |a| < k < |s| ensures s[k] != c { PastCharacter(a, b, c, k); }
    LastIsThere(s, c, |a|);
  }

  lemma PastCharacter(a: string, b: string, c: char, k: nat)
    requires c !in b && |a| < k < |a + [c] + b|
    ensures (a + [c] + b)[k] != c
  {
    assert (a + [c] + b)[k] == b[k - |a + [c]|];
  }

  lemma LastIsThere(s: string, c: char, p: nat)
    requires p < |s| && s[p] == c && forall k :: p < k < |s| ==> s[k] != c
    ensures FindLast(s, c) == p
  {
    hide FindLast;
  }

  lemma FindLastNone(a: string, c: char)
    requires c !in a
    ensures FindLast(a, c) == |a|
  {
  }

  lemma DigitsBefore(ds: string, rest: string)
    requires AllDigits(ds) && rest != "" && !IsDigit(rest[0])
    ensures Digits(ds + rest) == |ds|
  {
    var s := ds + rest;
    DigitsIs(s, |ds|, 0, ds);
  }

  lemma EpochText(e: nat, rest: string)
    ensures Atoi(Text(e) + ":" + rest) == e
  {
    hide Value;
    var s := Text(e) + (":" + rest);
    assert Text(e) + ":" + rest == s;
    DigitsBefore(Text(e), ":" + rest);
    assert s[0] == Text(e)[0] && IsDigit(s[0]);
    assert s[..|Text(e)|] == Text(e);
    TextValue(e);
  }

  lemma NoColon(e: nat)
    ensures ':' !in Text(e)
  {
    var s := Text(e);
    forall k | 0 <= k < |s| ensures s[k] != ':' { assert IsDigit(s[k]); }
  }

  /** What follows the epoch. */
  function Tail(u: string, r: string): (s: string) { u + ['-'] + r }

  lemma SplitEpoch(e: nat, rest: string)
    requires e < 0x1_0000_0000
    ensures Split(Text(e) + ":" + rest) == Behind(e, rest)
  {
    hide Split, Behind, Find, Atoi;
    var s := Text(e) + ":" + rest;
    NoColon(e);
    assert s == Text(e) + (":" + rest);
    FindAt(Text(e), ":" + rest, ':');
    EpochText(e, rest);
    assert s[|Text(e)| + 1..] == rest;
    SplitAt(s, e, |Text(e)|, rest);
  }

  lemma SplitAt(s: string, e: nat, colon: nat, rest: string)
    requires Find(s, ':') == colon < |s| && Atoi(s) == e < 0x1_0000_0000 && s[colon + 1..] == rest
    ensures Split(s) == Behind(e, rest)
  {
    hide Behind, Find, Atoi;
  }

  /** The three parts of a version are read back: the epoch is before the first colon, the revision
      behind the last hyphen. */
  lemma SplitFull(e: nat, u: string, r: string)
    requires e < 0x1_0000_0000 && '-' !in r
    ensures Split(Text(e) + ":" + Tail(u, r)) == Parts(e, u, r)
  {
    hide Split, FindLast;
    SplitEpoch(e, Tail(u, r));
    FindLastAt(u, r, '-');
    assert Tail(u, r)[..|u|] == u && Tail(u, r)[|u| + 1..] == r;
  }

  lemma SplitNoRevision(e: nat, u: string)
    requires e < 0x1_0000_0000 && '-' !in u
    ensures Split(Text(e) + ":" + u) == Parts(e, u, "")
  {
    hide Split, FindLast;
    SplitEpoch(e, u);
    FindLastNone(u, '-');
    assert u[..|u|] == u;
  }

  lemma SplitNoEpoch(u: string, r: string)
    requires ':' !in u && ':' !in r && '-' !in r
    ensures Split(Tail(u, r)) == Parts(0, u, r)
  {
    hide FindLast, Atoi;
    var s := Tail(u, r);
    FindAt(s, "", ':');
    assert s + "" == s;
    FindLastAt(u, r, '-');
    assert s[..|u|] == u && s[|u| + 1..] == r;
  }

  lemma SplitPlain(u: string)
    requires ':' !in u && '-' !in u
    ensures Split(u) == Parts(0, u, "")
  {
    hide FindLast, Atoi;
    FindAt(u, "", ':');
    assert u + "" == u;
    FindLastNone(u, '-');
    assert u[..|u|] == u;
  }

  // ----- what decides -----

  /** Different epochs decide, whatever follows. */
  lemma EpochDecides(e: nat, f: nat, x: string, y: string)
    requires e < f < 0x1_0000_0000
    ensures CompareVersions(Text(e) + ":" + x, Text(f) + ":" + y) == -1
  {
    hide Split;
    SplitEpoch(e, x);
    SplitEpoch(f, y);
  }

  /** With equal epochs different upstream versions decide, whatever the revisions; and only then do
      the revisions. */
  lemma UpstreamDecides(e: nat, u: string, r: string, v: string, s: string)
    requires e < 0x1_0000_0000 && '-' !in r && '-' !in s
    ensures var up := Compare(Key(u), Key(v));
            CompareVersions(Text(e) + ":" + Tail(u, r), Text(e) + ":" + Tail(v, s))
            == if up != 0 then up else Compare(Key(r), Key(s))
  {
    hide Split, Compare, Key;
    SplitFull(e, u, r);
    SplitFull(e, v, s);
  }

  lemma PlainDecides(u: string, r: string, v: string, s: string)
    requires ':' !in u && ':' !in r && '-' !in r && ':' !in v && ':' !in s && '-' !in s
    ensures var up := Compare(Key(u), Key(v));
            CompareVersions(Tail(u, r), Tail(v, s)) == if up != 0 then up else Compare(Key(r), Key(s))
  {
    hide Split, Compare, Key;
    SplitNoEpoch(u, r);
    SplitNoEpoch(v, s);
  }

  lemma ShortDecides(u: string, v: string)
    requires ':' !in u && '-' !in u && ':' !in v && '-' !in v
    ensures CompareVersions(u, v) == Compare(Key(u), Key(v))
  {
    hide Split, Compare, Key;
    SplitPlain(u);
    SplitPlain(v);
    CompareSame(Key(""));
  }

  // ----- what comes first in a part -----

  lemma TextKey(n: nat)
    ensures Key(Text(n)) == [0, n]
  {
    hide Value;
    var s := Text(n);
    DigitsIs(s, |s|, 0, s);
    TextValue(n);
    assert s[..|s|] == s;
    KeyNumber(s);
    assert NumberKey(s) == [n];
  }

  /** Numbers are compared by their value. */
  lemma NumbersByValue(m: nat, n: nat)
    ensures CompareVersions(Text(m), Text(n)) == Sign(m - n)
  {
    hide Compare, Key, CompareVersions;
    NoColon(m);
    NoColon(n);
    NoHyphen(m);
    NoHyphen(n);
    ShortDecides(Text(m), Text(n));
    TextKey(m);
    TextKey(n);
    PairsCompare(m, n);
  }

  lemma PairsCompare(m: nat, n: nat)
    ensures Compare([0, m], [0, n]) == Sign(m - n)
  {
    assert [0, m] == [0] + ([m] + []) && [0, n] == [0] + ([n] + []);
    CompareHeads([m] + [], [n] + [], 0, 0);
    CompareHeads([], [], m, n);
  }

  lemma NoHyphen(e: nat)
    ensures '-' !in Text(e)
  {
    var s := Text(e);
    forall k | 0 <= k < |s| ensures s[k] != '-' { assert IsDigit(s[k]); }
  }

  /** An equal beginning does not matter, if no number goes on behind it. */
  lemma {:induction false} PrefixPassed(p: string, s: string, t: string)
    requires s != "" && !IsDigit(s[0]) && t != "" && !IsDigit(t[0])
    ensures Compare(Key(p + s), Key(p + t)) == Compare(Key(s), Key(t))
    decreases |p|
  {
    hide Compare, Value, Digits, Key;
    if p == "" {
      assert p + s == s && p + t == t;
    } else if !IsDigit(p[0]) {
      KeyCons(p + s);
      KeyCons(p + t);
      assert (p + s)[1..] == p[1..] + s && (p + t)[1..] == p[1..] + t;
      CompareHeads(Key(p[1..] + s), Key(p[1..] + t), Order(p[0]), Order(p[0]));
      PrefixPassed(p[1..], s, t);
    } else {
      var n := Digits(p);
      NumberPassed(p, s);
      NumberPassed(p, t);
      KeyNumber(p + s);
      KeyNumber(p + t);
      CompareHeads(NumberKey(p + s), NumberKey(p + t), 0, 0);
      CompareHeads(Key(p[n..] + s), Key(p[n..] + t), Value(p[..n]), Value(p[..n]));
      PrefixPassed(p[n..], s, t);
    }
  }

  lemma NumberPassed(p: string, s: string)
    requires p != "" && IsDigit(p[0]) && s != "" && !IsDigit(s[0])
    ensures Digits(p) >= 1 && NumberKey(p + s) == [Value(p[..Digits(p)])] + Key(p[Digits(p)..] + s)
  {
    hide Value, Key;
    var q, n := p + s, Digits(p);
    DigitsIs(q, n, 0, p[..n]);
    assert q[..n] == p[..n] && q[n..] == p[n..] + s;
  }

  /** Where a character comes: the tilde, then letters, then all others, each by its code. */
  predicate Sooner(c: char, d: char) {
    || (c == '~' && d != '~')
    || (c != '~' && d != '~' && IsAlpha(c) && !IsAlpha(d))
    || (c != '~' && d != '~' && IsAlpha(c) == IsAlpha(d) && c < d)
  }

  /** Behind an equal beginning the characters decide. */
  lemma CharactersDecide(p: string, c: char, x: string, d: char, y: string)
    requires !IsDigit(c) && c != '\0' && !IsDigit(d) && d != '\0' && Sooner(c, d)
    ensures Compare(Key(p + ([c] + x)), Key(p + ([d] + y))) == -1
  {
    hide Compare, Key;
    PrefixPassed(p, [c] + x, [d] + y);
    KeyCons([c] + x);
    KeyCons([d] + y);
    assert ([c] + x)[1..] == x && ([d] + y)[1..] == y;
    CompareHeads(Key(x), Key(y), Order(c), Order(d));
  }

  /** What has ended comes before what goes on, unless that is a tilde. */
  lemma {:induction false} EndFirst(p: string, c: char, x: string)
    requires !IsDigit(c) && c != '\0' && c != '~'
    ensures Compare(Key(p), Key(p + ([c] + x))) == -1
    decreases |p|
  {
    hide Compare, Value, Digits, Key;
    var s := [c] + x;
    if p == "" {
      assert p + s == s && s[1..] == x;
      KeyCons(s);
      KeyNumber(p);
      CompareHeads(NumberKey(p), Key(x), 0, Order(c));
    } else if !IsDigit(p[0]) {
      KeyCons(p + s);
      KeyCons(p);
      assert (p + s)[1..] == p[1..] + s;
      CompareHeads(Key(p[1..]), Key(p[1..] + s), Order(p[0]), Order(p[0]));
      EndFirst(p[1..], c, x);
    } else {
      var n := Digits(p);
      NumberPassed(p, s);
      NumberEnds(p);
      KeyNumber(p + s);
      KeyNumber(p);
      CompareHeads(NumberKey(p), NumberKey(p + s), 0, 0);
      CompareHeads(Rest(p, n), Key(p[n..] + s), Value(p[..n]), Value(p[..n]));
      if n == |p| {
        assert p[n..] + s == s && s[1..] == x;
        KeyCons(s);
        NothingFirst(Order(c), Key(x));
      } else {
        EndFirst(p[n..], c, x);
      }
    }
  }

  lemma NumberEnds(p: string)
    requires p != "" && IsDigit(p[0])
    ensures Digits(p) >= 1 && NumberKey(p) == [Value(p[..Digits(p)])] + Rest(p, Digits(p))
  {
    hide Value, Key;
  }

  lemma NothingFirst(o: int, k: seq<int>)
    requires o > 0
    ensures Compare([], [o] + k) == -1
  {
  }

  /** A version with a tilde behind it is older. */
  lemma TildeOlder(p: string, x: string)
    requires ':' !in p && '-' !in p && ':' !in x && '-' !in x
    ensures CompareVersions(p + "~" + x, p) == -1
  {
    hide Compare, Key, CompareVersions;
    TildeFirst(p, x);
    assert ':' !in p + "~" + x && '-' !in p + "~" + x by {
      var s := p + "~" + x;
      assert forall k :: 0 <= k < |s| ==> s[k] in p || s[k] == '~' || s[k] in x;
    }
    ShortDecides(p + "~" + x, p);
  }
}
