/** Lines of a byte sequence: split, joined, counted and skipped. */
module Lines {
  import opened Arith

  const NEWLINE: Byte := 10

  /** The length of the first line, its newline included; a last line may lack one. */
  function FirstLine(s: seq<Byte>): (n: nat)
    requires s != []
    ensures 1 <= n <= |s|
  {
    if s[0] == NEWLINE || |s| == 1 then 1 else 1 + FirstLine(s[1..])
  }

  function Split(s: seq<Byte>): (ls: seq<seq<Byte>>)
    decreases |s|
  {
    if s == [] then [] else [s[..FirstLine(s)]] + Split(s[FirstLine(s)..])
  }

  function Join(ls: seq<seq<Byte>>): (s: seq<Byte>) {
    if ls == [] then [] else ls[0] + Join(ls[1..])
  }

  /** The last `n` lines. */
  function LastLines(s: seq<Byte>, n: nat): (r: seq<Byte>) {
    var ls := Split(s);
    Join(if |ls| <= n then ls else ls[|ls| - n..])
  }

  /** Everything from line `n` on, counted from one. */
  function FromLine(s: seq<Byte>, n: nat): (r: seq<Byte>) {
    var ls := Split(s);
    Join(if n <= 1 then ls else if |ls| < n then [] else ls[n - 1..])
  }

  /** Splitting loses nothing. */
  lemma {:induction false} SplitJoins(s: seq<Byte>)
    ensures Join(Split(s)) == s
    decreases |s|
  {
    hide FirstLine;
    if s != [] {
      SplitJoins(s[FirstLine(s)..]);
      SplitHead(s);
    }
  }

  lemma SplitHead(s: seq<Byte>)
    requires s != []
    ensures Split(s) != [] && Split(s)[0] == s[..FirstLine(s)] && Split(s)[1..] == Split(s[FirstLine(s)..])
  {
    hide FirstLine;
  }

  /** Only the last line may lack its newline. */
  lemma {:induction false} SplitLines(s: seq<Byte>, i: nat)
    requires i < |Split(s)|
    ensures IsLine(Split(s)[i], i == |Split(s)| - 1)
    decreases |s|
  {
    hide FirstLine, IsLine;
    var rest := s[FirstLine(s)..];
    SplitHead(s);
    OneLine(s);
    if i > 0 { SplitLines(rest, i - 1); }
  }

  /** A newline ends a line and is nowhere else in it. */
  predicate IsLine(l: seq<Byte>, last: bool) {
    && l != []
    && (forall i :: 0 <= i < |l| - 1 ==> l[i] != NEWLINE)
    && (l[|l| - 1] == NEWLINE || last)
  }

  lemma {:induction false} OneLine(s: seq<Byte>)
    requires s != []
    ensures IsLine(s[..FirstLine(s)], FirstLine(s) == |s|)
  {
    if s[0] != NEWLINE && |s| > 1 {
      OneLine(s[1..]);
      var l, m := s[..FirstLine(s)], s[1..][..FirstLine(s[1..])];
      assert l == [s[0]] + m;
    }
  }

  // ----- counting and skipping newlines -----

  function Newlines(s: seq<Byte>): (n: nat)
    ensures n <= |s|
  {
    if s == [] then 0 else (if s[0] == NEWLINE then 1 else 0) + Newlines(s[1..])
  }

  /** What is left after the first `k` newlines. */
  function Skip(s: seq<Byte>, k: nat): (r: seq<Byte>)
    ensures |r| <= |s|
  {
    if k == 0 || s == [] then s else Skip(s[1..], if s[0] == NEWLINE then k - 1 else k)
  }

  /** An unterminated end. */
  function Extra(s: seq<Byte>): (e: nat) {
    if s != [] && s[|s| - 1] != NEWLINE then 1 else 0
  }

  lemma {:induction false} NewlinesAppend(a: seq<Byte>, b: seq<Byte>)
    ensures Newlines(a + b) == Newlines(a) + Newlines(b)
  {
    if a == [] {
      assert a + b == b;
    } else {
      assert (a + b)[1..] == a[1..] + b;
      NewlinesAppend(a[1..], b);
    }
  }

  lemma {:induction false} SkipAppend(a: seq<Byte>, b: seq<Byte>, k: nat)
    ensures Skip(a + b, k) == if k <= Newlines(a) then Skip(a, k) + b else Skip(b, k - Newlines(a))
  {
    if a == [] {
      assert a + b == b;
    } else if k > 0 {
      assert (a + b)[1..] == a[1..] + b;
      SkipAppend(a[1..], b, if a[0] == NEWLINE then k - 1 else k);
    }
  }

  lemma {:induction false} SkipAll(s: seq<Byte>, k: nat)
    requires k > Newlines(s)
    ensures Skip(s, k) == []
  {
    if s != [] { SkipAll(s[1..], if s[0] == NEWLINE then k - 1 else k); }
  }

  lemma {:induction false} SkipTwice(s: seq<Byte>, j: nat, k: nat)
    ensures Skip(Skip(s, j), k) == Skip(s, j + k)
  {
    if j > 0 && s != [] { SkipTwice(s[1..], if s[0] == NEWLINE then j - 1 else j, k); }
  }

  /** Skipping takes away what it skips, and keeps the end. */
  lemma {:induction false} SkipCounts(s: seq<Byte>, k: nat)
    requires k <= Newlines(s)
    ensures Newlines(Skip(s, k)) == Newlines(s) - k
    ensures Extra(Skip(s, k)) == Extra(s)
  {
    if k > 0 {
      SkipCounts(s[1..], if s[0] == NEWLINE then k - 1 else k);
      assert s[1..] != [] ==> s[1..][|s| - 2] == s[|s| - 1];
    }
  }

  // ----- both views agree -----

  /** A first line: its newline is the first. */
  lemma {:induction false} FirstSkips(s: seq<Byte>)
    requires s != []
    ensures Skip(s, 1) == s[FirstLine(s)..]
    ensures FirstLine(s) < |s| ==> Newlines(s) >= 1
    ensures Newlines(s) + Extra(s) == 1 + Newlines(s[FirstLine(s)..]) + Extra(s[FirstLine(s)..])
  {
    if s[0] == NEWLINE || |s| == 1 {
    } else {
      FirstSkips(s[1..]);
      assert s[1..][FirstLine(s[1..])..] == s[FirstLine(s)..];
      assert s[1..][|s| - 2] == s[|s| - 1];
    }
  }

  lemma {:induction false} SplitCounts(s: seq<Byte>)
    ensures |Split(s)| == Newlines(s) + Extra(s)
    decreases |s|
  {
    if s != [] {
      FirstSkips(s);
      SplitCounts(s[FirstLine(s)..]);
    }
  }

  lemma {:induction false} SplitSkips(s: seq<Byte>, k: nat)
    ensures Skip(s, k) == Join(if k <= |Split(s)| then Split(s)[k..] else [])
    decreases k
  {
    hide FirstLine, Join, Split;
    if k == 0 {
      SplitJoins(s);
      assert Split(s)[0..] == Split(s);
    } else if s == [] {
      NoLines();
    } else {
      var rest := s[FirstLine(s)..];
      FirstSkips(s);
      SkipTwice(s, 1, k - 1);
      SplitSkips(rest, k - 1);
      SplitHead(s);
      if k <= |Split(s)| { assert Split(s)[k..] == Split(s)[1..][k - 1..]; }
    }
  }

  lemma NoLines()
    ensures Split([]) == [] && Join([]) == []
  {
  }

  lemma LastLinesSkip(s: seq<Byte>, n: nat)
    ensures var l := Newlines(s) + Extra(s); LastLines(s, n) == Skip(s, if l <= n then 0 else l - n)
  {
    hide Split, Newlines, Skip, Join;
    SplitCounts(s);
    SplitSkips(s, if |Split(s)| <= n then 0 else |Split(s)| - n);
  }

  lemma FromLineSkip(s: seq<Byte>, n: nat)
    ensures FromLine(s, n) == Skip(s, if n == 0 then 0 else n - 1)
  {
    hide Split, Newlines, Skip, Join;
    SplitSkips(s, if n == 0 then 0 else n - 1);
    if |Split(s)| == n - 1 { assert Split(s)[n - 1..] == []; }
  }

  /** The last lines of a longer text are among its end: all that came before may be forgotten. */
  lemma LastLinesAppend(a: seq<Byte>, b: seq<Byte>, n: nat)
    requires n > 0
    ensures LastLines(a + b, n) == LastLines(LastLines(a, n) + b, n)
  {
    hide LastLines, Newlines, Skip, Extra;
    var l := Newlines(a) + Extra(a);
    LastLinesSkip(a, n);
    if l > n {
      var k, d := l - n, LastLines(a, n);
      ExtraOne(a);
      SkipAppend(a, b, k);
      SkipCounts(a, k);
      LastLinesSkip(a + b, n);
      LastLinesSkip(d + b, n);
      LineCount(a, b);
      LineCount(d, b);
      NewlinesAppend(a, b);
      NewlinesAppend(d, b);
      ExtraEnd(a, b);
      ExtraEnd(d, b);
      SkipTwice(a + b, k, Newlines(d + b) + Extra(d + b) - n);
    } else {
      SkipNone(a);
    }
  }

  lemma SkipNone(a: seq<Byte>)
    ensures Skip(a, 0) == a
  {
  }

  lemma ExtraOne(a: seq<Byte>)
    ensures Extra(a) <= 1
  {
  }

  lemma ExtraEnd(a: seq<Byte>, b: seq<Byte>)
    ensures Extra(a + b) == if b == [] then Extra(a) else Extra(b)
  {
    if b == [] { assert a + b == a; }
  }

  lemma LineCount(a: seq<Byte>, b: seq<Byte>)
    ensures Newlines(a + b) + Extra(a + b) >= Newlines(a) + Extra(a)
  {
    NewlinesAppend(a, b);
    ExtraEnd(a, b);
    if b != [] { SomeLine(b); }
  }

  lemma {:induction false} SomeLine(b: seq<Byte>)
    requires b != []
    ensures Newlines(b) + Extra(b) >= 1
  {
    if |b| > 1 {
      assert b[1..][|b| - 2] == b[|b| - 1];
      SomeLine(b[1..]);
    }
  }

  /** The byte 10 ends a line: two lines, and what becomes of them. */
  lemma TwoLines(a: seq<Byte>, b: seq<Byte>)
    requires (forall i :: 0 <= i < |a| ==> a[i] != 10) && (forall i :: 0 <= i < |b| ==> b[i] != 10) && b != []
    ensures Split(a + [10] + b) == [a + [10], b]
    ensures LastLines(a + [10] + b, 1) == b && FromLine(a + [10] + b, 2) == b
  {
    hide Split;
    TwoSplit(a, b);
    assert [a + [10], b][1..] == [b];
    assert Join([]) == [] && [b][1..] == [] && Join([b]) == b;
  }

  lemma TwoSplit(a: seq<Byte>, b: seq<Byte>)
    requires (forall i :: 0 <= i < |a| ==> a[i] != 10) && (forall i :: 0 <= i < |b| ==> b[i] != 10) && b != []
    ensures Split(a + [10] + b) == [a + [10], b]
  {
    hide FirstLine, Split;
    var s := a + [10] + b;
    FirstIs(a, b);
    LastIs(b);
    SplitHead(s);
    SplitHead(b);
    assert s[..|a| + 1] == a + [10] && s[|a| + 1..] == b;
    assert b[..|b|] == b && b[|b|..] == [];
    NoLines();
    assert Split(b) == [Split(b)[0]] + Split(b)[1..] && Split(s) == [Split(s)[0]] + Split(s)[1..];
  }

  lemma {:induction false} FirstIs(a: seq<Byte>, rest: seq<Byte>)
    requires forall i :: 0 <= i < |a| ==> a[i] != 10
    ensures FirstLine(a + [10] + rest) == |a| + 1
    decreases |a|
  {
    var s := a + [10] + rest;
    if a != [] {
      assert s[1..] == a[1..] + [10] + rest;
      FirstIs(a[1..], rest);
    }
  }

  lemma {:induction false} LastIs(b: seq<Byte>)
    requires b != [] && forall i :: 0 <= i < |b| ==> b[i] != 10
    ensures FirstLine(b) == |b|
    decreases |b|
  {
    if |b| > 1 { LastIs(b[1..]); }
  }
}
