/** `lzo1x_optimize`: decoding a stream while rewriting it in place. */
module LzoOptimize {
  import opened Arith
  import opened Lzo
  import opened LzoRewrite
  import opened LzoState
  import opened Tokens

  datatype Status = Ok | InputNotConsumed

  // ----- copying -----

  lemma AddedTwo(o: seq<Byte>, dist: nat)
    requires 1 <= dist <= |o|
    ensures var m := |o| - dist; Added(o, 2, dist) == [o[m], if dist == 1 then o[m] else o[m + 1]]
  {
    var x := o[|o| - dist];
    var o1 := o + [x];
    var y := o1[|o1| - dist];
    assert Copy(o1 + [y], 0, dist) == o1 + [y];
    assert Copy(o1, 1, dist) == o1 + [y];
    assert Copy(o, 2, dist) == o1 + [y];
  }

  lemma AddedThree(o: seq<Byte>, dist: nat)
    requires 1 <= dist <= |o|
    ensures var m := |o| - dist; var two := Added(o, 2, dist);
            Added(o, 3, dist) == two + [if dist <= 2 then o[m] else o[m + 2]]
  {
    var x := o[|o| - dist];
    var o1 := o + [x];
    var y := o1[|o1| - dist];
    var o2 := o1 + [y];
    var z := o2[|o2| - dist];
    assert Copy(o2 + [z], 0, dist) == o2 + [z];
    assert Copy(o2, 1, dist) == o2 + [z];
    assert Copy(o1, 2, dist) == o2 + [z];
    assert Copy(o, 3, dist) == o2 + [z];
    assert Copy(o2, 0, dist) == o2 && Copy(o1, 1, dist) == o2 && Copy(o, 2, dist) == o2;
  }

  /** `copy2` and `copy3`: what a match adds, before it is in the text. */
  method CopyOver(inn: array<Byte>, at: nat, out: array<Byte>, op: nat, dist: nat, len: nat)
    requires inn != out && at + len <= inn.Length && op <= out.Length && 1 <= dist <= op && 2 <= len <= 3
    modifies inn
    ensures SameOutside(old(inn[..]), inn[..], at, at + len) && inn[at .. at + len] == Added(out[..op], len, dist)
  {
    hide Copy;
    ghost var was, o := inn[..], out[..op];
    AddedTwo(o, dist);
    var m := op - dist;
    inn[at] := out[m];
    inn[at + 1] := if dist == 1 then out[m] else out[m + 1];
    if len == 3 {
      AddedThree(o, dist);
      inn[at + 2] := if dist <= 2 then out[m] else out[m + 2];
    }
  }

  /** A match goes to the text, byte by byte. */
  method CopyMatchOut(out: array<Byte>, op0: nat, dist: nat, len: nat) returns (op: nat)
    requires 1 <= dist <= op0 && op0 + len <= out.Length
    modifies out
    ensures op == op0 + len && out[..op] == Copy(old(out[..op0]), len, dist)
  {
    op := op0;
    var m, left := op - dist, len;
    while left > 0
      invariant 0 <= left <= len && op == op0 + (len - left) && m == op - dist
      invariant Copy(out[..op], left, dist) == Copy(old(out[..op0]), len, dist)
    {
      ghost var o := out[..op];
      out[op] := out[m];
      assert out[..op + 1] == o + [o[|o| - dist]];
      op, m, left := op + 1, m + 1, left - 1;
    }
  }

  /** Literals go to the text. */
  method CopyLits(inn: array<Byte>, ip0: nat, out: array<Byte>, op0: nat, n: nat) returns (ip: nat, op: nat)
    requires inn != out && ip0 + n <= inn.Length && op0 + n <= out.Length
    modifies out
    ensures ip == ip0 + n && op == op0 + n && out[..op] == old(out[..op0]) + inn[ip0 .. ip0 + n]
  {
    ip, op := ip0, op0;
    var left := n;
    while left > 0
      invariant 0 <= left <= n && ip == ip0 + (n - left) && op == op0 + (n - left)
      invariant out[..op] == old(out[..op0]) + inn[ip0 .. ip]
    {
      out[op] := inn[ip];
      assert inn[ip0 .. ip + 1] == inn[ip0 .. ip] + [inn[ip]];
      ip, op, left := ip + 1, op + 1, left - 1;
    }
  }

  /** A length that goes on in further bytes. */
  method MoreLength(inn: array<Byte>, ip0: nat, most: nat) returns (t: nat, ip: nat)
    requires Extended(inn[..], ip0, most).Length?
    ensures Extended(inn[..], ip0, most) == Length(t, ip)
  {
    t, ip := most, ip0;
    while inn[ip] == 0
      invariant ip < inn.Length && Extended(inn[..], ip, t) == Extended(inn[..], ip0, most)
                && Extended(inn[..], ip, t).Length?
      decreases inn.Length - ip
    {
      t, ip := t + 255, ip + 1;
    }
    t, ip := t + inn[ip] as int, ip + 1;
  }

  /** The header of a match that is not a short one. */
  method MatchHeader(inn: array<Byte>, ip: nat, ghost st: nat) returns (stop: bool, t: nat, dist: nat, next: nat)
    requires ip < inn.Length && inn[ip] >= 16 && !Parse(inn[..], ip, st).Invalid?
    ensures next <= inn.Length && (if stop then Parse(inn[..], ip, st) == Stop(next)
            else next >= 2 && Parse(inn[..], ip, st) == Mat(next, t + 2, dist, inn[next - 2] % 4))
  {
    hide Extended;
    stop := false;
    var op := inn[ip] as int;
    if op >= 64 {
      t, next := op / 32 - 1, ip + 2;
      dist := 1 + op / 4 % 8 + 8 * (inn[ip + 1] as int);
    } else {
      var far := 0;
      if op >= 32 {
        t, next := op % 32, ip + 1;
        if t == 0 { t, next := MoreLength(inn, ip + 1, 31); }
        dist := 1;
      } else {
        t, next := op % 8, ip + 1;
        if t == 0 { t, next := MoreLength(inn, ip + 1, 7); }
        dist := op / 8 % 2 * 0x4000;
      }
      dist := dist + inn[next] as int / 4 + 64 * (inn[next + 1] as int);
      next := next + 2;
      if op < 32 {
        if dist == 0 { stop := true; } else { dist := dist + 0x4000; }
      }
    }
  }

  lemma {:induction false} OutGrows(a: seq<Byte>, c: Cfg)
    requires DecodeFrom(a, c).Done?
    ensures c.out <= DecodeFrom(a, c).out
    decreases |a| - c.ip
  {
    hide Parse, Copy;
    if Step(a, c).Next? {
      OutGrows(a, Step(a, c).c);
    }
  }

  /** What the next instruction adds fits into the output. */
  lemma Fits(a: seq<Byte>, n: nat, c: Cfg, merged: bool, litp: int, lit: nat, final: Outcome)
    requires Reached(a, n, c, merged, litp, lit, final)
    ensures |c.out| <= |final.out| && (Step(a, c).Next? ==> |Step(a, c).c.out| <= |final.out|)
  {
    hide Parse, Step, After;
    OutGrows(a, c);
    if Step(a, c).Next? { OutGrows(a, Step(a, c).c); }
  }

  class Optimizer {
    const inn: array<Byte>
    const out: array<Byte>
    var ip: nat
    var op: nat
    /** Where the count of the literals before `ip` is kept; negative if that is not known. */
    var litp: int
    var lit: nat
    /** How many literals the last instruction had; 4 after a literal run. */
    var st: nat
    ghost var n: nat
    ghost var merged: bool
    ghost var final: Outcome

    ghost predicate Valid()
      reads this, inn, out
    {
      && inn != out && op <= out.Length
      && Reached(inn[..], n, Cfg(ip, st, out[..op]), merged, litp, lit, final) && |final.out| <= out.Length
    }

    constructor (stream: array<Byte>, text: array<Byte>)
      ensures inn == stream && out == text && ip == op == lit == st == n == 0 && litp == -1 && !merged
    {
      inn, out := stream, text;
      ip, op, litp, lit, st, n, merged, final := 0, 0, -1, 0, 0, 0, false, Broken;
    }

    /** A literal run. */
    method LiteralRun()
      requires Valid() && ip < inn.Length && st == 0 && inn[ip] < 16
      modifies this`ip, this`op, this`litp, this`lit, this`st, this`n, this`merged, out
      ensures Valid() && final == old(final) && ip > old(ip)
    {
      hide Reached, Copy, Extended, Parse;
      ghost var a, c := inn[..], Cfg(ip, st, out[..op]);
      NotOver(a, n, c, merged, litp, lit, final);
      Fits(a, n, c, merged, litp, lit, final);
      ReachedStep(a, n, c, merged, litp, lit, final);
      RunParse(a, c);
      var t := inn[ip] as int;
      litp, ip := ip, ip + 1;
      if t == 0 { t, ip := MoreLength(inn, ip, 15); }
      lit := t + 3;
      ip, op := CopyLits(inn, ip, out, op, lit);
      st, n, merged := 4, n + 1, false;
    }

    /** A match as it stands, and its literals. */
    method Plain(next: nat, len: nat, dist: nat)
      requires Valid() && 2 <= next <= inn.Length && Parse(inn[..], ip, st) == Mat(next, len, dist, inn[next - 2] % 4)
      modifies this`ip, this`op, this`litp, this`lit, this`st, this`n, this`merged, out
      ensures Valid() && final == old(final) && ip > old(ip)
    {
      hide Reached, Copy, Parse;
      ghost var a, c := inn[..], Cfg(ip, st, out[..op]);
      NotOver(a, n, c, merged, litp, lit, final);
      Fits(a, n, c, merged, litp, lit, final);
      ReachedStep(a, n, c, merged, litp, lit, final);
      var t := inn[next - 2] as int % 4;
      lit, litp, n, merged := t, next - 2, n + 1, false;
      assert a[next .. next + t] == inn[next .. next + t];
      Emit(next, len, dist, t, t, Step(a, c).c);
    }

    /** The match becomes literals of the instruction before (`o_m1_a` and `o_m3_a`). */
    method JoinToPrevious(len: nat, dist: nat)
      requires Valid() && litp >= 0 && 2 <= len <= 3 && lit + len == 3 && ip + len < inn.Length && inn[ip + len] >= 16
      requires Parse(inn[..], ip, st) == Mat(ip + len, len, dist, 0)
      modifies this`ip, this`op, this`lit, this`st, this`merged, out, inn
      ensures Valid() && final == old(final) && ip > old(ip)
    {
      hide Reached, Copy, Parse;
      ghost var a, c := inn[..], Cfg(ip, st, out[..op]);
      NotOver(a, n, c, merged, litp, lit, final);
      Fits(a, n, c, merged, litp, lit, final);
      HolderBounds(a, n, c, merged, litp, lit, final);
      inn[litp] := LowBits(inn[litp], 3);
      CopyOver(inn, ip, out, op, dist, len);
      BeforeBytes(a, inn[..], litp, ip, len);
      ReachedBefore(a, inn[..], n, c, merged, litp, lit, final, len, dist);
      op := CopyMatchOut(out, op, dist, len);
      ip, lit, st, merged := ip + len, 3, 0, true;
    }

    /** The literals before, the match and the run behind become one run (`o_m1_b` and `o_m3_b`). */
    method JoinToNext(len: nat, dist: nat)
      requires Valid() && litp >= 0 && 2 <= len <= 3 && lit <= 3 && ip + len < inn.Length
      requires 1 <= inn[ip + len] && lit + len + inn[ip + len] as int < 16
      requires Parse(inn[..], ip, st) == Mat(ip + len, len, dist, 0)
      modifies this`ip, this`op, this`litp, this`lit, this`st, this`n, this`merged, out, inn
      ensures Valid() && final == old(final) && ip > old(ip)
    {
      hide Reached, Copy, Parse, NewBytes;
      ghost var a, c := inn[..], Cfg(ip, st, out[..op]);
      NotOver(a, n, c, merged, litp, lit, final);
      HolderBounds(a, n, c, merged, litp, lit, final);
      var t := inn[ip + len] as int;
      WriteRun(inn, out, litp, lit, ip, op, len, dist, t);
      ghost var f := RunReached(a, inn[..], n, c, merged, litp, lit, final, len, dist, t);
      litp, lit, n, merged := litp + 2, lit + len + t + 3, n + 1, false;
      assert inn[..][ip + len + 1 .. ip + len + 1 + t + 3] == inn[ip + len + 1 .. ip + len + 1 + t + 3];
      Emit(ip + len + 1, len, dist, t + 3, 4, f);
    }

    /** Two runs and the match between them become one run (`o_m2`). */
    method JoinTwoRuns(dist: nat)
      requires Valid() && litp >= 0 && lit > 3 && ip + 2 < inn.Length
      requires 1 <= inn[ip + 2] && lit + 3 + inn[ip + 2] as int < 16
      requires Parse(inn[..], ip, st) == Mat(ip + 2, 3, dist, 0)
      modifies this`ip, this`op, this`lit, this`st, this`merged, out, inn
      ensures Valid() && final == old(final) && ip > old(ip)
    {
      hide Reached, Copy, Parse;
      ghost var a, c := inn[..], Cfg(ip, st, out[..op]);
      NotOver(a, n, c, merged, litp, lit, final);
      HolderBounds(a, n, c, merged, litp, lit, final);
      var t := inn[ip + 2] as int;
      CopyOver(inn, ip, out, op, dist, 3);
      ghost var a1 := inn[..];
      inn[litp] := lit + 3 + t;
      ghost var f := RunsReached(a, a1, inn[..], n, c, merged, litp, lit, final, dist, t);
      lit, merged := lit + 3 + t + 3, false;
      assert inn[..][ip + 3 .. ip + 3 + t + 3] == inn[ip + 3 .. ip + 3 + t + 3];
      Emit(ip + 3, 3, dist, t + 3, 4, f);
    }

    /** A match with an opcode below 16. */
    method ShortMatch()
      requires Valid() && ip < inn.Length && st != 0 && inn[ip] < 16
      modifies this`ip, this`op, this`litp, this`lit, this`st, this`n, this`merged, out, inn
      ensures Valid() && final == old(final) && ip > old(ip)
    {
      hide Reached, Copy;
      ghost var a, c := inn[..], Cfg(ip, st, out[..op]);
      NotOver(a, n, c, merged, litp, lit, final);
      var t := inn[ip] as int;
      var dist := 1 + t / 4 + 4 * (inn[ip + 1] as int);
      if st == 4 {
        Plain(ip + 2, 3, 0x800 + dist);
      } else if litp >= 0 && t % 4 == 0 {
        Behind(a, n, c, merged, litp, lit, final);
        if lit == 1 && inn[ip + 2] >= 16 {
          JoinToPrevious(2, dist);
        } else if 1 <= inn[ip + 2] < 16 && lit + 2 + inn[ip + 2] as int < 16 {
          ShortBefore(a, n, c, merged, litp, lit, final);
          JoinToNext(2, dist);
        } else {
          Plain(ip + 2, 2, dist);
        }
      } else {
        Plain(ip + 2, 2, dist);
      }
    }

    /** Any other match, or the end of the stream. */
    method OtherMatch() returns (stop: bool, next: nat)
      requires Valid() && ip < inn.Length && inn[ip] >= 16
      modifies this`ip, this`op, this`litp, this`lit, this`st, this`n, this`merged, out, inn
      ensures Valid() && final == old(final)
      ensures stop ==> final == Done(out[..op], next) && ip == old(ip)
      ensures !stop ==> ip > old(ip)
    {
      hide Reached, Copy, Parse;
      ghost var a, c := inn[..], Cfg(ip, st, out[..op]);
      NotOver(a, n, c, merged, litp, lit, final);
      var t, dist;
      stop, t, dist, next := MatchHeader(inn, ip, st);
      if stop { return; }
      if litp >= 0 && t == 1 && inn[next - 2] % 4 == 0 {
        Behind(a, n, c, merged, litp, lit, final);
        OneMeans(a, ip, st, next, dist);
        var b := inn[next];
        if inn[ip] >= 64 {
          if lit > 3 && 1 <= b < 16 && lit + 3 + b as int < 16 {
            JoinTwoRuns(dist);
          } else {
            Plain(next, t + 2, dist);
          }
        } else if lit == 0 && b >= 16 {
          JoinToPrevious(3, dist);
        } else if lit <= 3 && 1 <= b < 16 && lit + 3 + b as int < 16 {
          JoinToNext(3, dist);
        } else {
          Plain(next, t + 2, dist);
        }
      } else {
        Plain(next, t + 2, dist);
      }
    }

    /** A match, and literals behind it, go to the text; `f` is where that leads. */
    method Emit(e: nat, len: nat, dist: nat, cnt: nat, newSt: nat, ghost f: Cfg)
      requires inn != out && op <= out.Length && 1 <= dist <= op && final.Done? && |final.out| <= out.Length
               && e + cnt <= inn.Length
      requires f == Cfg(e + cnt, newSt, Copy(out[..op], len, dist) + inn[e .. e + cnt])
      requires Reached(inn[..], n, f, merged, litp, lit, final)
      modifies this`ip, this`op, this`st, out
      ensures Valid() && ip == e + cnt
    {
      hide Reached, Copy;
      Fits(inn[..], n, f, merged, litp, lit, final);
      op := CopyMatchOut(out, op, dist, len);
      ip, op := CopyLits(inn, e, out, op, cnt);
      st := newSt;
    }
  }

  /** The bytes of a new run with the opcode `v`: the old literals and what the match adds. */
  ghost predicate NewBytes(a: seq<Byte>, b: seq<Byte>, litp: nat, lit: nat, q: nat, len: nat, v: nat, y: seq<Byte>) {
    && q == litp + 2 + lit && SameOutside(a, b, litp, q + len + 1) && b[litp] == LowBits(a[litp], 0)
       && b[litp + 1] == a[litp + 1]
    && b[litp + 2] == v && b[litp + 3 .. q + 1] == a[litp + 2 .. q] && b[q + 1 .. q + 1 + len] == y
  }

  lemma RunReached(a: seq<Byte>, b: seq<Byte>, n: nat, c: Cfg, merged: bool, litp: nat, lit: nat, final: Outcome,
                   len: nat, dist: nat, t: nat)
    returns (f: Cfg)
    requires Reached(a, n, c, merged, litp, lit, final) && lit <= 3
             && Parse(a, c.ip, c.st) == Mat(c.ip + len, len, dist, 0) && 1 <= dist <= |c.out|
    requires c.ip + len < |a| && t == a[c.ip + len] as int && 1 <= t && lit + len + t < 16
    requires NewBytes(a, b, litp, lit, c.ip, len, lit + len + t, Added(c.out, len, dist))
    ensures var e := c.ip + len + 1;
            && |a| == |b| && e + t + 3 <= |a| && f == Cfg(e + t + 3, 4, Copy(c.out, len, dist) + b[e .. e + t + 3])
            && Reached(b, n + 1, f, false, litp + 2, lit + len + t + 3, final)
  {
    hide Reached, Parse, Copy, LowBits;
    ReachedBoth(a, b, n, c, merged, litp, lit, final, len, dist);
    var e := c.ip + len + 1;
    assert b[e .. e + t + 3] == b[e..][..t + 3] == a[e..][..t + 3] == a[e .. e + t + 3];
    f := Cfg(e + t + 3, 4, Copy(c.out, len, dist) + a[e .. e + t + 3]);
  }

  /** The bytes of a new run: the match before loses its `lit` literals, which move up behind the
      new opcode; then comes what the match adds. */
  method WriteRun(inn: array<Byte>, out: array<Byte>, litp: nat, lit: nat, ip: nat, op: nat, len: nat, dist: nat,
                  t: nat)
    requires inn != out && ip == litp + 2 + lit && ip + len + 1 <= inn.Length && lit + len + t < 256
    requires op <= out.Length && 1 <= dist <= op && 2 <= len <= 3
    modifies inn
    ensures NewBytes(old(inn[..]), inn[..], litp, lit, ip, len, lit + len + t, Added(out[..op], len, dist))
  {
    hide Added, LowBits;
    ghost var a := inn[..];
    inn[litp] := LowBits(inn[litp], 0);
    CopyOver(inn, ip + 1, out, op, dist, len);
    ghost var a2 := inn[..];
    MoveUp(inn, litp + 2, lit);
    ghost var a3 := inn[..];
    inn[litp + 2] := lit + len + t;
    assert inn[litp] == LowBits(a[litp], 0) by {
      SameAt(a[litp := LowBits(a[litp], 0)], a2, ip + 1, ip + 1 + len, litp);
      SameAt(a2, a3, litp + 3, ip + 1, litp);
    }
    JoinedBytes(a, a2, a3, inn[..], litp, lit, ip, len);
  }

  /** `memmove` by one byte. */
  method MoveUp(a: array<Byte>, at: nat, n: nat)
    requires at + n + 1 <= a.Length
    modifies a
    ensures SameOutside(old(a[..]), a[..], at + 1, at + 1 + n) && a[at + 1 .. at + 1 + n] == old(a[at .. at + n])
  {
    var i := n;
    while i > 0
      invariant 0 <= i <= n
      invariant forall j ::
                  0 <= j < a.Length ==> a[j] == if at + 1 + i <= j < at + 1 + n then old(a[j - 1]) else old(a[j])
    {
      i := i - 1;
      a[at + 1 + i] := a[at + i];
    }
  }

  lemma JoinedBytes(a: seq<Byte>, a2: seq<Byte>, a3: seq<Byte>, b: seq<Byte>, litp: nat, lit: nat, q: nat, len: nat)
    requires |a| == |b| && q == litp + 2 + lit && q + len + 1 <= |a| && |a| == |a2|
    requires SameOutside(a[litp := b[litp]], a2, q + 1, q + 1 + len)
    requires SameOutside(a2, a3, litp + 3, q + 1) && a3[litp + 3 .. q + 1] == a2[litp + 2 .. q]
             && b == a3[litp + 2 := b[litp + 2]]
    ensures SameOutside(a, b, litp, q + len + 1) && b[litp + 1] == a[litp + 1]
    ensures b[litp + 3 .. q + 1] == a[litp + 2 .. q] && b[q + 1 .. q + 1 + len] == a2[q + 1 .. q + 1 + len]
  {
    var m := a[litp := b[litp]];
    forall i | 0 <= i < |a| && (i <= q || q + 1 + len <= i)
      ensures a2[i] == m[i]
    {
      SameAt(m, a2, q + 1, q + 1 + len, i);
    }
    forall i | 0 <= i < |a| && (i < litp + 3 || q + 1 <= i)
      ensures a3[i] == a2[i]
    {
      SameAt(a2, a3, litp + 3, q + 1, i);
    }
    assert a2[litp + 2 .. q] == a[litp + 2 .. q];
  }

  /** Behind a match without literals there is an instruction. */
  lemma Behind(a: seq<Byte>, n: nat, c: Cfg, merged: bool, litp: int, lit: nat, final: Outcome)
    requires Reached(a, n, c, merged, litp, lit, final)
    ensures var r := Parse(a, c.ip, c.st); r.Mat? && r.nl == 0 ==> r.next < |a|
  {
    hide Parse, Copy, After;
    var r := Parse(a, c.ip, c.st);
    if r.Mat? && r.nl == 0 {
      var d := Step(a, c).c;
      assert DecodeFrom(a, d) == final;
      if d.ip >= |a| { NothingLeft(a, d); }
    }
  }

  lemma NothingLeft(a: seq<Byte>, d: Cfg)
    requires d.ip >= |a|
    ensures DecodeFrom(a, d) == Broken
  {
  }

  /** After a match with literals, the holder of the literals is that match. */
  lemma ShortBefore(a: seq<Byte>, n: nat, c: Cfg, merged: bool, litp: nat, lit: nat, final: Outcome)
    requires Reached(a, n, c, merged, litp, lit, final) && c.st != 4
    ensures lit <= 3
  {
    hide Parse, Copy, DecodeFrom;
    if lit > 3 {
      LongState(a, After(a, n - 1).c, litp, lit, c.ip);
    }
  }

  lemma LongState(a: seq<Byte>, k: Cfg, litp: int, lit: nat, q: nat)
    requires LongHolder(a, k, litp, lit, q)
    ensures Step(a, k).Next? && Step(a, k).c.st == 4
  {
    hide Parse;
  }

  /** A match of three bytes that is not a short one has no further length bytes. */
  lemma OneMeans(a: seq<Byte>, ip: nat, st: nat, next: nat, dist: nat)
    requires ip < |a| && a[ip] >= 16 && 2 <= next <= |a| && Parse(a, ip, st) == Mat(next, 3, dist, a[next - 2] % 4)
    ensures next == if a[ip] >= 64 then ip + 2 else ip + 3
  {
    hide Extended;
  }

  lemma RunsReached(a: seq<Byte>, a1: seq<Byte>, b: seq<Byte>, n: nat, c: Cfg, merged: bool, litp: nat, lit: nat,
                    final: Outcome, dist: nat, t: nat)
    returns (f: Cfg)
    requires Reached(a, n, c, merged, litp, lit, final) && lit > 3 && Parse(a, c.ip, c.st) == Mat(c.ip + 2, 3, dist, 0)
             && 1 <= dist <= |c.out|
    requires c.ip + 2 < |a| && t == a[c.ip + 2] as int && 1 <= t && lit + 3 + t < 16 && litp < c.ip
    requires SameOutside(a, a1, c.ip, c.ip + 3) && a1[c.ip .. c.ip + 3] == Added(c.out, 3, dist)
             && b == a1[litp := lit + 3 + t]
    ensures var e := c.ip + 3;
            && |a| == |b| && e + t + 3 <= |a| && f == Cfg(e + t + 3, 4, Copy(c.out, 3, dist) + b[e .. e + t + 3])
            && Reached(b, n, f, false, litp, lit + 3 + t + 3, final)
  {
    hide Reached, Parse, Copy;
    var e := c.ip + 3;
    assert b[..litp] == a1[..litp] == a1[..c.ip][..litp] == a[..c.ip][..litp] == a[..litp];
    assert b[litp + 1 .. c.ip] == a1[..c.ip][litp + 1..] == a[..c.ip][litp + 1..] == a[litp + 1 .. c.ip];
    assert b[e..] == a1[e..] && b[c.ip .. e] == a1[c.ip .. e];
    ReachedRuns(a, b, n, c, merged, litp, lit, final, dist);
    assert b[e .. e + t + 3] == b[e..][..t + 3] == a[e..][..t + 3] == a[e .. e + t + 3];
    f := Cfg(e + t + 3, 4, Copy(c.out, 3, dist) + a[e .. e + t + 3]);
  }

  /** The holder is before the literals it holds. */
  lemma HolderBounds(a: seq<Byte>, n: nat, c: Cfg, merged: bool, litp: nat, lit: nat, final: Outcome)
    requires Reached(a, n, c, merged, litp, lit, final)
    ensures if lit <= 3 then litp + 2 + lit == c.ip else litp + lit < c.ip
  {
    hide Parse, After, DecodeFrom;
  }

  lemma BeforeBytes(a: seq<Byte>, b: seq<Byte>, litp: nat, q: nat, len: nat)
    requires |a| == |b| && litp < q && q + len <= |a| && SameOutside(a[litp := b[litp]], b, q, q + len)
    ensures SameOutside(a, b, litp, q + len) && b[litp + 1 .. q] == a[litp + 1 .. q]
  {
    var m := a[litp := b[litp]];
    assert b[litp + 1 .. q] == b[..q][litp + 1..] == m[..q][litp + 1..] == a[litp + 1 .. q];
    assert b[..litp] == b[..q][..litp] == m[..q][..litp] == a[..litp];
  }

  lemma RunParse(a: seq<Byte>, c: Cfg)
    requires c.ip < |a| && c.st == 0 && a[c.ip] < 16 && !Parse(a, c.ip, c.st).Invalid?
    ensures ReadLength(a, c.ip + 1, a[c.ip] as int, 15).Length?
    ensures var l := ReadLength(a, c.ip + 1, a[c.ip] as int, 15); Parse(a, c.ip, c.st) == Lits(l.next, l.value + 3)
  {
    hide Extended;
  }

  /** On any stream with an end, the loop tests never fail; the stream keeps its length and its
      meaning; and its text is in `out`. */
  method Optimize(inn: array<Byte>, out: array<Byte>, outLen: nat) returns (len: nat, status: Status)
    requires inn != out && Decode(inn[..]).Done? && |Decode(inn[..]).out| <= outLen <= out.Length
    modifies inn, out
    ensures Decode(inn[..]) == old(Decode(inn[..])) && len <= out.Length && Decode(inn[..]).out == out[..len]
    ensures status == Ok <==> Decode(inn[..]).next == inn.Length
  {
    hide Reached, Step, DecodeFrom, Start;
    ghost var final := Decode(inn[..]);
    var o := new Optimizer(inn, out);
    o.final := final;
    StartReached(inn[..], final);
    assert out[..0] == [] == inn[..][1 .. 1];
    if inn[0] > 17 {
      var t := inn[0] as int - 17;
      o.ip, o.op := CopyLits(inn, 1, out, 0, t);
      o.st := if t < 4 then t else 4;
      assert out[..o.op] == inn[..][1 .. 1 + t];
    }
    while true
      invariant o.inn == inn && o.out == out && o.Valid() && o.final == final
      decreases inn.Length - o.ip
    {
      NotOver(inn[..], o.n, Cfg(o.ip, o.st, out[..o.op]), o.merged, o.litp, o.lit, final);
      Fits(inn[..], o.n, Cfg(o.ip, o.st, out[..o.op]), o.merged, o.litp, o.lit, final);
      assert o.ip < inn.Length && o.op <= outLen;
      if inn[o.ip] >= 16 {
        var stop, next := o.OtherMatch();
        if stop {
          ReachedMeans(inn[..], o.n, Cfg(o.ip, o.st, out[..o.op]), o.merged, o.litp, o.lit, final);
          return o.op, if next == inn.Length then Ok else InputNotConsumed;
        }
      } else if o.st == 0 {
        o.LiteralRun();
      } else {
        o.ShortMatch();
      }
    }
  }

  /** The literals at the start of the stream, if it starts with any. */
  lemma StartReached(a: seq<Byte>, final: Outcome)
    requires final.Done? && Decode(a) == final
    ensures |a| > 0
    ensures var t := if a[0] > 17 then a[0] as int - 17 else 0;
            1 + t <= |a| && t <= |final.out|
            && Reached(a, 0, Cfg(if a[0] > 17 then 1 + t else 0, if t < 4 then t else 4, a[1 .. 1 + t]), false, -1, 0,
                       final)
  {
    hide Step;
    OutGrows(a, Start(a).c);
    assert a[1 .. 1] == [];
  }
}
