/** Where `lzo1x_optimize` is in the stream, and that its rewrites keep what the stream means. */
module LzoState {
  import opened Arith
  import opened Lzo
  import opened LzoRewrite
  import opened Tokens

  /** The instruction before `ip` holds the `lit` literals before `ip`. */
  ghost predicate Holder(a: seq<Byte>, n: nat, litp: int, lit: nat, ip: nat) {
    n >= 1 && After(a, n - 1).Next? &&
    if lit <= 3 then ShortHolder(a, After(a, n - 1).c, litp, lit, ip)
      else LongHolder(a, After(a, n - 1).c, litp, lit, ip)
  }

  /** The stream as it is now leads to `ip` in `n` instructions, with the text `out`; from there on
      it goes on to `final` as the original stream does. The last instruction may have been given
      three literals where the original stream had a match without any (`merged`): this makes no
      difference to the next instruction. */
  ghost predicate Reached(a: seq<Byte>, n: nat, c: Cfg, merged: bool, litp: int, lit: nat, final: Outcome) {
    && c.ip <= |a| && After(a, n) == Next(if merged then c.(st := 3) else c)
    && (merged ==> c.st == 0 && c.ip < |a| && a[c.ip] >= 16)
    && final.Done? && DecodeFrom(a, c) == final
    && (litp >= 0 ==> Holder(a, n, litp, lit, c.ip))
  }

  /** The whole stream has the meaning it had. */
  lemma ReachedMeans(a: seq<Byte>, n: nat, c: Cfg, merged: bool, litp: int, lit: nat, final: Outcome)
    requires Reached(a, n, c, merged, litp, lit, final)
    ensures Decode(a) == final
  {
    hide Step, After;
    AfterDecode(a, n);
    if merged { LongMatch(a, c, c.(st := 3)); }
  }

  /** There is always a next instruction. */
  lemma NotOver(a: seq<Byte>, n: nat, c: Cfg, merged: bool, litp: int, lit: nat, final: Outcome)
    requires Reached(a, n, c, merged, litp, lit, final)
    ensures c.ip < |a| && !Step(a, c).Fail? && !Parse(a, c.ip, c.st).Invalid? && final.Done?
    ensures Parse(a, c.ip, c.st).Lits? ==> !merged
    ensures Step(a, c).Halt? ==> Done(c.out, Step(a, c).next) == final
  {
  }

  /** An instruction as it stands. */
  lemma ReachedStep(a: seq<Byte>, n: nat, c: Cfg, merged: bool, litp: int, lit: nat, final: Outcome)
    requires Reached(a, n, c, merged, litp, lit, final) && Step(a, c).Next?
    ensures var r := Parse(a, c.ip, c.st);
            if r.Lits? then Reached(a, n + 1, Step(a, c).c, false, c.ip, r.n, final)
            else r.Mat? && Reached(a, n + 1, Step(a, c).c, false, r.next - 2, r.nl, final)
  {
    hide Parse, Copy, After, DecodeFrom;
    var d := if merged then c.(st := 3) else c;
    if merged { LongMatch(a, c, d); LongParse(a, c, d); }
    OneMore(a, n, c);
  }

  lemma OneMore(a: seq<Byte>, n: nat, c: Cfg)
    requires Step(a, c).Next?
    ensures DecodeFrom(a, c) == DecodeFrom(a, Step(a, c).c)
    ensures After(a, n).Next? ==> After(a, n + 1) == Step(a, After(a, n).c)
  {
    hide Step;
  }

  lemma LongParse(a: seq<Byte>, c: Cfg, d: Cfg)
    requires c.ip < |a| && a[c.ip] >= 16 && d == c.(st := d.st)
    ensures Parse(a, c.ip, c.st) == Parse(a, d.ip, d.st)
  {
  }

  lemma {:induction false} AtZero(a: seq<Byte>, n: nat)
    requires After(a, n).Next? && After(a, n).c.ip == 0
    ensures After(a, n).c.out == []
  {
    hide Step;
  }

  /** Up to the holder, nothing has changed. */
  lemma HolderStays(a: seq<Byte>, b: seq<Byte>, n: nat, litp: nat, lit: nat, ip: nat, hi: nat)
    requires Holder(a, n, litp, lit, ip) && SameOutside(a, b, litp, hi) && litp < |a| && (lit > 3 ==> b[litp] < 16)
    ensures After(b, n - 1) == After(a, n - 1)
  {
    hide Parse, Step, After;
    var k := After(a, n - 1).c;
    if k.ip == 0 { AtZero(a, n - 1); }
    assert k.ip <= litp;
    assert a[..k.ip] == a[..litp][..k.ip] && b[..k.ip] == b[..litp][..k.ip];
    if litp > 0 {
      assert a[..litp][0] == b[..litp][0];
    }
    AfterFrame(a, b, n - 1);
  }

  /** A replaced match: the position behind it, and what follows. */
  lemma AfterMatch(a: seq<Byte>, q: Cfg, h: nat, len: nat, dist: nat, final: Outcome)
    requires Parse(a, q.ip, q.st) == Mat(q.ip + h, len, dist, 0) && dist <= |q.out| && q.ip + h <= |a|
             && DecodeFrom(a, q) == final
    ensures DecodeFrom(a, Cfg(q.ip + h, 0, Copy(q.out, len, dist))) == final
  {
    hide Parse, Copy;
    assert Copy(q.out, len, dist) + a[q.ip + h .. q.ip + h] == Copy(q.out, len, dist);
  }

  /** Behind it a literal run with a one-byte opcode. */
  lemma AfterRun(a: seq<Byte>, c: Cfg, final: Outcome)
    requires c.ip < |a| && c.st == 0 && 1 <= a[c.ip] < 16 && DecodeFrom(a, c) == final && final.Done?
    ensures var n := a[c.ip] as int + 3;
            c.ip + 1 + n <= |a| && DecodeFrom(a, Cfg(c.ip + 1 + n, 4, c.out + a[c.ip + 1 .. c.ip + 1 + n])) == final
  {
    hide Extended, Copy;
  }

  /** The literals of the match before take over the match here; another match follows. */
  lemma ReachedBefore(a: seq<Byte>, b: seq<Byte>, n: nat, c: Cfg, merged: bool, litp: nat, lit: nat, final: Outcome,
                      len: nat, dist: nat)
    requires Reached(a, n, c, merged, litp, lit, final) && lit + len == 3 && Replaceable(a, c, len, dist)
    requires c.ip + len < |a| && a[c.ip + len] >= 16
    requires SameOutside(a, b, litp, c.ip + len) && litp < c.ip && b[litp] == LowBits(a[litp], 3)
             && b[litp + 1 .. c.ip] == a[litp + 1 .. c.ip]
    requires b[c.ip .. c.ip + len] == Added(c.out, len, dist)
    ensures Reached(b, n, Cfg(c.ip + len, 0, Copy(c.out, len, dist)), true, litp, 3, final)
  {
    hide Parse, Step, Copy, LowBits, ShortHolder, LongHolder, DecodeFrom;
    var k, q, e := After(a, n - 1).c, After(a, n).c, c.ip + len;
    if merged { LongParse(a, c, q); }
    JoinBefore(a, b, k, litp, lit, q, len, dist);
    HolderStays(a, b, n, litp, lit, c.ip, e);
    AfterMatch(a, c, len, len, dist, final);
    DecodeFrame(a, b, Cfg(e, 0, Copy(c.out, len, dist)));
    SameAt(a, b, litp, e, e);
  }

  /** One run takes over the literals of the match before, the match here, and the run behind. */
  lemma ReachedBoth(a: seq<Byte>, b: seq<Byte>, n: nat, c: Cfg, merged: bool, litp: nat, lit: nat, final: Outcome,
                    len: nat, dist: nat)
    requires Reached(a, n, c, merged, litp, lit, final) && lit <= 3 && Replaceable(a, c, len, dist)
    requires c.ip + len < |a| && 1 <= a[c.ip + len] && lit + len + a[c.ip + len] as int < 16
    requires SameOutside(a, b, litp, c.ip + len + 1) && litp + 2 <= c.ip && b[litp] == LowBits(a[litp], 0)
             && b[litp + 1] == a[litp + 1]
    requires b[litp + 2] == lit + len + a[c.ip + len] as int && b[litp + 3 .. c.ip + 1] == a[litp + 2 .. c.ip]
    requires b[c.ip + 1 .. c.ip + 1 + len] == Added(c.out, len, dist)
    ensures var r, e := a[c.ip + len] as int, c.ip + len + 1;
            e + r + 3 <= |a| &&
            Reached(b, n + 1, Cfg(e + r + 3, 4, Copy(c.out, len, dist) + a[e .. e + r + 3]), false, litp + 2,
                    lit + len + r + 3, final)
  {
    hide Parse, Step, Copy, LowBits, ShortHolder, LongHolder, DecodeFrom;
    var k, q, e, r := After(a, n - 1).c, After(a, n).c, c.ip + len + 1, a[c.ip + len] as int;
    if merged { LongParse(a, c, q); }
    AfterMatch(a, c, len, len, dist, final);
    AfterRun(a, Cfg(c.ip + len, 0, Copy(c.out, len, dist)), final);
    var m := JoinBoth(a, b, k, litp, lit, q, len, dist, r);
    HolderStays(a, b, n, litp, lit, c.ip, e);
    RunsOn(a, b, n, m, e, e + r + 3, Copy(c.out, len, dist) + a[e .. e + r + 3]);
  }

  lemma RunsOn(a: seq<Byte>, b: seq<Byte>, n: nat, m: Cfg, e: nat, f: nat, o: seq<Byte>)
    requires |a| == |b| && e <= f <= |a| && a[e..] == b[e..] && n >= 1
    requires After(b, n - 1).Next? && Step(b, After(b, n - 1).c) == Next(m) && Step(b, m) == Next(Cfg(f, 4, o))
    ensures After(b, n) == Next(m) && After(b, n + 1) == Next(Cfg(f, 4, o))
            && DecodeFrom(b, Cfg(f, 4, o)) == DecodeFrom(a, Cfg(f, 4, o))
  {
    hide Step, DecodeFrom;
    assert a[f..] == a[e..][f - e..] && b[f..] == b[e..][f - e..];
    DecodeFrame(a, b, Cfg(f, 4, o));
  }

  /** The run before takes over the match here and the run behind. */
  lemma ReachedRuns(a: seq<Byte>, b: seq<Byte>, n: nat, c: Cfg, merged: bool, litp: nat, lit: nat, final: Outcome,
                    dist: nat)
    requires Reached(a, n, c, merged, litp, lit, final) && lit > 3
    requires Parse(a, c.ip, c.st) == Mat(c.ip + 2, 3, dist, 0) && dist <= |c.out|
    requires c.ip + 2 < |a| && 1 <= a[c.ip + 2] && lit + 3 + a[c.ip + 2] as int < 16
    requires SameOutside(a, b, litp, c.ip + 3) && litp < c.ip && b[litp] == lit + 3 + a[c.ip + 2] as int
             && b[litp + 1 .. c.ip] == a[litp + 1 .. c.ip]
    requires b[c.ip .. c.ip + 3] == Added(c.out, 3, dist)
    ensures var r, e := a[c.ip + 2] as int, c.ip + 3;
            e + r + 3 <= |a| &&
            Reached(b, n, Cfg(e + r + 3, 4, Copy(c.out, 3, dist) + a[e .. e + r + 3]), false, litp, lit + 3 + r + 3,
                    final)
  {
    hide Parse, Step, Copy, ShortHolder, LongHolder, DecodeFrom;
    var k, q, e, r := After(a, n - 1).c, After(a, n).c, c.ip + 3, a[c.ip + 2] as int;
    if merged { LongParse(a, c, q); }
    AfterMatch(a, c, 2, 3, dist, final);
    AfterRun(a, Cfg(c.ip + 2, 0, Copy(c.out, 3, dist)), final);
    JoinRuns(a, b, k, litp, lit, q, dist, r);
    HolderStays(a, b, n, litp, lit, c.ip, e);
    var o := Copy(c.out, 3, dist) + a[e .. e + r + 3];
    assert a[e + r + 3..] == a[e..][r + 3..] && b[e + r + 3..] == b[e..][r + 3..];
    DecodeFrame(a, b, Cfg(e + r + 3, 4, o));
  }
}
