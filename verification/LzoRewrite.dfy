/** The rewrites of a compressed stream: a short match becomes literals of the run before it,
    of the run after it, or of both. Each keeps the length and the meaning of the stream. */
module LzoRewrite {
  import opened Arith
  import opened Lzo
  import opened Tokens

  /** The `lit` literals before `q` belong to the match at `c`, whose count of them is in the low
      bits of the byte at `litp`. */
  ghost predicate ShortHolder(a: seq<Byte>, c: Cfg, litp: int, lit: nat, q: nat) {
    var r := Parse(a, c.ip, c.st);
    r.Mat? && litp == r.next - 2 && lit == r.nl && q == r.next + lit <= |a| && r.dist <= |c.out|
  }

  /** The `lit` literals before `q` are the literal run at `c`, whose opcode is at `litp`. */
  ghost predicate LongHolder(a: seq<Byte>, c: Cfg, litp: int, lit: nat, q: nat) {
    var r := Parse(a, c.ip, c.st);
    r.Lits? && litp == c.ip && lit == r.n && q == r.next + lit <= |a|
  }

  /** What a match adds to the text. */
  ghost function Added(o: seq<Byte>, len: nat, dist: nat): (y: seq<Byte>)
    requires 1 <= dist <= |o|
    ensures |y| == len && Copy(o, len, dist) == o + y
  {
    Copy(o, len, dist)[|o|..]
  }

  /** Only bytes from `lo` to `hi` may differ. */
  ghost predicate SameOutside(a: seq<Byte>, b: seq<Byte>, lo: nat, hi: nat) {
    |a| == |b| && lo <= hi <= |a| && a[..lo] == b[..lo] && a[hi..] == b[hi..]
  }

  lemma SameAt(a: seq<Byte>, b: seq<Byte>, lo: nat, hi: nat, i: nat)
    requires SameOutside(a, b, lo, hi) && i < |a| && (i < lo || hi <= i)
    ensures a[i] == b[i]
  {
    if i < lo {
      assert a[..lo][i] == b[..lo][i];
    } else {
      assert a[hi..][i - hi] == b[hi..][i - hi];
    }
  }

  /** The byte `x` with `v` in its two low bits. */
  function LowBits(x: Byte, v: nat): (r: Byte)
    requires v < 4
    ensures r / 4 == x / 4 && r % 4 == v
  {
    x / 4 * 4 + v
  }

  // ----- changing the count of literals of a match -----

  lemma Classes(x: Byte, y: Byte)
    requires x / 4 == y / 4
    ensures (x < 16 <==> y < 16) && (x >= 64 <==> y >= 64) && (x >= 32 <==> y >= 32)
    ensures x as int / 32 == y as int / 32 && x as int / 4 % 8 == y as int / 4 % 8
  {
  }

  lemma SetLow(a: seq<Byte>, b: seq<Byte>, ip: nat, st: nat, v: nat)
    requires |a| == |b| && ip + 2 <= |a| && v < 4 && (a[ip] < 16 || a[ip] >= 64) && Parse(a, ip, st).Mat?
    requires b[ip] == LowBits(a[ip], v) && b[ip + 1] == a[ip + 1]
    ensures Parse(b, ip, st) == Parse(a, ip, st).(nl := v)
  {
    Classes(a[ip], b[ip]);
  }

  lemma SetHigh(a: seq<Byte>, b: seq<Byte>, ip: nat, st: nat, v: nat)
    requires |a| == |b| && v < 4 && ip < |a| && 16 <= a[ip] < 64 && Parse(a, ip, st).Mat?
    requires var next := Parse(a, ip, st).next;
             b[next - 2] == LowBits(a[next - 2], v) && forall i :: ip <= i < next && i != next - 2 ==> b[i] == a[i]
    ensures Parse(b, ip, st) == Parse(a, ip, st).(nl := v)
  {
    hide Extended;
    var next := Parse(a, ip, st).next;
    assert b[ip] == a[ip];
    var t, most := if a[ip] >= 32 then a[ip] % 32 else a[ip] % 8, if a[ip] >= 32 then 31 else 7;
    assert ReadLength(a, ip + 1, t, most).next == next - 2;
    if t == 0 {
      ExtendedFrame(a, b, ip + 1, most);
    }
    assert Offset(b, next - 2) == Offset(a, next - 2);
  }

  /** Changing the low bits of the byte that holds it changes the count of literals and
      nothing else. */
  lemma SetCount(a: seq<Byte>, b: seq<Byte>, ip: nat, st: nat, v: nat)
    requires |a| == |b| && v < 4 && Parse(a, ip, st).Mat?
    requires var next := Parse(a, ip, st).next;
             b[next - 2] == LowBits(a[next - 2], v) && forall i :: ip <= i < next && i != next - 2 ==> b[i] == a[i]
    ensures Parse(b, ip, st) == Parse(a, ip, st).(nl := v)
  {
    hide Parse, LowBits;
    if 16 <= a[ip] < 64 {
      SetHigh(a, b, ip, st, v);
    } else {
      TwoBytes(a, ip, st);
      SetLow(a, b, ip, st, v);
    }
  }

  lemma TwoBytes(a: seq<Byte>, ip: nat, st: nat)
    requires Parse(a, ip, st).Mat? && (a[ip] < 16 || a[ip] >= 64)
    ensures Parse(a, ip, st).next == ip + 2
  {
  }

  // ----- one run of literals instead of a match -----

  /** The match at `q` adds as many bytes as it takes: its bytes can hold what it adds. */
  ghost predicate Replaceable(a: seq<Byte>, c: Cfg, len: nat, dist: nat) {
    Parse(a, c.ip, c.st) == Mat(c.ip + len, len, dist, 0) && dist <= |c.out|
  }

  /** Between two matches: the literals of the one before take over the bytes of the match. */
  lemma JoinBefore(a: seq<Byte>, b: seq<Byte>, k: Cfg, litp: nat, lit: nat, q: Cfg, len: nat, dist: nat)
    requires ShortHolder(a, k, litp, lit, q.ip) && Step(a, k) == Next(q) && lit + len == 3
             && Replaceable(a, q, len, dist)
    requires SameOutside(a, b, litp, q.ip + len) && b[litp] == LowBits(a[litp], 3)
             && b[litp + 1 .. q.ip] == a[litp + 1 .. q.ip]
    requires b[q.ip .. q.ip + len] == Added(q.out, len, dist)
    ensures ShortHolder(b, k, litp, 3, q.ip + len) && Step(b, k) == Next(Cfg(q.ip + len, 3, Copy(q.out, len, dist)))
  {
    hide Parse, Copy, LowBits;
    var p := litp + 2;
    forall i | k.ip <= i < p && i != p - 2 ensures b[i] == a[i] { SameBefore(a, b, litp, q.ip, q.ip + len, i); }
    SetCount(a, b, k.ip, k.st, 3);
    assert b[p .. p + 3] == b[p .. q.ip] + b[q.ip .. q.ip + len];
    assert b[p .. q.ip] == b[litp + 1 .. q.ip][1..] == a[litp + 1 .. q.ip][1..] == a[p .. q.ip];
    var o := Copy(k.out, Parse(a, k.ip, k.st).len, Parse(a, k.ip, k.st).dist);
    assert o + (a[p .. q.ip] + Added(q.out, len, dist)) == o + a[p .. q.ip] + Added(q.out, len, dist);
  }

  lemma SameBefore(a: seq<Byte>, b: seq<Byte>, litp: nat, q: nat, hi: nat, i: nat)
    requires SameOutside(a, b, litp, hi) && litp + 1 <= q <= hi && b[litp + 1 .. q] == a[litp + 1 .. q]
    requires i < q && i != litp
    ensures b[i] == a[i]
  {
    if i < litp {
      SameAt(a, b, litp, hi, i);
    } else {
      assert b[litp + 1 .. q][i - litp - 1] == a[litp + 1 .. q][i - litp - 1];
    }
  }

  /** A literal run with a one-byte opcode. */
  lemma RunAt(b: seq<Byte>, c: Cfg, n: nat)
    requires c.ip < |b| && c.st == 0 && 1 <= b[c.ip] < 16 && n == b[c.ip] as int + 3 && c.ip + 1 + n <= |b|
    ensures Parse(b, c.ip, c.st) == Lits(c.ip + 1, n)
    ensures Step(b, c) == Next(Cfg(c.ip + 1 + n, 4, c.out + b[c.ip + 1 .. c.ip + 1 + n]))
  {
  }

  /** The match before gives up its literals. */
  lemma DropCount(a: seq<Byte>, b: seq<Byte>, k: Cfg, litp: nat, lit: nat, q: Cfg) returns (m: Cfg)
    requires ShortHolder(a, k, litp, lit, q.ip) && Step(a, k) == Next(q)
    requires |a| == |b| && a[..litp] == b[..litp] && b[litp] == LowBits(a[litp], 0) && b[litp + 1] == a[litp + 1]
    ensures Step(b, k) == Next(m) && m.ip == litp + 2 <= q.ip && m.st == 0 && q.out == m.out + a[litp + 2 .. q.ip]
  {
    hide Parse, Copy, LowBits;
    var p, ins := litp + 2, Parse(a, k.ip, k.st);
    m := Cfg(p, 0, Copy(k.out, ins.len, ins.dist));
    forall i | k.ip <= i < p && i != p - 2 ensures b[i] == a[i] {
      assert i < litp ==> a[..litp][i] == b[..litp][i];
    }
    SetCount(a, b, k.ip, k.st, 0);
    assert m.out + b[p .. p] == m.out;
  }

  /** The new run holds the old literals `x`, what the match adds, and the literals behind. */
  lemma NewRun(a: seq<Byte>, b: seq<Byte>, m: Cfg, q: Cfg, lit: nat, len: nat, dist: nat, r: nat)
    requires |a| == |b| && m.st == 0 && q.ip == m.ip + lit && 1 <= dist <= |q.out|
    requires q.ip + len + 1 + r + 3 <= |a| && 1 <= r && lit + len + r < 16 && a[q.ip + len + 1..] == b[q.ip + len + 1..]
    requires q.out == m.out + a[m.ip .. q.ip]
    requires b[m.ip] == lit + len + r && b[m.ip + 1 .. q.ip + 1] == a[m.ip .. q.ip]
    requires b[q.ip + 1 .. q.ip + 1 + len] == Added(q.out, len, dist)
    ensures LongHolder(b, m, m.ip, lit + len + r + 3, q.ip + len + 1 + r + 3)
    ensures var e := q.ip + len + 1; Step(b, m) == Next(Cfg(e + r + 3, 4, Copy(q.out, len, dist) + a[e .. e + r + 3]))
  {
    hide Parse, Step, Copy;
    var p, e := m.ip, q.ip + len + 1;
    RunAt(b, m, lit + len + r + 3);
    ThreeParts(a, b, p + 1, q.ip + 1, e, e + r + 3);
    FourParts(m.out, a[p .. q.ip], Added(q.out, len, dist), a[e .. e + r + 3]);
  }

  /** Between a short run and a long one: the long run takes over the short one and the match.
      `m` is where the new run starts. */
  lemma JoinBoth(a: seq<Byte>, b: seq<Byte>, k: Cfg, litp: nat, lit: nat, q: Cfg, len: nat, dist: nat,
                 r: nat) returns (m: Cfg)
    requires ShortHolder(a, k, litp, lit, q.ip) && Step(a, k) == Next(q) && Replaceable(a, q, len, dist)
    requires q.ip + len + 1 + r + 3 <= |a| && 1 <= r && lit + len + r < 16
    requires SameOutside(a, b, litp, q.ip + len + 1) && b[litp] == LowBits(a[litp], 0) && b[litp + 1] == a[litp + 1]
    requires b[litp + 2] == lit + len + r && b[litp + 3 .. q.ip + 1] == a[litp + 2 .. q.ip]
    requires b[q.ip + 1 .. q.ip + 1 + len] == Added(q.out, len, dist)
    ensures Step(b, k) == Next(m) && LongHolder(b, m, litp + 2, lit + len + r + 3, q.ip + len + 1 + r + 3)
    ensures var e := q.ip + len + 1; Step(b, m) == Next(Cfg(e + r + 3, 4, Copy(q.out, len, dist) + a[e .. e + r + 3]))
  {
    hide Parse, Step, Copy, LowBits, LongHolder;
    m := DropCount(a, b, k, litp, lit, q);
    NewRun(a, b, m, q, lit, len, dist, r);
  }

  lemma FourParts(o: seq<Byte>, x: seq<Byte>, y: seq<Byte>, z: seq<Byte>)
    ensures o + (x + y + z) == o + x + y + z
  {
  }

  lemma ThreeParts(a: seq<Byte>, b: seq<Byte>, p: nat, q: nat, e: nat, f: nat)
    requires |a| == |b| && p <= q <= e <= f <= |a| && a[e..] == b[e..]
    ensures b[p .. f] == b[p .. q] + b[q .. e] + a[e .. f]
  {
    assert b[e .. f] == b[e..][..f - e] && a[e .. f] == a[e..][..f - e];
  }

  /** A run of less than 19 literals has a one-byte opcode. */
  lemma RunOpcode(a: seq<Byte>, c: Cfg, litp: int, lit: nat, q: nat)
    requires LongHolder(a, c, litp, lit, q) && lit < 19
    ensures a[c.ip] == lit - 3 && q == c.ip + 1 + lit && c.st == 0 && 1 <= a[c.ip] < 16
  {
  }

  /** Between two long runs: the first takes over the match and the second. */
  lemma JoinRuns(a: seq<Byte>, b: seq<Byte>, k: Cfg, litp: nat, lit: nat, q: Cfg, dist: nat, r: nat)
    requires LongHolder(a, k, litp, lit, q.ip) && Step(a, k) == Next(q)
    requires Parse(a, q.ip, q.st) == Mat(q.ip + 2, 3, dist, 0) && dist <= |q.out|
    requires q.ip + 3 + r + 3 <= |a| && 1 <= r && lit + 3 + r < 16
    requires SameOutside(a, b, litp, q.ip + 3) && b[litp] == lit + 3 + r && b[litp + 1 .. q.ip] == a[litp + 1 .. q.ip]
    requires b[q.ip .. q.ip + 3] == Added(q.out, 3, dist)
    ensures LongHolder(b, k, litp, lit + 3 + r + 3, q.ip + 3 + r + 3)
    ensures var e := q.ip + 3; Step(b, k) == Next(Cfg(e + r + 3, 4, Copy(q.out, 3, dist) + a[e .. e + r + 3]))
  {
    hide Parse, Step, Copy;
    RunOpcode(a, k, litp, lit, q.ip);
    RunAt(a, k, lit);
    var p, e, n := litp + 1, q.ip + 3, lit + 3 + r + 3;
    RunAt(b, k, n);
    var x, y, z := a[p .. q.ip], Added(q.out, 3, dist), a[e .. e + r + 3];
    ThreeParts(a, b, p, q.ip, e, e + r + 3);
    FourParts(k.out, x, y, z);
  }
}
