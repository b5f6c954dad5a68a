/** The LZO1X format: what a compressed stream means, instruction by instruction. */
module Lzo {
  import opened Arith
  import opened Tokens

  /** A position in a stream, the number of literals the last instruction copied (4 stands for a
      literal run), and the text so far. */
  datatype Cfg = Cfg(ip: nat, st: nat, out: seq<Byte>)

  /** A number with the position after it. */
  datatype Length = NoLength | Length(value: nat, next: nat)

  /** A length that goes on in further bytes: 255 for every zero byte, and the byte after them. */
  function Extended(a: seq<Byte>, p: nat, v: nat): (r: Length)
    ensures r.Length? ==> p < r.next <= |a| && r.value > v
    decreases |a| - p
  {
    if p >= |a| then NoLength else if a[p] == 0 then Extended(a, p + 1, v + 255) else Length(v + a[p], p + 1)
  }

  /** The length `t`, or if it is zero a length of more than `most` in further bytes. */
  function ReadLength(a: seq<Byte>, p: nat, t: nat, most: nat): (r: Length)
    ensures r.Length? && p <= |a| ==> p <= r.next <= |a| && r.value >= 1
  {
    if t == 0 then Extended(a, p, most) else Length(t, p)
  }

  /** An instruction without its literals: `next` is the position after its own bytes. */
  datatype Ins = Invalid | Stop(next: nat) | Lits(next: nat, n: nat) | Mat(next: nat, len: nat, dist: nat, nl: nat)

  /** The two bytes of an offset. */
  function Offset(a: seq<Byte>, p: nat): (r: nat)
    requires p + 2 <= |a|
  {
    a[p] as int / 4 + 64 * (a[p + 1] as int)
  }

  /** Opcodes from 64 on: a match of 3 to 8 bytes, near. */
  function ParseM2(a: seq<Byte>, ip: nat): (r: Ins)
    requires ip < |a| && a[ip] >= 64
    ensures r.Invalid? || r.Mat?
    ensures r.Mat? ==> ip + 2 == r.next <= |a| && r.nl == a[r.next - 2] % 4 && r.len >= 3 && r.dist >= 1
  {
    var t := a[ip] as int;
    if ip + 2 > |a| then Invalid else Mat(ip + 2, t / 32 + 1, 1 + t / 4 % 8 + 8 * (a[ip + 1] as int), t % 4)
  }

  /** Opcodes from 32 on: a match of any length within 16 kilobytes. */
  function ParseM3(a: seq<Byte>, ip: nat): (r: Ins)
    requires ip < |a| && 32 <= a[ip] < 64
    ensures r.Invalid? || r.Mat?
    ensures r.Mat? ==> ip + 3 <= r.next <= |a| && r.nl == a[r.next - 2] % 4 && r.len >= 3 && r.dist >= 1
  {
    match ReadLength(a, ip + 1, a[ip] % 32, 31)
    case NoLength => Invalid
    case Length(t, p) => if p + 2 > |a| then Invalid else Mat(p + 2, t + 2, 1 + Offset(a, p), a[p] % 4)
  }

  /** Opcodes from 16 on: a match of any length farther back, or the end. */
  function ParseM4(a: seq<Byte>, ip: nat): (r: Ins)
    requires ip < |a| && 16 <= a[ip] < 32
    ensures !r.Lits? && (r.Stop? ==> ip + 3 <= r.next <= |a|)
    ensures r.Mat? ==> ip + 3 <= r.next <= |a| && r.nl == a[r.next - 2] % 4 && r.len >= 3 && r.dist >= 1
  {
    match ReadLength(a, ip + 1, a[ip] % 8, 7)
    case NoLength => Invalid
    case Length(t, p) =>
      if p + 2 > |a| then Invalid
      else
        var far := a[ip] as int / 8 % 2 * 0x4000 + Offset(a, p);
        if far == 0 then Stop(p + 2) else Mat(p + 2, t + 2, 0x4000 + far, a[p] % 4)
  }

  /** Opcodes below 16: a literal run after a match without literals, else a short match. */
  function ParseLow(a: seq<Byte>, ip: nat, st: nat): (r: Ins)
    requires ip < |a| && a[ip] < 16
    ensures !r.Stop?
    ensures r.Lits? ==> st == 0 && ip < r.next <= |a| && r.n >= 4
    ensures r.Mat? ==> st != 0 && ip + 2 == r.next <= |a| && r.nl == a[r.next - 2] % 4 && r.len >= 2 && r.dist >= 1
  {
    var t := a[ip] as int;
    if st == 0 then
      match ReadLength(a, ip + 1, t, 15)
      case NoLength => Invalid
      case Length(v, p) => Lits(p, v + 3)
    else if ip + 2 > |a| then Invalid
    else if st == 4 then Mat(ip + 2, 3, 0x801 + t / 4 + 4 * (a[ip + 1] as int), t % 4)
    else Mat(ip + 2, 2, 1 + t / 4 + 4 * (a[ip + 1] as int), t % 4)
  }

  function Parse(a: seq<Byte>, ip: nat, st: nat): (r: Ins)
    ensures !r.Invalid? ==> ip + (if r.Lits? then 1 else 2) <= r.next <= |a|
    ensures r.Stop? ==> 16 <= a[ip] < 32
    ensures r.Lits? ==> r.n >= 4 && a[ip] < 16 && st == 0
    ensures r.Mat? ==> r.nl == a[r.next - 2] % 4 < 4 && r.len >= 2 && r.dist >= 1 && (a[ip] < 16 ==> st != 0)
  {
    if ip >= |a| then Invalid
    else if a[ip] < 16 then ParseLow(a, ip, st)
    else if a[ip] >= 64 then ParseM2(a, ip)
    else if a[ip] >= 32 then ParseM3(a, ip)
    else ParseM4(a, ip)
  }

  datatype Move = Fail | Halt(next: nat) | Next(c: Cfg)

  function Step(a: seq<Byte>, c: Cfg): (r: Move)
    ensures r.Next? ==> c.ip < r.c.ip <= |a| && r.c.st <= 4
    ensures r.Halt? ==> r.next <= |a|
  {
    match Parse(a, c.ip, c.st)
    case Invalid => Fail
    case Stop(p) => Halt(p)
    case Lits(p, n) => if p + n <= |a| then Next(Cfg(p + n, 4, c.out + a[p .. p + n])) else Fail
    case Mat(p, len, dist, nl) =>
      if dist <= |c.out| && p + nl <= |a| then Next(Cfg(p + nl, nl, Copy(c.out, len, dist) + a[p .. p + nl])) else Fail
  }

  datatype Outcome = Broken | Done(out: seq<Byte>, next: nat)

  function DecodeFrom(a: seq<Byte>, c: Cfg): (r: Outcome)
    decreases |a| - c.ip
  {
    match Step(a, c)
    case Fail => Broken
    case Halt(p) => Done(c.out, p)
    case Next(c') => DecodeFrom(a, c')
  }

  /** A first byte above 17 starts the stream with literals. */
  function Start(a: seq<Byte>): (r: Move)
    ensures r.Next? ==> r.c.ip <= |a| && r.c.st <= 4
    ensures !r.Halt?
  {
    if a == [] then Fail
    else if a[0] > 17 then
      var n := a[0] - 17;
      if 1 + n <= |a| then Next(Cfg(1 + n, if n < 4 then n else 4, a[1 .. 1 + n])) else Fail
    else Next(Cfg(0, 0, []))
  }

  /** The text a stream stands for, and where it ends. */
  function Decode(a: seq<Byte>): (r: Outcome) {
    match Start(a) case Next(c) => DecodeFrom(a, c) case _ => Broken
  }

  /** Where the decoder is after `n` instructions. */
  function After(a: seq<Byte>, n: nat): (r: Move)
    ensures r.Next? ==> r.c.ip <= |a| && r.c.st <= 4
  {
    if n == 0 then Start(a)
    else match After(a, n - 1)
      case Next(c) => Step(a, c)
      case _ => Fail
  }

  // ----- what a decoder looks at -----

  lemma {:induction false} ExtendedFrame(a: seq<Byte>, b: seq<Byte>, p: nat, v: nat)
    requires |a| == |b| && Extended(a, p, v).Length? && forall i :: p <= i < Extended(a, p, v).next ==> a[i] == b[i]
    ensures Extended(b, p, v) == Extended(a, p, v)
    decreases |a| - p
  {
    if a[p] == 0 { ExtendedFrame(a, b, p + 1, v + 255); }
  }

  /** Parsing an instruction looks at its own bytes only. */
  lemma ParseFrame(a: seq<Byte>, b: seq<Byte>, ip: nat, st: nat)
    requires |a| == |b| && !Parse(a, ip, st).Invalid? && forall i :: ip <= i < Parse(a, ip, st).next ==> a[i] == b[i]
    ensures Parse(b, ip, st) == Parse(a, ip, st)
  {
    hide Extended;
    assert a[ip] == b[ip];
    var t, most := a[ip] % 32, 31;
    if a[ip] < 16 {
      t, most := a[ip], 15;
    } else if a[ip] < 32 {
      t, most := a[ip] % 8, 7;
    }
    if t == 0 && a[ip] < 64 && (a[ip] >= 16 || st == 0) { ExtendedFrame(a, b, ip + 1, most); }
  }

  lemma StepFrame(a: seq<Byte>, b: seq<Byte>, c: Cfg)
    requires |a| == |b| && Step(a, c).Next? && a[c.ip .. Step(a, c).c.ip] == b[c.ip .. Step(a, c).c.ip]
    ensures Step(b, c) == Step(a, c)
  {
    hide Parse, Copy;
    var q := Step(a, c).c.ip;
    forall i | c.ip <= i < q ensures a[i] == b[i] { assert a[c.ip .. q][i - c.ip] == b[c.ip .. q][i - c.ip]; }
    ParseFrame(a, b, c.ip, c.st);
    var p := Parse(a, c.ip, c.st).next;
    assert a[p .. q] == b[p .. q];
  }

  /** Getting to a position looks at the bytes before it only. */
  lemma {:induction false} AfterFrame(a: seq<Byte>, b: seq<Byte>, n: nat)
    requires |a| == |b| && After(a, n).Next? && a[..After(a, n).c.ip] == b[..After(a, n).c.ip]
             && (a[0] <= 17 ==> b[0] <= 17)
    ensures After(b, n) == After(a, n)
  {
    hide Step;
    var q := After(a, n).c.ip;
    if n == 0 {
      assert q > 0 ==> a[..q][0] == b[..q][0];
      assert q > 0 ==> a[1..q] == a[..q][1..] == b[..q][1..] == b[1..q];
    } else {
      var c := After(a, n - 1).c;
      assert a[..c.ip] == a[..q][..c.ip] && b[..c.ip] == b[..q][..c.ip];
      assert a[c.ip .. q] == a[..q][c.ip..] && b[c.ip .. q] == b[..q][c.ip..];
      AfterFrame(a, b, n - 1);
      StepFrame(a, b, c);
    }
  }

  lemma {:induction false} AfterDecode(a: seq<Byte>, n: nat)
    requires After(a, n).Next?
    ensures Decode(a) == DecodeFrom(a, After(a, n).c)
  {
    hide Step;
    if n > 0 { AfterDecode(a, n - 1); }
  }

  /** What comes next looks at the bytes from here on only. */
  lemma {:induction false} DecodeFrame(a: seq<Byte>, b: seq<Byte>, c: Cfg)
    requires |a| == |b| && c.ip <= |a| && a[c.ip..] == b[c.ip..]
    ensures DecodeFrom(a, c) == DecodeFrom(b, c)
    decreases |a| - c.ip
  {
    hide Step;
    StepSuffix(a, b, c);
    if Step(a, c).Next? {
      var q := Step(a, c).c.ip;
      assert a[q..] == a[c.ip..][q - c.ip..] && b[q..] == b[c.ip..][q - c.ip..];
      DecodeFrame(a, b, Step(a, c).c);
    }
  }

  lemma {:induction false} ExtendedSuffix(a: seq<Byte>, b: seq<Byte>, p: nat, v: nat)
    requires |a| == |b| && forall i :: p <= i < |a| ==> a[i] == b[i]
    ensures Extended(b, p, v) == Extended(a, p, v)
    decreases |a| - p
  {
    if p < |a| && a[p] == 0 { ExtendedSuffix(a, b, p + 1, v + 255); }
  }

  lemma StepSuffix(a: seq<Byte>, b: seq<Byte>, c: Cfg)
    requires |a| == |b| && c.ip <= |a| && a[c.ip..] == b[c.ip..]
    ensures Step(a, c) == Step(b, c)
  {
    hide Parse, Copy;
    var ip := c.ip;
    forall i | ip <= i < |a| ensures a[i] == b[i] { assert a[ip..][i - ip] == b[ip..][i - ip]; }
    ParseSuffix(a, b, ip, c.st);
    match Parse(a, ip, c.st)
    case Lits(p, n) => assert p + n <= |a| ==> a[p .. p + n] == b[p .. p + n];
    case Mat(p, _, _, n) => assert p + n <= |a| ==> a[p .. p + n] == b[p .. p + n];
    case _ =>
  }

  lemma ParseSuffix(a: seq<Byte>, b: seq<Byte>, ip: nat, st: nat)
    requires |a| == |b| && forall i :: ip <= i < |a| ==> a[i] == b[i]
    ensures Parse(a, ip, st) == Parse(b, ip, st)
  {
    hide Extended;
    if ip < |a| {
      ExtendedSuffix(a, b, ip + 1, if a[ip] < 16 then 15 else if a[ip] < 32 then 7 else 31);
    }
  }

  /** A match that is not a short one does not depend on what came before it. */
  lemma LongMatch(a: seq<Byte>, c: Cfg, d: Cfg)
    requires c.ip < |a| && a[c.ip] >= 16 && d == c.(st := d.st)
    ensures Step(a, c) == Step(a, d) && DecodeFrom(a, c) == DecodeFrom(a, d)
  {
  }
}
