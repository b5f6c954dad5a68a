/** LZO1X from the other side: how instructions are written as bytes. What is written for any list of
    instructions decodes to the text that the instructions make. */
module LzoWrite {
  import opened Arith
  import opened Lzo
  import opened Tokens

  /** A literal run, or a match with up to three literals behind it. Short matches come behind literals:
      one of two bytes behind few, one of three bytes behind a run. */
  datatype Instruction =
    | Run(lits: seq<Byte>)
    | Near(len: nat, dist: nat, lits: seq<Byte>)
    | Middle(len: nat, dist: nat, lits: seq<Byte>)
    | Far(len: nat, dist: nat, lits: seq<Byte>)
    | Two(dist: nat, lits: seq<Byte>)
    | Three(dist: nat, lits: seq<Byte>)

  /** What can be written where the decoder is in the state `st`. */
  predicate Writable(i: Instruction, st: nat) {
    match i
    case Run(lits) => st == 0 && |lits| >= 4
    case Near(len, dist, lits) => 3 <= len <= 8 && 1 <= dist <= 2048 && |lits| <= 3
    case Middle(len, dist, lits) => 3 <= len && 1 <= dist <= 16384 && |lits| <= 3
    case Far(len, dist, lits) => 3 <= len && 16385 <= dist <= 49151 && |lits| <= 3
    case Two(dist, lits) => 1 <= st <= 3 && 1 <= dist <= 1024 && |lits| <= 3
    case Three(dist, lits) => st == 4 && 2049 <= dist <= 3072 && |lits| <= 3
  }

  function Byte8(v: int): (b: Byte) { v % 256 }

  /** A length above `most`: zeros that stand for 255 each, and the rest. */
  function More(v: nat, most: nat): (s: seq<Byte>)
    requires v > most
  {
    var w := v - most - 1;
    seq(w / 255, _ => 0) + [Byte8(w % 255 + 1)]
  }

  /** An opcode with a length in its low bits, or with zeros there and the length behind it. */
  function Opcode(code: nat, v: nat, most: nat): (s: seq<Byte>) {
    if v <= most then [Byte8(code + v)] else [Byte8(code)] + More(v, most)
  }

  /** Fourteen bits of a distance and a count of literals, the low part first. */
  function Pair(d: nat, n: nat): (s: seq<Byte>) { [Byte8(4 * (d % 64) + n), Byte8(d / 64)] }

  function Written(i: Instruction): (s: seq<Byte>) {
    match i
    case Run(lits) => Opcode(0, if |lits| >= 4 then |lits| - 3 else 0, 15)
    case Near(len, dist, lits) =>
      [Byte8(32 * (len - 1) + 4 * ((dist - 1) % 8) + |lits|), Byte8((dist - 1) / 8)]
    case Middle(len, dist, lits) =>
      Opcode(32, if len >= 2 then len - 2 else 0, 31) + Pair(if dist > 0 then dist - 1 else 0, |lits|)
    case Far(len, dist, lits) =>
      var d := if dist >= 16384 then dist - 16384 else 0;
      Opcode(if d < 16384 then 16 else 24, if len >= 2 then len - 2 else 0, 7) + Pair(d % 16384, |lits|)
    case Two(dist, lits) => [Byte8(4 * ((dist - 1) % 4) + |lits|), Byte8((dist - 1) / 4)]
    case Three(dist, lits) => [Byte8(4 * ((dist - 2049) % 4) + |lits|), Byte8((dist - 2049) / 4)]
  }

  function Bytes(i: Instruction): (s: seq<Byte>) { Written(i) + i.lits }

  // ----- what instructions make -----

  function MatchLen(i: Instruction): (n: nat) {
    match i case Near(len, _, _) => len case Middle(len, _, _) => len case Far(len, _, _) => len
    case Two(_, _) => 2 case Three(_, _) => 3 case Run(_) => 0
  }

  predicate Applies(i: Instruction, out: seq<Byte>) { i.Run? || 1 <= i.dist <= |out| }

  function NextText(i: Instruction, out: seq<Byte>): (r: seq<Byte>)
    requires Applies(i, out)
  {
    if i.Run? then out + i.lits else Copy(out, MatchLen(i), i.dist) + i.lits
  }

  function NextState(i: Instruction): (st: nat) { if i.Run? then 4 else |i.lits| }

  ghost predicate AllWritable(ins: seq<Instruction>, st: nat, out: seq<Byte>)
    decreases |ins|
  {
    ins == [] ||
    (Writable(ins[0], st) && Applies(ins[0], out) && AllWritable(ins[1..], NextState(ins[0]), NextText(ins[0], out)))
  }

  ghost function TextOf(ins: seq<Instruction>, st: nat, out: seq<Byte>): (r: seq<Byte>)
    requires AllWritable(ins, st, out)
    decreases |ins|
  {
    if ins == [] then out else TextOf(ins[1..], NextState(ins[0]), NextText(ins[0], out))
  }

  function AllBytes(ins: seq<Instruction>): (s: seq<Byte>) {
    if ins == [] then [] else Bytes(ins[0]) + AllBytes(ins[1..])
  }

  /** Literals before the first instruction. */
  function Head(lits: seq<Byte>): (s: seq<Byte>) { if lits == [] then [] else [Byte8(17 + |lits|)] + lits }

  const END: seq<Byte> := [17, 0, 0]

  function Stream(lits: seq<Byte>, ins: seq<Instruction>): (s: seq<Byte>) { Head(lits) + AllBytes(ins) + END }

  // ----- lengths -----

  /** The bytes `w` are at `p`. */
  ghost predicate There(a: seq<Byte>, p: nat, w: seq<Byte>) {
    p + |w| <= |a| && forall j :: p <= j < p + |w| ==> a[j] == w[j - p]
  }

  lemma ThereSplit(a: seq<Byte>, p: nat, v: seq<Byte>, w: seq<Byte>)
    requires There(a, p, v + w)
    ensures There(a, p, v) && There(a, p + |v|, w)
  {
    forall j | p <= j < p + |v| ensures a[j] == v[j - p] { assert a[j] == (v + w)[j - p]; }
    forall j | p + |v| <= j < p + |v| + |w| ensures a[j] == w[j - p - |v|] { assert a[j] == (v + w)[j - p]; }
  }

  lemma {:induction false} ZerosRead(a: seq<Byte>, p: nat, v: nat, n: nat)
    requires p + n < |a| && a[p + n] != 0 && forall j :: p <= j < p + n ==> a[j] == 0
    ensures Extended(a, p, v) == Length(v + 255 * n + a[p + n], p + n + 1)
    decreases n
  {
    if n > 0 { ZerosRead(a, p + 1, v + 255, n - 1); }
  }

  lemma MoreRead(a: seq<Byte>, p: nat, v: nat, most: nat)
    requires v > most && There(a, p, More(v, most))
    ensures Extended(a, p, most) == Length(v, p + |More(v, most)|)
  {
    hide Extended;
    var w := v - most - 1;
    var n, s := w / 255, More(v, most);
    assert |s| == n + 1 && s[n] == w % 255 + 1;
    forall j | p <= j < p + n ensures a[j] == 0 { assert s[j - p] == 0; }
    assert a[p + n] == s[n];
    ZerosRead(a, p, most, n);
  }

  /** A length in an opcode is read back. */
  lemma OpcodeRead(a: seq<Byte>, p: nat, code: nat, v: nat, most: nat)
    requires 1 <= v && code + most < 256 && There(a, p, Opcode(code, v, most))
    ensures p < |a| && a[p] == (if v <= most then code + v else code)
    ensures ReadLength(a, p + 1, a[p] - code, most) == Length(v, p + |Opcode(code, v, most)|)
  {
    hide Extended, More;
    assert a[p] == Opcode(code, v, most)[0];
    if v > most {
      ThereSplit(a, p, [Byte8(code)], More(v, most));
      MoreRead(a, p + 1, v, most);
    }
  }

  lemma PairRead(a: seq<Byte>, p: nat, d: nat, n: nat)
    requires d < 16384 && n <= 3 && There(a, p, Pair(d, n))
    ensures p + 2 <= |a| && Offset(a, p) == d && a[p] % 4 == n
  {
    assert a[p] == Pair(d, n)[0] && a[p + 1] == Pair(d, n)[1];
    PairBytes(d % 64, n);
    assert d == d % 64 + 64 * (d / 64) && a[p + 1] == d / 64;
  }

  lemma PairBytes(x: nat, n: nat)
    requires x < 64 && n <= 3
    ensures var t := 4 * x + n; t < 256 && t / 4 == x && t % 4 == n
  {
  }

  // ----- one instruction -----

  /** What the parser makes of an instruction. */
  function Parsed(i: Instruction, p: nat): (r: Ins) {
    if i.Run? then Lits(p + |Written(i)|, |i.lits|) else Mat(p + |Written(i)|, MatchLen(i), i.dist, |i.lits|)
  }

  lemma RunParses(a: seq<Byte>, p: nat, i: Instruction)
    requires i.Run? && Writable(i, 0) && There(a, p, Written(i))
    ensures Parse(a, p, 0) == Parsed(i, p)
  {
    hide Opcode, Extended;
    OpcodeRead(a, p, 0, |i.lits| - 3, 15);
  }

  lemma NearParses(a: seq<Byte>, p: nat, i: Instruction, st: nat)
    requires i.Near? && Writable(i, st) && There(a, p, Written(i))
    ensures Parse(a, p, st) == Parsed(i, p)
  {
    var t := 32 * (i.len - 1) + 4 * ((i.dist - 1) % 8) + |i.lits|;
    NearByte(i.len, (i.dist - 1) % 8, |i.lits|);
    assert a[p] == Written(i)[0] && a[p + 1] == Written(i)[1];
    assert a[p] == t && a[p + 1] == (i.dist - 1) / 8;
  }

  lemma NearByte(len: nat, d: nat, n: nat)
    requires 3 <= len <= 8 && d < 8 && n < 4
    ensures var t := 32 * (len - 1) + 4 * d + n; 64 <= t < 256 && t / 32 + 1 == len && t / 4 % 8 == d && t % 4 == n
  {
    var t := 32 * (len - 1) + 4 * d + n;
    assert t % 4 == n && t / 4 == 8 * (len - 1) + d;
    assert t / 32 == len - 1;
  }

  lemma MiddleParses(a: seq<Byte>, p: nat, i: Instruction, st: nat)
    requires i.Middle? && Writable(i, st) && There(a, p, Written(i))
    ensures Parse(a, p, st) == Parsed(i, p)
  {
    hide Opcode, Pair, Extended, Offset, ReadLength;
    var op := Opcode(32, i.len - 2, 31);
    ThereSplit(a, p, op, Pair(i.dist - 1, |i.lits|));
    OpcodeRead(a, p, 32, i.len - 2, 31);
    PairRead(a, p + |op|, i.dist - 1, |i.lits|);
    assert 32 <= a[p] < 64 && a[p] % 32 == a[p] - 32;
    PairSize(i.dist - 1, |i.lits|);
  }

  lemma PairSize(d: nat, n: nat)
    ensures |Pair(d, n)| == 2
  {
  }

  lemma FarParses(a: seq<Byte>, p: nat, i: Instruction, st: nat)
    requires i.Far? && Writable(i, st) && There(a, p, Written(i))
    ensures Parse(a, p, st) == Parsed(i, p)
  {
    hide Opcode, Pair, Extended, Offset, ReadLength;
    var d := i.dist - 16384;
    var code := if d < 16384 then 16 else 24;
    var op := Opcode(code, i.len - 2, 7);
    assert d == 16384 * (d / 16384) + d % 16384 && d / 16384 == if d < 16384 then 0 else 1;
    ThereSplit(a, p, op, Pair(d % 16384, |i.lits|));
    OpcodeRead(a, p, code, i.len - 2, 7);
    PairRead(a, p + |op|, d % 16384, |i.lits|);
    FarByte(a[p], code);
    PairSize(d % 16384, |i.lits|);
  }

  lemma FarByte(t: Byte, code: nat)
    requires (code == 16 || code == 24) && code <= t < code + 8
    ensures 16 <= t < 32 && t % 8 == t - code && t / 8 % 2 == if code == 16 then 0 else 1
  {
  }

  lemma ShortParses(a: seq<Byte>, p: nat, i: Instruction, st: nat)
    requires (i.Two? || i.Three?) && Writable(i, st) && There(a, p, Written(i))
    ensures Parse(a, p, st) == Parsed(i, p)
  {
    hide Opcode, Pair, Extended, ReadLength, ParseM2, ParseM3, ParseM4;
    var d := if i.Two? then i.dist - 1 else i.dist - 2049;
    assert a[p] == Written(i)[0] && a[p + 1] == Written(i)[1];
    ShortByte(d, |i.lits|);
  }

  lemma ShortByte(d: nat, n: nat)
    requires d < 1024 && n < 4
    ensures var t, u := 4 * (d % 4) + n, d / 4;
            t < 16 && t / 4 + 4 * u == d && t % 4 == n && Byte8(t) == t && Byte8(u) == u
  {
    assert (4 * (d % 4) + n) / 4 == d % 4;
  }

  /** Every instruction is read back from its bytes. */
  lemma InstructionParses(a: seq<Byte>, p: nat, i: Instruction, st: nat)
    requires Writable(i, st) && There(a, p, Written(i))
    ensures Parse(a, p, st) == Parsed(i, p)
  {
    hide Parse, Parsed, Written;
    match i {
      case Run(_) => RunParses(a, p, i);
      case Near(_, _, _) => NearParses(a, p, i, st);
      case Middle(_, _, _) => MiddleParses(a, p, i, st);
      case Far(_, _, _) => FarParses(a, p, i, st);
      case Two(_, _) => ShortParses(a, p, i, st);
      case Three(_, _) => ShortParses(a, p, i, st);
    }
  }

  /** One step of the decoder does what the instruction says. */
  lemma InstructionSteps(a: seq<Byte>, p: nat, i: Instruction, st: nat, out: seq<Byte>)
    requires Writable(i, st) && Applies(i, out) && There(a, p, Bytes(i))
    ensures Step(a, Cfg(p, st, out)) == Next(Cfg(p + |Bytes(i)|, NextState(i), NextText(i, out)))
  {
    hide Parse, Written, Writable, Copy;
    ThereSplit(a, p, Written(i), i.lits);
    InstructionParses(a, p, i, st);
    var q := p + |Written(i)|;
    assert a[q .. q + |i.lits|] == i.lits;
  }

  // ----- a whole stream -----

  lemma EndStops(a: seq<Byte>, p: nat, st: nat, out: seq<Byte>)
    requires There(a, p, END)
    ensures Step(a, Cfg(p, st, out)) == Halt(p + 3)
  {
    assert a[p] == END[0] && a[p + 1] == END[1] && a[p + 2] == END[2];
  }

  lemma {:induction false} InstructionsDecode(a: seq<Byte>, p: nat, ins: seq<Instruction>, st: nat, out: seq<Byte>)
    requires AllWritable(ins, st, out) && There(a, p, AllBytes(ins) + END)
    ensures DecodeFrom(a, Cfg(p, st, out)) == Done(TextOf(ins, st, out), p + |AllBytes(ins)| + 3)
    decreases |ins|
  {
    hide Step, Bytes, Writable, Applies, There;
    if ins == [] {
      assert [] + END == END;
      EndStops(a, p, st, out);
    } else {
      var i := ins[0];
      assert AllBytes(ins) + END == Bytes(i) + (AllBytes(ins[1..]) + END);
      ThereSplit(a, p, Bytes(i), AllBytes(ins[1..]) + END);
      InstructionSteps(a, p, i, st, out);
      InstructionsDecode(a, p + |Bytes(i)|, ins[1..], NextState(i), NextText(i, out));
    }
  }

  /** The state that the literals at the start leave behind. */
  function HeadState(lits: seq<Byte>): (st: nat) { if |lits| < 4 then |lits| else 4 }

  lemma HeadStarts(lits: seq<Byte>, ins: seq<Instruction>)
    requires |lits| <= 238 && AllWritable(ins, HeadState(lits), lits)
    ensures Start(Stream(lits, ins)) == Next(Cfg(|Head(lits)|, HeadState(lits), lits))
  {
    hide AllBytes, AllWritable;
    var a := Stream(lits, ins);
    if lits != [] {
      assert a[0] == 17 + |lits|;
      assert a[1 .. 1 + |lits|] == lits;
    } else {
      assert a == AllBytes(ins) + END;
      FirstByte(ins);
    }
  }

  /** Without literals at the start only a literal run can come first. */
  lemma FirstByte(ins: seq<Instruction>)
    requires AllWritable(ins, 0, [])
    ensures (AllBytes(ins) + END)[0] <= 17
  {
    hide AllBytes, More, TextOf, Copy;
    if ins == [] {
      NoBytes();
    } else {
      var i := ins[0];
      assert i.Run?;
      FirstBytes(ins);
      assert |Written(i)| >= 1 && Written(i)[0] <= 15;
    }
  }

  lemma NoBytes()
    ensures AllBytes([]) == [] && (AllBytes([]) + END)[0] == 17
  {
  }

  lemma FirstBytes(ins: seq<Instruction>)
    requires ins != []
    ensures AllBytes(ins) == Bytes(ins[0]) + AllBytes(ins[1..])
  {
  }

  /** What is written for any list of instructions decodes to the text they make, and the decoder stops
      at its end. */
  lemma StreamDecodes(lits: seq<Byte>, ins: seq<Instruction>)
    requires |lits| <= 238 && AllWritable(ins, HeadState(lits), lits)
    ensures Decode(Stream(lits, ins)) == Done(TextOf(ins, HeadState(lits), lits), |Stream(lits, ins)|)
  {
    hide AllBytes, DecodeFrom, AllWritable, TextOf, Head;
    var a, p := Stream(lits, ins), |Head(lits)|;
    HeadStarts(lits, ins);
    assert a == Head(lits) + (AllBytes(ins) + END);
    assert There(a, 0, Head(lits) + (AllBytes(ins) + END));
    ThereSplit(a, 0, Head(lits), AllBytes(ins) + END);
    InstructionsDecode(a, p, ins, HeadState(lits), lits);
  }

  /** Nine literals and a match of three bytes, nine back. */
  lemma KnownStream()
    ensures Decode([26, 97, 98, 99, 100, 101, 102, 103, 104, 105, 64, 1, 17, 0, 0])
         == Done([97, 98, 99, 100, 101, 102, 103, 104, 105, 97, 98, 99], 15)
  {
    hide Decode;
    var lits: seq<Byte> := [97, 98, 99, 100, 101, 102, 103, 104, 105];
    var i := Near(3, 9, []);
    assert Bytes(i) == [64, 1] && [i][1..] == [] && AllBytes([]) == [];
    assert AllBytes([i]) == [64, 1];
    assert Stream(lits, [i]) == [26, 97, 98, 99, 100, 101, 102, 103, 104, 105, 64, 1, 17, 0, 0];
    assert AllWritable([], 0, NextText(i, lits));
    assert AllWritable([i], 4, lits);
    StreamDecodes(lits, [i]);
    assert Copy(lits, 1, 9) == lits + [97];
    assert Copy(lits, 2, 9) == lits + [97, 98];
    assert Copy(lits, 3, 9) == lits + [97, 98, 99];
    assert TextOf([i], 4, lits) == NextText(i, lits);
  }
}
