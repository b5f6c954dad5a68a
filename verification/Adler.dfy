/** `lzo_adler32`: the checksum of section 2.2 of RFC 1950, with the modulus taken only once
    every 5552 bytes. */
module Adler {
  import opened Arith

  const BASE: nat := 65521
  const NMAX: nat := 5552

  /** The two sums, reduced after every byte. */
  datatype Sums = Sums(s1: nat, s2: nat)

  function AddByte(s: Sums, b: Byte): (r: Sums) {
    var s1 := (s.s1 + b) % BASE;
    Sums(s1, (s.s2 + s1) % BASE)
  }

  function AddAll(s: Sums, buf: seq<Byte>): (r: Sums)
    decreases |buf|
  {
    if buf == [] then s else AddByte(AddAll(s, buf[..|buf| - 1]), buf[|buf| - 1])
  }

  /** The checksum of `buf` that goes on from the checksum `adler`. */
  function Checksum(adler: nat, buf: seq<Byte>): (r: nat) {
    var s := AddAll(Sums(adler % 65536, adler / 65536), buf);
    s.s2 * 65536 + s.s1
  }

  lemma {:induction false} AddAllAppend(s: Sums, a: seq<Byte>, b: seq<Byte>)
    ensures AddAll(s, a + b) == AddAll(AddAll(s, a), b)
    decreases |b|
  {
    if b == [] {
      assert a + b == a;
    } else {
      assert (a + b)[..|a + b| - 1] == a + b[..|b| - 1];
      AddAllAppend(s, a, b[..|b| - 1]);
    }
  }

  lemma {:induction false} SumsSmall(s: Sums, buf: seq<Byte>)
    requires s.s1 < 65536 && s.s2 < 65536
    ensures AddAll(s, buf).s1 < 65536 && AddAll(s, buf).s2 < 65536
    ensures buf != [] ==> AddAll(s, buf).s1 < BASE && AddAll(s, buf).s2 < BASE
    decreases |buf|
  {
    if buf != [] { SumsSmall(s, buf[..|buf| - 1]); }
  }

  /** The checksum of a whole is the checksum of its end gone on from that of its beginning. */
  lemma ChecksumAppend(adler: nat, a: seq<Byte>, b: seq<Byte>)
    requires adler < TWO32
    ensures Checksum(Checksum(adler, a), b) == Checksum(adler, a + b) && Checksum(adler, a) < TWO32
  {
    hide AddAll;
    var s := Sums(adler % 65536, adler / 65536);
    SumsSmall(s, a);
    AddAllAppend(s, a, b);
    var t := AddAll(s, a);
    assert (t.s2 * 65536 + t.s1) % 65536 == t.s1 && (t.s2 * 65536 + t.s1) / 65536 == t.s2;
  }

  // ----- without the modulus -----

  /** The most `s2` can be after `k` bytes without a reduction. */
  function Most(k: nat): (r: nat) {
    if k == 0 then 65535 else Most(k - 1) + 65535 + 255 * k
  }

  lemma {:induction false} MostIs(k: nat)
    ensures 2 * Most(k) == 131070 * (k + 1) + 255 * (k * (k + 1))
  {
    if k > 0 {
      MostIs(k - 1);
      assert k * (k + 1) == (k - 1) * k + 2 * k;
    }
  }

  lemma {:induction false} MostMono(i: nat, k: nat)
    requires i <= k
    ensures Most(i) <= Most(k)
  {
    if i < k { MostMono(i, k - 1); }
  }

  /** No sum overflows 32 bits within a chunk, whatever the 16-bit sums it starts from; and the
      bound stated for reduced sums fails for any longer chunk. */
  lemma ChunkFits(k: nat)
    ensures k <= NMAX ==> Most(k) < TWO32
    ensures 255 * k * (k + 1) / 2 + (k + 1) * (BASE - 1) <= TWO32 - 1 <==> k <= NMAX
  {
    if k <= NMAX {
      MostMono(k, NMAX);
      MostIs(NMAX);
      Grows(k, NMAX);
    } else {
      Grows(NMAX + 1, k);
    }
  }

  lemma Grows(a: nat, b: nat)
    requires a <= b
    ensures 255 * a * (a + 1) / 2 + (a + 1) * (BASE - 1) <= 255 * b * (b + 1) / 2 + (b + 1) * (BASE - 1)
  {
    MulMono(a, b, 255 * a);
    assert a * (a + 1) <= b * (b + 1) by { MulMono(a + 1, b + 1, a); MulMono(a, b, b + 1); }
    assert 255 * a * (a + 1) == 255 * (a * (a + 1)) && 255 * b * (b + 1) == 255 * (b * (b + 1));
  }

  lemma ModAdd(a: nat, b: nat, c: nat)
    requires a % BASE == b % BASE
    ensures (a + c) % BASE == (b + c) % BASE
  {
  }

  /** One more byte, with and without the modulus. */
  lemma Congruent(s1: nat, s2: nat, m: Sums, b: Byte)
    requires s1 % BASE == m.s1 % BASE && s2 % BASE == m.s2 % BASE
    ensures var r := AddByte(m, b); (s1 + b) % BASE == r.s1 && (s2 + (s1 + b)) % BASE == r.s2
  {
    ModAdd(s1, m.s1, b);
    ModAdd(s2, m.s2, s1 + b);
    ModAdd(s1 + b, (m.s1 + b) % BASE, m.s2);
  }

  /** The unreduced sums stand for the reduced ones. */
  ghost predicate Tracks(t1: nat, t2: nat, m: Sums) {
    t1 % BASE == m.s1 % BASE && t2 % BASE == m.s2 % BASE
  }

  /** Addition of 32-bit numbers. */
  function Add32(a: nat, b: nat): (r: nat)
    ensures a + b < TWO32 ==> r == a + b
  {
    (a + b) % TWO32
  }

  lemma TracksStep(t1: nat, t2: nat, m: Sums, b: Byte)
    requires Tracks(t1, t2, m)
    ensures Tracks(t1 + b, t2 + (t1 + b), AddByte(m, b))
  {
    Congruent(t1, t2, m, b);
  }

  lemma TracksEnd(t1: nat, t2: nat, m: Sums, b: Byte)
    requires Tracks(t1, t2, AddByte(m, b))
    ensures Sums(t1 % BASE, t2 % BASE) == AddByte(m, b)
  {
  }

  lemma NeverOver(i: nat)
    requires 1 <= i <= NMAX
    ensures Most(i) < TWO32 && Most(i) == Most(i - 1) + 65535 + 255 * i
  {
    hide Most;
    NextMost(i);
    ChunkFits(i);
  }

  /** The loops of the source in 32-bit arithmetic: `k` bytes, and one reduction after them. */
  method AddChunk(s1: nat, s2: nat, buf: array<Byte>, from: nat, k: nat, ghost s: Sums) returns (t1: nat, t2: nat)
    requires s1 < 65536 && s2 < 65536 && 1 <= k <= NMAX && from + k <= buf.Length
             && Tracks(s1, s2, AddAll(s, buf[..from]))
    ensures Sums(t1, t2) == AddAll(s, buf[..from + k])
  {
    hide Most, AddAll, AddByte, Tracks, Add32;
    t1, t2 := s1, s2;
    var i := 0;
    StartMost();
    while true
      invariant 0 <= i < k && t1 <= 65535 + 255 * i && t2 <= Most(i) && Tracks(t1, t2, AddAll(s, buf[..from + i]))
      decreases k - i
    {
      var b := buf[from + i];
      ghost var m := AddAll(s, buf[..from + i]);
      AddAllOne(s, buf[..], from + i);
      TracksStep(t1, t2, m, b);
      NeverOver(i + 1);
      t1 := Add32(t1, b);
      t2 := Add32(t2, t1);
      i := i + 1;
      if i == k {
        TracksEnd(t1, t2, m, b);
        break;
      }
    }
    t1, t2 := t1 % BASE, t2 % BASE;
  }

  lemma StartMost()
    ensures Most(0) == 65535
  {
  }

  lemma NextMost(k: nat)
    requires k >= 1
    ensures Most(k) == Most(k - 1) + 65535 + 255 * k
  {
  }

  lemma AddAllOne(s: Sums, buf: seq<Byte>, i: nat)
    requires i < |buf|
    ensures AddAll(s, buf[..i + 1]) == AddByte(AddAll(s, buf[..i]), buf[i])
    ensures AddByte(AddAll(s, buf[..i]), buf[i]).s1 < BASE && AddByte(AddAll(s, buf[..i]), buf[i]).s2 < BASE
  {
    assert buf[..i + 1][..i] == buf[..i];
  }

  /** `lzo_adler32`: the checksum of the format, from any 32-bit value; 1 without a buffer. */
  method Adler32(adler: nat, buf: array?<Byte>, len: nat) returns (r: nat)
    requires adler < TWO32 && (buf != null ==> len <= buf.Length)
    ensures buf == null ==> r == 1
    ensures buf != null ==> r == Checksum(adler, buf[..len])
  {
    hide AddAll;
    var s1: nat, s2: nat := adler % 65536, adler / 65536;
    if buf == null { return 1; }
    ghost var s := Sums(s1, s2);
    var left, at := len, 0;
    assert AddAll(s, buf[..0]) == s by { AddNone(s, buf[..0]); }
    while left > 0
      invariant 0 <= left <= len && at == len - left && Sums(s1, s2) == AddAll(s, buf[..at]) && s1 < 65536 && s2 < 65536
    {
      var k := if left < NMAX then left else NMAX;
      left := left - k;
      SameTracks(s1, s2);
      s1, s2 := AddChunk(s1, s2, buf, at, k, s);
      at := at + k;
      SumsSmall(s, buf[..at]);
    }
    r := s2 * 65536 + s1;
  }

  lemma SameTracks(s1: nat, s2: nat)
    ensures Tracks(s1, s2, Sums(s1, s2))
  {
  }

  lemma AddNone(s: Sums, buf: seq<Byte>)
    requires buf == []
    ensures AddAll(s, buf) == s
  {
  }

  // ----- the modulus -----

  ghost predicate Composite(n: nat) { exists a: nat, b: nat :: 2 <= a && 2 <= b && Product(a, b) == n }

  function Product(a: nat, b: nat): (r: nat) { a * b }

  lemma FirstDivisors(k: nat, c: nat)
    requires 2 <= k < 53
    ensures Product(k, c) != 65521
  {
    assert k == 2 || k == 3 || k == 4 || k == 5 || k == 6 || k == 7 || k == 8 || k == 9 || k == 10 ||
           k == 11 || k == 12 || k == 13 || k == 14 || k == 15 || k == 16 || k == 17 || k == 18 || k == 19 ||
           k == 20 || k == 21 || k == 22 || k == 23 || k == 24 || k == 25 || k == 26 || k == 27 || k == 28 ||
           k == 29 || k == 30 || k == 31 || k == 32 || k == 33 || k == 34 || k == 35 || k == 36 || k == 37 ||
           k == 38 || k == 39 || k == 40 || k == 41 || k == 42 || k == 43 || k == 44 || k == 45 || k == 46 ||
           k == 47 || k == 48 || k == 49 || k == 50 || k == 51 || k == 52;
  }

  lemma SecondDivisors(k: nat, c: nat)
    requires 53 <= k < 104
    ensures Product(k, c) != 65521
  {
    assert k == 53 || k == 54 || k == 55 || k == 56 || k == 57 || k == 58 || k == 59 || k == 60 || k == 61 ||
           k == 62 || k == 63 || k == 64 || k == 65 || k == 66 || k == 67 || k == 68 || k == 69 || k == 70 ||
           k == 71 || k == 72 || k == 73 || k == 74 || k == 75 || k == 76 || k == 77 || k == 78 || k == 79 ||
           k == 80 || k == 81 || k == 82 || k == 83 || k == 84 || k == 85 || k == 86 || k == 87 || k == 88 ||
           k == 89 || k == 90 || k == 91 || k == 92 || k == 93 || k == 94 || k == 95 || k == 96 || k == 97 ||
           k == 98 || k == 99 || k == 100 || k == 101 || k == 102 || k == 103;
  }

  lemma ThirdDivisors(k: nat, c: nat)
    requires 104 <= k < 155
    ensures Product(k, c) != 65521
  {
    assert k == 104 || k == 105 || k == 106 || k == 107 || k == 108 || k == 109 || k == 110 || k == 111 || k == 112 ||
           k == 113 || k == 114 || k == 115 || k == 116 || k == 117 || k == 118 || k == 119 || k == 120 || k == 121 ||
           k == 122 || k == 123 || k == 124 || k == 125 || k == 126 || k == 127 || k == 128 || k == 129 || k == 130 ||
           k == 131 || k == 132 || k == 133 || k == 134 || k == 135 || k == 136 || k == 137 || k == 138 || k == 139 ||
           k == 140 || k == 141 || k == 142 || k == 143 || k == 144 || k == 145 || k == 146 || k == 147 || k == 148 ||
           k == 149 || k == 150 || k == 151 || k == 152 || k == 153 || k == 154;
  }

  lemma FourthDivisors(k: nat, c: nat)
    requires 155 <= k < 206
    ensures Product(k, c) != 65521
  {
    assert k == 155 || k == 156 || k == 157 || k == 158 || k == 159 || k == 160 || k == 161 || k == 162 || k == 163 ||
           k == 164 || k == 165 || k == 166 || k == 167 || k == 168 || k == 169 || k == 170 || k == 171 || k == 172 ||
           k == 173 || k == 174 || k == 175 || k == 176 || k == 177 || k == 178 || k == 179 || k == 180 || k == 181 ||
           k == 182 || k == 183 || k == 184 || k == 185 || k == 186 || k == 187 || k == 188 || k == 189 || k == 190 ||
           k == 191 || k == 192 || k == 193 || k == 194 || k == 195 || k == 196 || k == 197 || k == 198 || k == 199 ||
           k == 200 || k == 201 || k == 202 || k == 203 || k == 204 || k == 205;
  }

  lemma FifthDivisors(k: nat, c: nat)
    requires 206 <= k < 256
    ensures Product(k, c) != 65521
  {
    assert k == 206 || k == 207 || k == 208 || k == 209 || k == 210 || k == 211 || k == 212 || k == 213 || k == 214 ||
           k == 215 || k == 216 || k == 217 || k == 218 || k == 219 || k == 220 || k == 221 || k == 222 || k == 223 ||
           k == 224 || k == 225 || k == 226 || k == 227 || k == 228 || k == 229 || k == 230 || k == 231 || k == 232 ||
           k == 233 || k == 234 || k == 235 || k == 236 || k == 237 || k == 238 || k == 239 || k == 240 || k == 241 ||
           k == 242 || k == 243 || k == 244 || k == 245 || k == 246 || k == 247 || k == 248 || k == 249 || k == 250 ||
           k == 251 || k == 252 || k == 253 || k == 254 || k == 255;
  }

  lemma NoDivisor(k: nat, c: nat)
    requires 2 <= k && 2 <= c
    ensures Product(k, c) != 65521
  {
    hide Product;
    if k < 256 {
      NoSmallDivisor(k, c);
    } else if c < 256 {
      NoSmallDivisor(c, k);
      Swapped(k, c);
    } else {
      TooLarge(k, c);
    }
  }

  lemma NoSmallDivisor(k: nat, c: nat)
    requires 2 <= k < 256
    ensures Product(k, c) != 65521
  {
    hide Product;
    if k < 53 {
      FirstDivisors(k, c);
    } else if k < 104 {
      SecondDivisors(k, c);
    } else if k < 155 {
      ThirdDivisors(k, c);
    } else if k < 206 {
      FourthDivisors(k, c);
    } else {
      FifthDivisors(k, c);
    }
  }

  lemma Swapped(a: nat, b: nat)
    ensures Product(a, b) == Product(b, a)
  {
  }

  lemma TooLarge(a: nat, b: nat)
    requires a >= 256 && b >= 256
    ensures Product(a, b) >= 65536
  {
  }

  lemma Composites(n: nat)
    requires 65521 < n < 65536
    ensures Composite(n)
  {
    assert Product(2, 32761) == 65522 && Product(3, 21841) == 65523 && Product(2, 32762) == 65524;
    assert Product(5, 13105) == 65525 && Product(2, 32763) == 65526 && Product(7, 9361) == 65527;
    assert Product(2, 32764) == 65528 && Product(3, 21843) == 65529 && Product(2, 32765) == 65530;
    assert Product(19, 3449) == 65531 && Product(2, 32766) == 65532 && Product(13, 5041) == 65533;
    assert Product(2, 32767) == 65534 && Product(3, 21845) == 65535;
  }

  /** The modulus is the largest prime below 65536. */
  lemma LargestPrime(n: nat)
    requires 2 <= n < 65536
    ensures !Composite(BASE) && (n > BASE ==> Composite(n))
  {
    hide Product;
    forall a: nat, b: nat | 2 <= a && 2 <= b ensures Product(a, b) != BASE { NoDivisor(a, b); }
    if n > BASE { Composites(n); }
  }

  /** The checksum of "abc" is 0x024d0127. */
  lemma KnownChecksum()
    ensures Checksum(1, [97, 98, 99]) == 0x024d0127
  {
    var s: seq<Byte> := [97, 98, 99];
    assert s[..2] == [97, 98] && s[..2][..1] == [97] && s[..1][..0] == [];
    assert AddAll(Sums(1, 0), []) == Sums(1, 0);
    assert AddAll(Sums(1, 0), [97]) == Sums(98, 98);
    assert AddAll(Sums(1, 0), [97, 98]) == Sums(196, 294);
    assert AddAll(Sums(1, 0), s) == Sums(295, 589);
  }
}
