/** A stored block is chosen only when its length fits the 16-bit length field. */
module StoredFits {
  import opened Arith
  import opened Bits
  import opened BlockCode
  import opened Canonical
  import opened Inflate
  import opened Record
  import opened StaticTrees
  import opened Symbols
  import opened Tokens

  const TOO_FAR: nat := 4096

  /** Shortest matches are not too far back. */
  predicate Near(t: Token) {
    t.Match? && t.len == MIN_MATCH ==> t.dist <= TOO_FAR
  }

  ghost predicate AllNear(toks: seq<Token>) {
    forall i :: 0 <= i < |toks| ==> Near(toks[i])
  }

  lemma ShortLength(c: nat)
    requires c < LENGTH_CODES && LENGTHS[c] <= 4
    ensures c <= 1 && EXTRA_LBITS[c] == 0
  {
  }

  lemma NearDist(c: nat)
    requires c < D_CODES && DISTS[c] <= TOO_FAR
    ensures EXTRA_DBITS[c] <= 10
  {
  }

  lemma SomeExtra(c: nat)
    ensures c < LENGTH_CODES ==> EXTRA_LBITS[c] <= 5
    ensures c < D_CODES ==> EXTRA_DBITS[c] <= 13
  {
  }

  lemma LengthSize(len: nat)
    requires MIN_MATCH <= len <= MAX_MATCH
    ensures Coded(FixedLit(), 257 + LengthCode(len))
    ensures |LengthBits(FixedLit(), len)| <= if len <= 4 then 7 else 13
  {
    hide LengthCode, FixedLit, LsbBits, Code;
    LengthCodeOk(len);
    var c := LengthCode(len);
    FixedAt(257 + c);
    SomeExtra(c);
    if len <= 4 { ShortLength(c); }
  }

  lemma DistSize(dist: nat)
    requires 1 <= dist <= WSIZE
    ensures Coded(FixedDist(), DistCode(dist))
    ensures |DistBits(FixedDist(), dist)| <= if dist <= TOO_FAR then 15 else 18
  {
    hide DistCode, LsbBits, Code;
    DistCodeOk(dist);
    SomeExtra(DistCode(dist));
    if dist <= TOO_FAR { NearDist(DistCode(dist)); }
  }

  /** The bytes a token stands for. */
  function Size(t: Token): (n: nat) {
    match t case Lit(_) => 1 case Match(len, _) => len
  }

  lemma TokenSize(t: Token)
    requires TokenOk(t) && Near(t) && Codable(FixedLit(), FixedDist(), t)
    ensures |TokenBits(FixedLit(), FixedDist(), t)| <= 7 * Size(t) + 2
  {
    hide LengthCode, DistCode, LengthBits, DistBits, FixedLit, FixedDist, Code;
    match t
    case Lit(b) => FixedAt(b);
    case Match(len, dist) =>
      LengthSize(len);
      DistSize(dist);
  }

  ghost function TextSize(toks: seq<Token>): (n: nat)
    decreases |toks|
  {
    if toks == [] then 0 else TextSize(toks[..|toks| - 1]) + Size(toks[|toks| - 1])
  }

  lemma {:induction false} ExpandSize(out: seq<Byte>, toks: seq<Token>)
    requires Expand(out, toks).Text?
    ensures |Expand(out, toks).out| == |out| + TextSize(toks)
    decreases |toks|
  {
    hide Expand, Copy;
    if toks == [] {
      ExpandNone(out, toks);
    } else {
      var rest, t := toks[..|toks| - 1], toks[|toks| - 1];
      assert toks == rest + [t];
      ExpandAppend(out, rest, [t]);
      ExpandSize(out, rest);
      ExpandOne(Expand(out, rest).out, t);
    }
  }

  lemma ExpandNone(out: seq<Byte>, toks: seq<Token>)
    requires toks == []
    ensures Expand(out, toks) == Text(out)
  {
  }

  lemma ExpandOne(out: seq<Byte>, t: Token)
    ensures Expand(out, [t]) == Expand1(out, t)
  {
    assert [t][1..] == [];
  }

  lemma {:induction false} DataSize(toks: seq<Token>)
    requires AllOk(toks) && AllNear(toks) && AllCodable(FixedLit(), FixedDist(), toks)
    ensures |DataBits(FixedLit(), FixedDist(), toks)| <= 7 * TextSize(toks) + 2 * |toks|
    decreases |toks|
  {
    hide Codable, TokenBits, FixedLit, FixedDist, Size;
    if toks != [] {
      DataSize(toks[..|toks| - 1]);
      TokenSize(toks[|toks| - 1]);
    }
  }

  /** If storing the block is no longer than the static form, it has fewer than 64K bytes. */
  lemma StoredIsShort(toks: seq<Token>, out: seq<Byte>, data: seq<Byte>)
    requires AllOk(toks) && AllNear(toks) && AllCodable(FixedLit(), FixedDist(), toks) && Coded(FixedLit(), END_BLOCK)
    requires Expand(out, toks) == Text(out + data) && |toks| < 32768
    requires |data| + 4 <= (|DataBits(FixedLit(), FixedDist(), toks)| + |Code(FixedLit(), END_BLOCK)| + 3 + 7) / 8
    ensures |data| <= 65519
  {
    hide Expand, DataBits, AllCodable, FixedLit, FixedDist;
    DataSize(toks);
    ExpandSize(out, toks);
    FixedAt(END_BLOCK);
  }
}
