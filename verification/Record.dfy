/** How a block's tokens are kept: bytes in `l_buf`, distances in `d_buf`, one flag bit per token. */
module Record {
  import opened Arith
  import opened Bits
  import opened Canonical
  import opened HuffInit
  import opened Symbols
  import opened Tallies
  import opened Tokens

  ghost predicate AllOk(toks: seq<Token>) {
    forall i :: 0 <= i < |toks| ==> TokenOk(toks[i])
  }

  /** The byte kept for a token: the literal, or the match length minus `MIN_MATCH`. */
  function Lc(t: Token): (b: Byte)
    requires TokenOk(t)
  {
    match t case Lit(b) => b case Match(len, _) => len - MIN_MATCH
  }

  ghost function Lcs(toks: seq<Token>): (r: seq<Byte>)
    requires AllOk(toks)
    ensures |r| == |toks| && forall i :: 0 <= i < |r| ==> r[i] == Lc(toks[i])
  {
    seq(|toks|, i requires 0 <= i < |toks| => Lc(toks[i]))
  }

  ghost function Marks(toks: seq<Token>): (r: Bits)
    ensures |r| == |toks| && forall i :: 0 <= i < |r| ==> r[i] == toks[i].Match?
  {
    seq(|toks|, i requires 0 <= i < |toks| => toks[i].Match?)
  }

  /** The distances of the matches, minus one. */
  ghost function Dists(toks: seq<Token>): (r: seq<nat>)
    requires AllOk(toks)
    ensures |r| <= |toks| && forall i :: 0 <= i < |r| ==> r[i] < WSIZE
    decreases |toks|
  {
    if toks == [] then []
    else
      var t := toks[|toks| - 1];
      Dists(toks[..|toks| - 1]) + if t.Match? then [t.dist - 1] else []
  }

  lemma DistsStep(toks: seq<Token>, t: Token)
    requires AllOk(toks) && TokenOk(t)
    ensures AllOk(toks + [t]) && Dists(toks + [t]) == Dists(toks) + if t.Match? then [t.dist - 1] else []
  {
    assert (toks + [t])[..|toks|] == toks;
  }

  lemma {:induction false} DistsPrefix(toks: seq<Token>, n: nat)
    requires AllOk(toks) && n < |toks| && toks[n].Match?
    ensures |Dists(toks[..n])| < |Dists(toks)| && Dists(toks)[|Dists(toks[..n])|] == toks[n].dist - 1
    ensures Dists(toks[..n + 1]) == Dists(toks[..n]) + [toks[n].dist - 1]
    decreases |toks|
  {
    assert toks[..n + 1] == toks[..n] + [toks[n]];
    DistsStep(toks[..n], toks[n]);
    if n + 1 < |toks| {
      var rest := toks[..|toks| - 1];
      assert rest[..n] == toks[..n];
      DistsPrefix(rest, n);
    } else {
      assert toks[..n + 1] == toks;
    }
  }

  /** The flags that fill a byte are in `flag_buf`, the others in `flags`. */
  ghost predicate Flagged(toks: seq<Token>, fb: seq<Byte>, lastFlags: nat, flags: nat, flagBit: nat) {
    && lastFlags == |toks| / 8 <= |fb| && flagBit == Pow2(|toks| % 8)
    && (forall k :: 0 <= k < lastFlags ==> fb[k] == LsbValue(Marks(toks)[8 * k .. 8 * k + 8]))
    && flags == LsbValue(Marks(toks)[8 * lastFlags..])
  }

  ghost predicate Recorded(toks: seq<Token>, lb: seq<Byte>, db: seq<nat>, lastLit: nat, lastDist: nat) {
    && AllOk(toks) && |toks| == lastLit <= |lb| && lb[..lastLit] == Lcs(toks)
    && |Dists(toks)| == lastDist <= |db| && db[..lastDist] == Dists(toks)
  }

  lemma LcsStep(toks: seq<Token>, t: Token)
    requires AllOk(toks) && TokenOk(t)
    ensures AllOk(toks + [t]) && Lcs(toks + [t]) == Lcs(toks) + [Lc(t)]
  {
  }

  lemma RecordedStep(toks: seq<Token>, lb: seq<Byte>, db: seq<nat>, lastLit: nat, lastDist: nat, t: Token)
    requires Recorded(toks, lb, db, lastLit, lastDist) && TokenOk(t) && lastLit < |lb| && lastLit < |db|
    ensures lastDist < |db|
    ensures Recorded(toks + [t], lb[lastLit := Lc(t)], if t.Match? then db[lastDist := t.dist - 1] else db,
                     lastLit + 1, if t.Match? then lastDist + 1 else lastDist)
  {
    hide Dists, Lcs, Lc;
    DistsStep(toks, t);
    LcsStep(toks, t);
    var lb' := lb[lastLit := Lc(t)];
    assert lb'[..lastLit + 1] == lb[..lastLit] + [Lc(t)];
    if t.Match? {
      var db' := db[lastDist := t.dist - 1];
      assert db'[..lastDist + 1] == db[..lastDist] + [t.dist - 1];
    } else {
      assert Dists(toks) + [] == Dists(toks);
    }
  }

  lemma {:induction false} LsbAppend(b: Bits, x: bool)
    ensures LsbValue(b + [x]) == LsbValue(b) + if x then Pow2(|b|) else 0
  {
    if b == [] {
      assert b + [x] == [x] && [x][1..] == [];
    } else {
      assert (b + [x])[1..] == b[1..] + [x];
      LsbAppend(b[1..], x);
    }
  }

  lemma {:induction false} SetBit(flags: nat, k: nat)
    requires flags < Pow2(k)
    ensures Or(flags, Pow2(k)) == flags + Pow2(k)
  {
    OrShifted(flags, 1, k);
    ShlOne(k);
  }

  lemma MarksStep(toks: seq<Token>, t: Token)
    ensures Marks(toks + [t]) == Marks(toks) + [t.Match?]
  {
  }

  /** A token sets its flag; the eighth flag of a byte moves the byte to `flag_buf`. */
  lemma FlaggedStep(toks: seq<Token>, fb: seq<Byte>, lastFlags: nat, flags: nat, flagBit: nat, t: Token)
    requires Flagged(toks, fb, lastFlags, flags, flagBit)
    ensures var flags', bit' := if t.Match? then Or(flags, flagBit) else flags, flagBit * 2 % 256;
            flags' < 256 &&
            if (|toks| + 1) % 8 == 0 then
              lastFlags < |fb| ==> Flagged(toks + [t], fb[lastFlags := flags'], lastFlags + 1, 0, 1)
            else Flagged(toks + [t], fb, lastFlags, flags', bit')
  {
    hide Pow2, LsbValue, Or;
    var n, m, m' := |toks|, Marks(toks), Marks(toks + [t]);
    var part := m[8 * lastFlags..];
    var flags' := if t.Match? then Or(flags, flagBit) else flags;
    MarksStep(toks, t);
    assert m'[8 * lastFlags..] == part + [t.Match?];
    LsbAppend(part, t.Match?);
    SetBit(flags, n % 8);
    assert flags' == LsbValue(part + [t.Match?]);
    Pow2Mono(n % 8 + 1, 8);
    Pow2Consts();
    assert forall k :: 0 <= k < lastFlags ==> m'[8 * k .. 8 * k + 8] == m[8 * k .. 8 * k + 8];
    if (n + 1) % 8 == 0 {
      assert m'[8 * lastFlags .. 8 * lastFlags + 8] == part + [t.Match?];
      LsbNone(m', 8 * (lastFlags + 1));
    } else {
      DoubleBit(n % 8);
    }
  }

  lemma LsbNone(m: Bits, k: nat)
    requires k == |m|
    ensures LsbValue(m[k..]) == 0 && Pow2(0) == 1
  {
  }

  lemma DoubleBit(k: nat)
    requires k < 7
    ensures Pow2(k) * 2 % 256 == Pow2(k + 1) && Pow2(0) == 1
  {
    Pow2Mono(k + 1, 7);
    Pow2Consts();
  }

  /** All flags are in `flag_buf`. */
  ghost predicate Packed(toks: seq<Token>, fb: seq<Byte>) {
    (|toks| + 7) / 8 <= |fb| &&
    forall k :: 0 <= 8 * k < |toks| ==>
      fb[k] == LsbValue(Marks(toks)[8 * k .. if 8 * k + 8 <= |toks| then 8 * k + 8 else |toks|])
  }

  lemma PackedLast(toks: seq<Token>, fb: seq<Byte>, lastFlags: nat, flags: nat, flagBit: nat)
    requires Flagged(toks, fb, lastFlags, flags, flagBit) && lastFlags < |fb|
    ensures flags < 256 && Packed(toks, fb[lastFlags := flags])
  {
    hide Pow2, LsbValue;
    Pow2Mono(|toks| % 8, 8);
    Pow2Consts();
    var m := Marks(toks);
    assert m[8 * lastFlags..] == m[8 * lastFlags .. |toks|];
  }

  // ----- frequencies -----

  /** The symbol of a token in the literal and length alphabet. */
  function LSym(t: Token): (s: nat)
    requires TokenOk(t)
    ensures s <= L_CODES
  {
    match t case Lit(b) => b case Match(len, _) => LITERALS + 1 + LengthCode(len)
  }

  /** The literal and length symbols of a block, with its end. */
  ghost function LSyms(toks: seq<Token>): (r: seq<nat>)
    requires AllOk(toks)
    ensures |r| == |toks| + 1
  {
    [END_BLOCK] + seq(|toks|, i requires 0 <= i < |toks| => LSym(toks[i]))
  }

  ghost function DSyms(toks: seq<Token>): (r: seq<nat>)
    requires AllOk(toks)
    ensures |r| <= |toks|
    decreases |toks|
  {
    if toks == [] then []
    else
      var t := toks[|toks| - 1];
      DSyms(toks[..|toks| - 1]) + if t.Match? then [DistCode(t.dist)] else []
  }

  lemma LSymBelow(t: Token)
    requires TokenOk(t)
    ensures LSym(t) < L_CODES && (t.Match? ==> DistCode(t.dist) < D_CODES)
  {
    match t
    case Lit(_) =>
    case Match(len, dist) =>
      LengthCodeOk(len);
      DistCodeOk(dist);
  }

  lemma SymsStep(toks: seq<Token>, t: Token)
    requires AllOk(toks) && TokenOk(t)
    ensures AllOk(toks + [t]) && LSyms(toks + [t]) == LSyms(toks) + [LSym(t)]
    ensures DSyms(toks + [t]) == DSyms(toks) + if t.Match? then [DistCode(t.dist)] else []
  {
    hide LSym, DistCode;
    assert (toks + [t])[..|toks|] == toks;
  }

  ghost predicate Frequent(toks: seq<Token>, lt: seq<CtData>, dt: seq<CtData>) {
    && AllOk(toks) && Below(LSyms(toks), L_CODES) && Below(DSyms(toks), D_CODES)
    && L_CODES <= |lt| && D_CODES <= |dt|
    && Freqs(lt, L_CODES) == Tally(LSyms(toks), L_CODES) && Freqs(dt, D_CODES) == Tally(DSyms(toks), D_CODES)
  }

  function Bumped(t: seq<CtData>, s: nat): (r: seq<CtData>)
    requires s < |t|
  {
    t[s := t[s].(fc := t[s].fc + 1)]
  }

  lemma FrequentStep(toks: seq<Token>, lt: seq<CtData>, dt: seq<CtData>, t: Token)
    requires Frequent(toks, lt, dt) && TokenOk(t)
    ensures LSym(t) < L_CODES && (t.Match? ==> DistCode(t.dist) < D_CODES)
    ensures Frequent(toks + [t], Bumped(lt, LSym(t)), if t.Match? then Bumped(dt, DistCode(t.dist)) else dt)
  {
    hide LSym, DistCode, LSyms, DSyms, Tally;
    LSymBelow(t);
    SymsStep(toks, t);
    TallyOne(LSyms(toks), LSym(t), L_CODES);
    if t.Match? {
      TallyOne(DSyms(toks), DistCode(t.dist), D_CODES);
    } else {
      assert DSyms(toks) + [] == DSyms(toks);
    }
  }
}
