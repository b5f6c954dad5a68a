/** What the tokens of a block and the bits sent have to do with the text that was read. */
module DeflateText {
  import opened Arith
  import opened Bits
  import opened BlockForms
  import opened Flush
  import opened Inflate
  import opened StoredFits
  import opened Symbols
  import opened Tokens
  import opened Window

  // ----- tokens -----

  /** The text at `p` repeats the text `dist` bytes before. */
  ghost predicate TextMatch(text: seq<Byte>, p: nat, len: nat, dist: int) {
    1 <= dist <= p && p + len <= |text| && text[p - dist .. p - dist + len] == text[p .. p + len]
  }

  /** A match that may be sent: in range, and near enough if it is short. */
  ghost predicate Usable(text: seq<Byte>, p: nat, len: nat, dist: int) {
    && MIN_MATCH <= len <= MAX_MATCH && dist <= MAX_DIST && (len == MIN_MATCH ==> dist <= TOO_FAR)
    && TextMatch(text, p, len, dist)
  }

  /** The tokens of the block that starts at `from` stand for the text up to `p`. */
  ghost predicate Spells(text: seq<Byte>, from: nat, toks: seq<Token>, p: nat) {
    from <= p <= |text| && AllNear(toks) && Expand(text[..from], toks) == Text(text[..p])
  }

  lemma SpellsMatch(text: seq<Byte>, from: nat, toks: seq<Token>, p: nat, len: nat, dist: nat)
    requires Spells(text, from, toks, p) && Usable(text, p, len, dist)
    ensures Spells(text, from, toks + [Match(len, dist)], p + len)
  {
    hide Expand;
    ExpandAppend(text[..from], toks, [Match(len, dist)]);
    ExpandOne(text[..p], Match(len, dist));
    forall i | p <= i < p + len ensures text[i] == text[i - dist] {
      assert text[p .. p + len][i - p] == text[p - dist .. p - dist + len][i - p];
    }
    CopyMatch(text, p, len, dist);
  }

  lemma SpellsLiteral(text: seq<Byte>, from: nat, toks: seq<Token>, p: nat)
    requires Spells(text, from, toks, p) && p < |text|
    ensures Spells(text, from, toks + [Lit(text[p])], p + 1)
  {
    hide Expand;
    ExpandAppend(text[..from], toks, [Lit(text[p])]);
    ExpandOne(text[..p], Lit(text[p]));
  }

  /** More text behind does not matter. */
  lemma SpellsMore(text: seq<Byte>, text': seq<Byte>, from: nat, toks: seq<Token>, p: nat)
    requires Spells(text, from, toks, p) && text <= text'
    ensures Spells(text', from, toks, p)
  {
    hide Expand;
    assert text'[..from] == text[..from] && text'[..p] == text[..p];
  }

  lemma SpellsNone(text: seq<Byte>, p: nat)
    requires p <= |text|
    ensures Spells(text, p, [], p)
  {
    ExpandNone(text[..p], []);
  }

  lemma UsableMore(text: seq<Byte>, text': seq<Byte>, p: nat, len: nat, dist: int)
    requires Usable(text, p, len, dist) && text <= text'
    ensures Usable(text', p, len, dist)
  {
    assert text'[p - dist .. p - dist + len] == text[p - dist .. p - dist + len]
           && text'[p .. p + len] == text[p .. p + len];
  }

  lemma SpellsStands(text: seq<Byte>, from: nat, toks: seq<Token>, p: nat)
    requires Spells(text, from, toks, p)
    ensures StandsFor(toks, text[..from], text[from..p])
  {
    hide Expand, AllNear;
    assert text[..from] + text[from..p] == text[..p];
  }

  // ----- bits -----

  /** A decoder that starts at `start` gets to the end of `sent` with the text `out`. */
  ghost predicate Leads(sent: Bits, start: nat, out: seq<Byte>) {
    forall bits :: sent <= bits ==> InflateFrom(bits, start, []) == InflateFrom(bits, |sent|, out)
  }

  lemma LeadsStart(sent: Bits)
    ensures Leads(sent, |sent|, [])
  {
  }

  lemma Behind(bits: Bits, sent: Bits, b: Bits)
    requires sent + b <= bits
    ensures sent <= bits && At(bits, |sent|, b)
  {
    assert bits[..|sent|] == (sent + b)[..|sent|];
    assert bits[|sent| .. |sent| + |b|] == (sent + b)[|sent|..];
  }

  lemma LeadsOn(sent: Bits, start: nat, out: seq<Byte>, b: Bits, text: seq<Byte>)
    requires Leads(sent, start, out) && Means(b, |sent|, false, out, text)
    ensures Leads(sent + b, start, text)
  {
    hide ReadBlock, At;
    forall bits | sent + b <= bits ensures InflateFrom(bits, start, []) == InflateFrom(bits, |sent + b|, text) {
      Behind(bits, sent, b);
    }
  }

  /** A decoder that starts at `start` gets the text and stops at `next`, whatever follows. */
  ghost predicate Decodes(sent: Bits, start: nat, text: seq<Byte>, next: nat) {
    forall bits :: sent <= bits ==> InflateFrom(bits, start, []) == Data(text, next)
  }

  lemma LeadsEnd(sent: Bits, start: nat, out: seq<Byte>, b: Bits, text: seq<Byte>, all: Bits)
    requires Leads(sent, start, out) && Means(b, |sent|, true, out, text) && sent + b <= all
    ensures Decodes(all, start, text, |sent| + |b|)
  {
    hide ReadBlock, At;
    forall bits | all <= bits ensures InflateFrom(bits, start, []) == Data(text, |sent| + |b|) {
      PrefixAll(sent + b, all, bits);
      Behind(bits, sent, b);
    }
  }

  lemma PrefixAll(a: Bits, b: Bits, c: Bits)
    requires a <= b <= c
    ensures a <= c
  {
  }
}
