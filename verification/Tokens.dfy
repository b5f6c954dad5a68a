/** The strings a block encodes: literals and references to earlier text, and the text
    they stand for. */
module Tokens {
  import opened Arith
  import opened Symbols

  datatype Token = Lit(b: Byte) | Match(len: nat, dist: nat)

  /** The ranges the format can express. */
  predicate TokenOk(t: Token) {
    t.Match? ==> MIN_MATCH <= t.len <= MAX_MATCH && 1 <= t.dist <= WSIZE
  }

  /** `len` bytes copied one by one from `dist` bytes back: a copy may overlap itself. */
  function Copy(out: seq<Byte>, len: nat, dist: nat): (r: seq<Byte>)
    requires 1 <= dist <= |out|
    ensures |r| == |out| + len && out <= r
    decreases len
  {
    if len == 0 then out else Copy(out + [out[|out| - dist]], len - 1, dist)
  }

  datatype Text = Bad | Text(out: seq<Byte>)

  /** The text after one more token; a reference before the start of the text is refused. */
  function Expand1(out: seq<Byte>, t: Token): (r: Text) {
    match t
    case Lit(b) => Text(out + [b])
    case Match(len, dist) => if 1 <= dist <= |out| then Text(Copy(out, len, dist)) else Bad
  }

  function Expand(out: seq<Byte>, toks: seq<Token>): (r: Text)
    decreases |toks|
  {
    if toks == [] then Text(out)
    else match Expand1(out, toks[0])
      case Bad => Bad
      case Text(o) => Expand(o, toks[1..])
  }

  lemma {:induction false} ExpandAppend(out: seq<Byte>, a: seq<Token>, b: seq<Token>)
    ensures Expand(out, a + b) == if Expand(out, a).Text? then Expand(Expand(out, a).out, b) else Bad
    decreases |a|
  {
    if a == [] {
      assert a + b == b;
    } else {
      assert (a + b)[0] == a[0] && (a + b)[1..] == a[1..] + b;
      match Expand1(out, a[0])
      case Bad =>
      case Text(o) => ExpandAppend(o, a[1..], b);
    }
  }

  /** A reference to a match in a text copies the text: `len` equal bytes at a distance `dist`
      reproduce themselves, overlapping or not. */
  lemma {:induction false} CopyMatch(s: seq<Byte>, p: nat, len: nat, dist: nat)
    requires p + len <= |s| && 1 <= dist <= p
    requires forall i :: p <= i < p + len ==> s[i] == s[i - dist]
    ensures Copy(s[..p], len, dist) == s[..p + len]
    decreases len
  {
    if len > 0 {
      assert s[..p][p - dist] == s[p];
      assert s[..p] + [s[p]] == s[..p + 1];
      CopyMatch(s, p + 1, len - 1, dist);
    }
  }
}
