/** What the programs read: a sequence of pieces. */
module Input {
  import opened Arith

  /** What is still to be read: each element is what one `read` delivers, if there is room for
      it; an empty one, or none, is the end of the input or an error. */
  ghost function Remaining(chunks: seq<seq<Byte>>): (r: seq<Byte>)
    decreases |chunks|
  {
    if chunks == [] || chunks[0] == [] then [] else chunks[0] + Remaining(chunks[1..])
  }

  /** `safe_read`: at most `size` bytes, and none only at the end. */
  method SafeRead(chunks: seq<seq<Byte>>, size: nat) returns (s: seq<Byte>, rest: seq<seq<Byte>>)
    requires size >= 1
    ensures |s| <= size && s + Remaining(rest) == Remaining(chunks)
    ensures s == [] ==> Remaining(chunks) == []
  {
    if chunks == [] || chunks[0] == [] {
      return [], [];
    }
    if |chunks[0]| <= size {
      return chunks[0], chunks[1..];
    }
    s, rest := chunks[0][..size], [chunks[0][size..]] + chunks[1..];
    assert rest[1..] == chunks[1..];
    assert s + (rest[0] + Remaining(chunks[1..])) == s + rest[0] + Remaining(chunks[1..]);
    assert s + rest[0] == chunks[0];
  }

  /** `full_read`: however the pieces split the input, as much of it as there is room for, and less
      only at the end. */
  method FullRead(chunks: seq<seq<Byte>>, size: nat) returns (s: seq<Byte>, rest: seq<seq<Byte>>)
    ensures s + Remaining(rest) == Remaining(chunks)
    ensures |s| == if size < |Remaining(chunks)| then size else |Remaining(chunks)|
  {
    hide Remaining;
    s, rest := [], chunks;
    while |s| < size
      invariant |s| <= size && s + Remaining(rest) == Remaining(chunks)
      decreases size - |s|
    {
      var more, left := SafeRead(rest, size - |s|);
      if more == [] { return; }
      assert s + (more + Remaining(left)) == s + more + Remaining(left);
      s, rest := s + more, left;
    }
  }
}
