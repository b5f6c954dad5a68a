/** Searching an open-addressed table along a probe sequence. */
module OpenTable {
  import opened Arith
  import opened Probe

  /** Where a key's probe sequence starts, and its step. */
  datatype Hash = Hash(start: nat, dec: nat)

  predicate HashOk(h: Hash, p: nat) {
    h.start < p && 1 <= h.dec < p
  }

  function At(h: Hash, p: nat, i: nat): (r: nat)
    requires HashOk(h, p)
    ensures r < p
  {
    Addr(h.start, h.dec, p, i)
  }

  /** An `unsigned long` of 64 bits. */
  function Wrap64(x: nat): (r: nat) {
    x % (TWO32 * TWO32)
  }

  /** One step of the hash: two neighbouring characters, shifted by an amount that depends on
      the position. */
  function Mix(h: nat, c: char, before: char, i: nat): (r: nat) {
    Wrap64(h + Shl(c as int + before as int, (c as int * i) % 24))
  }

  function HashNum(key: string): (r: nat) {
    if key == "" then 0
    else if |key| == 1 then Wrap64(key[0] as int)
    else
      var i := |key| - 1;
      Mix(HashNum(key[..i]), key[i], key[i - 1], i)
  }

  /** The probe sequence of a key in a table of `p` slots. */
  function HashOf(key: string, p: nat): (h: Hash)
    requires p >= 2
    ensures HashOk(h, p)
  {
    Reduce(HashNum(key), p)
  }

  /** The start is taken from the low 32 bits, the step from all of them. */
  function Reduce(n: nat, p: nat): (h: Hash)
    requires p >= 2
    ensures HashOk(h, p)
  {
    Hash(n % TWO32 % p, 1 + n % (p - 1))
  }

  /** `make_hash`. */
  method MakeHash(key: string, p: nat) returns (start: nat, dec: nat)
    requires p >= 2
    ensures Hash(start, dec) == HashOf(key, p)
  {
    hide Mix, Wrap64, Reduce;
    var hashNum: nat := if key == "" then 0 else Wrap64(key[0] as int);
    var i := 1;
    assert key != "" ==> key[..1] == [key[0]];
    while i < |key|
      invariant 1 <= i && if key == "" then hashNum == 0 else i <= |key| && hashNum == HashNum(key[..i])
    {
      assert key[..i + 1][..i] == key[..i];
      hashNum := Mix(hashNum, key[i], key[i - 1], i);
      i := i + 1;
    }
    assert key != "" ==> key[..i] == key;
    var h := Reduce(hashNum, p);
    start, dec := h.start, h.dec;
  }

  /** The next probe: a step down, around the end of the table. */
  function Down(a: nat, dec: nat, p: nat): (r: nat)
    requires a < p && 1 <= dec < p
    ensures r < p
  {
    if a >= dec then a - dec else a + p - dec
  }

  lemma AtNext(h: Hash, p: nat, i: nat)
    requires HashOk(h, p)
    ensures At(h, p, i + 1) == Down(At(h, p, i), h.dec, p)
  {
  }

  /** All slots before probe `i` are taken. */
  ghost predicate TakenBefore(taken: seq<bool>, h: Hash, p: nat, i: nat)
    requires HashOk(h, p) && p <= |taken|
  {
    forall j :: 0 <= j < i ==> taken[At(h, p, j)]
  }

  /** Slot `x` is where a search can get to: all slots on the way are taken. */
  ghost predicate OnPath(taken: seq<bool>, h: Hash, p: nat, x: nat)
    requires HashOk(h, p) && p <= |taken|
  {
    exists i :: 0 <= i && At(h, p, i) == x && TakenBefore(taken, h, p, i)
  }

  /** A search that has not stopped before probe `i`: every slot so far was taken by something else. */
  ghost predicate Searching(taken: seq<bool>, hit: seq<bool>, h: Hash, p: nat, i: nat)
    requires HashOk(h, p) && p <= |taken| == |hit|
  {
    forall j :: 0 <= j < i ==> taken[At(h, p, j)] && !hit[At(h, p, j)]
  }

  /** A search that stops at a free slot has missed nothing. */
  lemma Missed(taken: seq<bool>, hit: seq<bool>, h: Hash, p: nat, i: nat, x: nat)
    requires HashOk(h, p) && p <= |taken| == |hit| && x < p && Searching(taken, hit, h, p, i) && !taken[At(h, p, i)]
    requires OnPath(taken, h, p, x) && taken[x]
    ensures !hit[x]
  {
    hide At;
    var k :| 0 <= k && At(h, p, k) == x && TakenBefore(taken, h, p, k);
    assert k <= i;
  }

  /** The slot a search stops at is on the path of its key. */
  lemma Reached(taken: seq<bool>, hit: seq<bool>, h: Hash, p: nat, i: nat)
    requires HashOk(h, p) && p <= |taken| == |hit| && Searching(taken, hit, h, p, i)
    ensures OnPath(taken, h, p, At(h, p, i))
  {
    hide At;
    assert TakenBefore(taken, h, p, i);
  }

  /** Taking more slots keeps every path. */
  lemma PathStays(taken: seq<bool>, taken': seq<bool>, h: Hash, p: nat, x: nat)
    requires HashOk(h, p) && p <= |taken| == |taken'| && OnPath(taken, h, p, x)
    requires forall y :: 0 <= y < |taken| && taken[y] ==> taken'[y]
    ensures OnPath(taken', h, p, x)
  {
    hide At;
    var i :| 0 <= i && At(h, p, i) == x && TakenBefore(taken, h, p, i);
    assert TakenBefore(taken', h, p, i);
  }

  /** A search that could stop somewhere does so within `p` probes. */
  lemma StopsInTime(taken: seq<bool>, hit: seq<bool>, h: Hash, p: nat, i: nat, slot: nat)
    requires Prime(p) && HashOk(h, p) && p <= |taken| == |hit| && slot < p && (!taken[slot] || hit[slot])
    requires Searching(taken, hit, h, p, i)
    ensures i < p
  {
    hide Prime;
    var k := AllVisited(h.start, h.dec, p, slot);
    assert At(h, p, k) == slot;
  }

  /** A search ends if and only if some slot is free or holds what is searched for. */
  lemma SearchEnds(taken: seq<bool>, hit: seq<bool>, h: Hash, p: nat)
    requires Prime(p) && HashOk(h, p) && p <= |taken| == |hit|
    ensures (exists i :: 0 <= i && !Searching(taken, hit, h, p, i)) <==>
              (exists x :: 0 <= x < p && (!taken[x] || hit[x]))
  {
    hide Prime;
    if x :| 0 <= x < p && (!taken[x] || hit[x]) {
      if Searching(taken, hit, h, p, p) { StopsInTime(taken, hit, h, p, p, x); }
    }
    if i :| 0 <= i && !Searching(taken, hit, h, p, i) {
      var j :| 0 <= j < i && (!taken[At(h, p, j)] || hit[At(h, p, j)]);
      var x := At(h, p, j);
      assert 0 <= x < p && (!taken[x] || hit[x]);
    }
  }
}
