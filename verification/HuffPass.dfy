/** The accounting behind `gen_bitlen`'s first pass. The nodes of the tree are visited
    fathers first; what a father has not yet handed on to its sons is kept as a potential. */
module HuffPass {
  import opened Arith

  /** The part of a father's potential that `j` visited-down-to nodes leave to hand on:
      its sons stand at the positions `2u` and `2u + 1`, which are visited downwards. */
  function Share(full: nat, half: nat, j: nat, u: nat): (r: nat) {
    if j >= 2 * u + 2 then full else if j == 2 * u + 1 then half else 0
  }

  /** Potentials per internal node: all of it, and what one son leaves of it. */
  datatype Pot = Pot(p: seq<nat>, full: seq<nat>, half: seq<nat>)

  /** `idx[u]` is the position of internal node `u`; the positions from `j` on are visited. */
  ghost predicate PotInv(q: Pot, idx: seq<nat>, j: nat) {
    && |q.p| == |q.full| == |q.half| == |idx|
    && forall u :: 0 <= u < |idx| ==> q.p[u] == if idx[u] >= j then Share(q.full[u], q.half[u], j, u) else 0
  }

  /** The potentials after the visit of position `j - 1`, a son of `u`: internal node `v`, or a leaf if `v == |idx|`. */
  ghost function PotNext(q: Pot, idx: seq<nat>, j: nat, u: nat, v: nat, fv: nat, hv: nat): (r: Pot)
    requires |q.p| == |q.full| == |q.half| == |idx| && u < |idx| && v <= |idx| && j >= 1
  {
    var p := q.p[u := Share(q.full[u], q.half[u], j - 1, u)];
    if v < |idx| then Pot(p[v := fv], q.full[v := fv], q.half[v := hv]) else q.(p := p)
  }

  /** Position `j - 1` is a son of `u`; it holds the internal node `v`, or a leaf if `v == |idx|`. */
  ghost predicate Visit(idx: seq<nat>, j: nat, u: nat, v: nat) {
    && j >= 1 && u == (j - 1) / 2 && u < |idx| && idx[u] >= j && v <= |idx|
    && (v < |idx| ==> idx[v] == j - 1 && 2 * v + 1 < j - 1)
    && forall w :: 0 <= w < |idx| && w != v ==> idx[w] != j - 1
  }

  lemma PotStep(q: Pot, idx: seq<nat>, j: nat, u: nat, v: nat, fv: nat, hv: nat)
    requires PotInv(q, idx, j) && Visit(idx, j, u, v)
    ensures PotInv(PotNext(q, idx, j, u, v, fv, hv), idx, j - 1)
    ensures Sum(PotNext(q, idx, j, u, v, fv, hv).p) + Share(q.full[u], q.half[u], j, u) ==
            Sum(q.p) + Share(q.full[u], q.half[u], j - 1, u) + (if v < |idx| then fv else 0)
  {
    var s := Share(q.full[u], q.half[u], j - 1, u);
    var p := q.p[u := s];
    SumUpdate(q.p, u, s);
    if v < |idx| {
      assert v != u && p[v] == 0;
      SumUpdate(p, v, fv);
    }
    var r := PotNext(q, idx, j, u, v, fv, hv);
    forall w | 0 <= w < |idx|
      ensures r.p[w] == if idx[w] >= j - 1 then Share(r.full[w], r.half[w], j - 1, w) else 0
    {
      if w != u && w != v {
        assert r.p[w] == q.p[w] && r.full[w] == q.full[w] && r.half[w] == q.half[w];
      }
    }
  }

  /** When everything is visited nothing is left. */
  lemma PotEnd(q: Pot, idx: seq<nat>)
    requires PotInv(q, idx, 0)
    ensures Sum(q.p) == 0
  {
    SumZero(q.p);
  }

  /** The visits start at the root, node `k - 1`, at position `2k`. */
  ghost function PotStart(k: nat, f: nat, h: nat): (q: Pot)
    requires k >= 1
  {
    var z := seq(k, _ => 0);
    Pot(z[k - 1 := f], z[k - 1 := f], z[k - 1 := h])
  }

  lemma PotStarts(k: nat, f: nat, h: nat, idx: seq<nat>)
    requires k >= 1 && |idx| == k && idx[k - 1] == 2 * k
    requires forall u :: 0 <= u < k - 1 ==> idx[u] < 2 * k
    ensures PotInv(PotStart(k, f, h), idx, 2 * k) && Sum(PotStart(k, f, h).p) == f
  {
    var z := seq(k, _ => 0);
    SumZero(z);
    SumUpdate(z, k - 1, f);
  }

  // ----- the Kraft sum of the clamped lengths -----

  /** The clamped length of a son. */
  function Clamped(father: nat, max: nat): (b: nat) {
    if father + 1 > max then max else father + 1
  }

  /** An internal node of length `il[u]` holds the room of its two sons, in units of
      `2^-(max + 1)`; clamped sons take more room than there is. */
  ghost predicate Rooms(c: Pot, il: seq<nat>, idx: seq<nat>, j: nat, max: nat) {
    && PotInv(c, idx, j) && |il| == |idx|
    && forall u :: 0 <= u < |idx| && idx[u] >= j ==>
         (il[u] <= max && c.full[u] == Pow2(max + 1 - il[u]) && c.half[u] == Pow2(max - il[u]))
  }

  ghost function NextRooms(c: Pot, idx: seq<nat>, j: nat, u: nat, v: nat, b: nat, max: nat): (r: Pot)
    requires |c.p| == |c.full| == |c.half| == |idx| && u < |idx| && v <= |idx| && j >= 1 && b <= max
  {
    PotNext(c, idx, j, u, v, Pow2(max + 1 - b), Pow2(max - b))
  }

  /** The lengths of the internal nodes after the visit. */
  ghost function NextLens(il: seq<nat>, v: nat, b: nat): (r: seq<nat>)
    requires v <= |il|
    ensures |r| == |il|
  {
    if v < |il| then il[v := b] else il
  }

  lemma RoomsStep(c: Pot, il: seq<nat>, idx: seq<nat>, j: nat, u: nat, v: nat, max: nat)
    requires Rooms(c, il, idx, j, max) && Visit(idx, j, u, v) && max >= 1
    ensures var b := Clamped(il[u], max);
            Rooms(NextRooms(c, idx, j, u, v, b, max), NextLens(il, v, b), idx, j - 1, max)
  {
    var b := Clamped(il[u], max);
    PotStep(c, idx, j, u, v, Pow2(max + 1 - b), Pow2(max - b));
    var r, il' := NextRooms(c, idx, j, u, v, b, max), NextLens(il, v, b);
    forall w | 0 <= w < |idx| && idx[w] >= j - 1
      ensures il'[w] <= max && r.full[w] == Pow2(max + 1 - il'[w]) && r.half[w] == Pow2(max - il'[w])
    {
      if w != v {
        assert idx[w] >= j && il'[w] == il[w] && r.full[w] == c.full[w] && r.half[w] == c.half[w];
      }
    }
  }

  /** The room in use, plus the room still held, is the room there was plus one unit for
      each clamped node. */
  lemma RoomsBalance(c: Pot, il: seq<nat>, idx: seq<nat>, j: nat, u: nat, v: nat, max: nat)
    requires Rooms(c, il, idx, j, max) && Visit(idx, j, u, v) && max >= 1
    ensures var b := Clamped(il[u], max);
            Sum(NextRooms(c, idx, j, u, v, b, max).p) + (if v == |idx| then Pow2(max + 1 - b) else 0)
              == Sum(c.p) + (if il[u] == max then 1 else 0)
  {
    var l, b := il[u], Clamped(il[u], max);
    PotStep(c, idx, j, u, v, Pow2(max + 1 - b), Pow2(max - b));
    assert Pow2(max + 1 - l) == 2 * Pow2(max - l);
    assert Pow2(0) == 1 && Pow2(1) == 2;
  }

  // ----- the leaves at the maximal length -----

  /** An internal node at the maximal length still has this many sons to be clamped. */
  ghost predicate Deep(e: Pot, il: seq<nat>, idx: seq<nat>, j: nat, max: nat) {
    && PotInv(e, idx, j) && |il| == |idx|
    && forall u :: 0 <= u < |idx| && idx[u] >= j ==>
         (e.full[u] == (if il[u] == max then 2 else 0) && e.half[u] == (if il[u] == max then 1 else 0))
  }

  ghost function NextDeep(e: Pot, idx: seq<nat>, j: nat, u: nat, v: nat, b: nat, max: nat): (r: Pot)
    requires |e.p| == |e.full| == |e.half| == |idx| && u < |idx| && v <= |idx| && j >= 1
  {
    PotNext(e, idx, j, u, v, if b == max then 2 else 0, if b == max then 1 else 0)
  }

  lemma DeepStep(e: Pot, il: seq<nat>, idx: seq<nat>, j: nat, u: nat, v: nat, max: nat)
    requires Deep(e, il, idx, j, max) && Visit(idx, j, u, v)
    ensures var b := Clamped(il[u], max);
            && Deep(NextDeep(e, idx, j, u, v, b, max), NextLens(il, v, b), idx, j - 1, max)
            && Sum(NextDeep(e, idx, j, u, v, b, max).p) + (if v == |idx| && b == max then 2 else 0)
                 >= Sum(e.p) + (if il[u] == max then 1 else 0)
  {
    var b := Clamped(il[u], max);
    PotStep(e, idx, j, u, v, if b == max then 2 else 0, if b == max then 1 else 0);
  }

  // ----- the cost of the unclamped lengths -----

  /** An internal node holds its length once for each symbol of the sons to come; `fc[u]`
      and `first[u]` are the frequencies of the node and of its first son. */
  ghost predicate Costs(g: Pot, il: seq<nat>, idx: seq<nat>, j: nat, fc: seq<nat>, first: seq<nat>) {
    && PotInv(g, idx, j) && |il| == |idx| == |fc| == |first|
    && forall u :: 0 <= u < |idx| && idx[u] >= j ==>
         (g.full[u] == fc[u] * il[u] && g.half[u] == first[u] * il[u])
  }

  ghost function NextCosts(g: Pot, idx: seq<nat>, j: nat, u: nat, v: nat, b: nat, fc: seq<nat>,
                           first: seq<nat>): (r: Pot)
    requires |g.p| == |g.full| == |g.half| == |idx| == |fc| == |first| && u < |idx| && v <= |idx| && j >= 1
  {
    PotNext(g, idx, j, u, v, if v < |idx| then fc[v] * b else 0, if v < |idx| then first[v] * b else 0)
  }

  lemma CostsStep(g: Pot, il: seq<nat>, idx: seq<nat>, j: nat, u: nat, v: nat, fc: seq<nat>, first: seq<nat>)
    requires Costs(g, il, idx, j, fc, first) && Visit(idx, j, u, v)
    ensures var b := il[u] + 1;
            Costs(NextCosts(g, idx, j, u, v, b, fc, first), NextLens(il, v, b), idx, j - 1, fc, first)
  {
    hide Sum;
    var b := il[u] + 1;
    PotStep(g, idx, j, u, v, if v < |idx| then fc[v] * b else 0, if v < |idx| then first[v] * b else 0);
    var r, il' := NextCosts(g, idx, j, u, v, b, fc, first), NextLens(il, v, b);
    forall w | 0 <= w < |idx| && idx[w] >= j - 1
      ensures r.full[w] == fc[w] * il'[w] && r.half[w] == first[w] * il'[w]
    {
      if w != v {
        assert idx[w] >= j && il'[w] == il[w] && r.full[w] == g.full[w] && r.half[w] == g.half[w];
      }
    }
  }

  /** Visiting a node of frequency `f` adds `f` to the cost: one more bit for each of its symbols. */
  lemma CostsBalance(g: Pot, il: seq<nat>, idx: seq<nat>, j: nat, u: nat, v: nat, fc: seq<nat>, first: seq<nat>, f: nat)
    requires Costs(g, il, idx, j, fc, first) && Visit(idx, j, u, v)
    requires v < |idx| ==> f == fc[v]
    requires if j == 2 * u + 1 then f == first[u] else fc[u] == first[u] + f
    ensures var b := il[u] + 1;
            Sum(NextCosts(g, idx, j, u, v, b, fc, first).p) + (if v == |idx| then f * b else 0) == Sum(g.p) + f
  {
    var l := il[u];
    var b := l + 1;
    PotStep(g, idx, j, u, v, if v < |idx| then fc[v] * b else 0, if v < |idx| then first[v] * b else 0);
    HandOn(l, first[u], f);
  }

  lemma HandOn(l: nat, first: nat, f: nat)
    ensures f * (l + 1) == f * l + f
    ensures (first + f) * l == first * l + f * l
  {
  }
}
