/** `tail`: the end, or everything from a given place on, of a stream that arrives in pieces. */
module Tail {
  import opened Arith
  import opened Input
  import opened Lines

  const BUFSIZ: nat := 8192

  // ----- what is promised -----

  datatype Mode = Mode(count: nat, fromTop: bool, bytes: bool)

  predicate Unsigned(m: Mode) { m.count < TWO32 }

  function LastBytes(s: seq<Byte>, n: nat): (r: seq<Byte>) {
    if |s| <= n then s else s[|s| - n..]
  }

  function FromByte(s: seq<Byte>, n: nat): (r: seq<Byte>) {
    if n <= 1 then s else if |s| < n then [] else s[n - 1..]
  }

  function Promised(m: Mode, s: seq<Byte>): (r: seq<Byte>) {
    if m.fromTop then if m.bytes then FromByte(s, m.count) else FromLine(s, m.count)
    else if m.bytes then LastBytes(s, m.count)
    else LastLines(s, m.count)
  }

  // ----- where it goes wrong -----

  /** The size of the buffer for the last bytes: an unsigned sum. */
  function BytesSize(count: nat): (n: nat)
    ensures BUFSIZ <= n < TWO32 && (count + BUFSIZ < TWO32 ==> n == count + BUFSIZ)
  {
    var want := (count + BUFSIZ) % TWO32;
    if BUFSIZ < want then want else BUFSIZ
  }

  /** How much a read brings: all there is room for, or all that is left. */
  function ReadSize(room: nat, left: nat): (n: nat) { if room < left then room else left }

  /** The lines held after some read from `pos` on, and room for one more read behind them, exceed the
      signed numbers that count them. */
  ghost predicate Overruns(count: nat, room: nat, input: seq<Byte>, pos: nat)
    decreases |input| - pos
  {
    && pos < |input| && |LastLines(input[..pos], count)| < room
    && var next := pos + ReadSize(room - |LastLines(input[..pos], count)|, |input| - pos);
       var held := |LastLines(input[..next], count)|;
       held + BUFSIZ >= TWO31 || Overruns(count, if room < held + BUFSIZ then held + BUFSIZ else room, input, next)
  }

  /** From `pos` on nothing goes wrong, in a buffer of `room` bytes. */
  ghost predicate Goes(m: Mode, room: nat, input: seq<Byte>, pos: nat) {
    || pos >= |input|
    || if m.fromTop then !m.bytes || pos > 0 || m.count <= TWO31 + 1 + ReadSize(BUFSIZ, |input|)
       else if m.count == 0 then true
       else if m.bytes then m.count < TWO31 && (room < TWO31 || |input| < TWO31)
       else m.count < TWO31 && !Overruns(m.count, room, input, pos)
  }

  datatype Outcome = Astray | Wrote(s: seq<Byte>)

  // ----- the buffer -----

  class Tailer {
    const m: Mode
    var buf: array<Byte>
    var len: nat
    var newlines: int
    var seen: nat
    var out: seq<Byte>

    /** Room for a whole read is always left. */
    ghost predicate Roomy()
      reads this`buf, this`len
    {
      buf.Length >= len + BUFSIZ && Prepared()
    }

    /** The buffer is large enough for a file, the first or a later one. */
    ghost predicate Prepared()
      reads this`buf
    {
      RoomOk(m, buf.Length)
    }

    ghost function Held(): (s: seq<Byte>)
      requires Roomy()
      reads this`buf, this`len, buf
    {
      buf[..len]
    }

    /** What the fields say after `read` has been read. */
    ghost predicate Holds(read: seq<Byte>)
      reads this, buf
    {
      && Roomy()
      && if m.fromTop then
           len == 0 && out == Promised(m, read) && Placed(read)
         else
           out == [] && Held() == Promised(m, read) && (!m.bytes && m.count > 0 ==> newlines == Newlines(Held()))
    }

    /** `seen` is the place reached, as long as it is before the one to start from. */
    ghost predicate Placed(read: seq<Byte>)
      reads this`seen
    {
      var place := 1 + if m.bytes then |read| else Newlines(read);
      0 < seen && if place < m.count then seen == place else seen >= m.count
    }

    constructor (m: Mode)
      requires Unsigned(m)
      ensures this.m == m && Prepared() && fresh(buf)
    {
      var size: nat := BUFSIZ;
      if !m.fromTop && m.bytes {
        var want := (m.count + BUFSIZ) % TWO32;
        if size < want { size := want; }
      }
      this.m := m;
      buf := new Byte[size];
      len, newlines, seen, out := 0, 0, 1, [];
    }

    /** A read: bytes are put behind those held. */
    method Fill(s: seq<Byte>)
      requires Roomy() && |s| <= buf.Length - len
      modifies buf
      ensures buf[..len + |s|] == old(buf[..len]) + s
    {
      forall i | 0 <= i < |s| { buf[len + i] := s[i]; }
    }

    /** `memmove` to the start of the buffer. */
    method MoveDown(start: nat, n: nat)
      requires start + n <= buf.Length
      modifies buf
      ensures buf[..n] == old(buf[start..start + n])
    {
      forall i | 0 <= i < n { buf[i] := buf[start + i]; }
    }

    /** `xrealloc`, to a size computed in signed numbers. */
    method Grow() returns (ok: bool)
      requires !m.fromTop && !m.bytes && len <= buf.Length && Prepared()
      modifies this`buf
      ensures ok <==> len + BUFSIZ < TWO31
      ensures ok ==> Roomy() && buf[..len] == old(buf[..len])
      ensures ok ==> buf.Length == if old(buf.Length) < len + BUFSIZ then len + BUFSIZ else old(buf.Length)
      ensures fresh(buf) || buf == old(buf)
    {
      if buf.Length < len + BUFSIZ {
        if len + BUFSIZ >= TWO31 { return false; }
        var bigger := new Byte[len + BUFSIZ];
        forall i | 0 <= i < len { bigger[i] := buf[i]; }
        buf := bigger;
      }
      ok := true;
    }

    // ----- keeping the end -----

    method KeepBytes(n: nat) returns (ok: bool)
      requires !m.fromTop && m.bytes && Unsigned(m)
      requires Roomy() && len <= m.count && 0 < n < TWO31 && len + n <= buf.Length
      requires m.count >= TWO31 ==> len == 0
      modifies this`len, buf
      ensures ok <==> m.count < TWO31 && old(len) + n < TWO31
      ensures ok ==> Roomy() && len <= m.count && Held() == LastBytes(old(buf[..len + n]), m.count)
    {
      if len + n >= TWO31 { return false; }
      len := len + n;
      if len > Signed(m.count) {
        if len < m.count { return false; }
        MoveDown(len - m.count, m.count);
        len := m.count;
      }
      ok := true;
    }

    /** The newlines among the last `n` bytes, counted from the end. */
    method CountNewlines(start: nat, n: nat) returns (c: nat)
      requires start + n <= buf.Length
      ensures c == Newlines(buf[start..start + n])
    {
      var k := n;
      c := 0;
      while k > 0
        invariant 0 <= k <= n && c == Newlines(buf[start + k..start + n])
      {
        k := k - 1;
        assert buf[start + k..start + n] == [buf[start + k]] + buf[start + k + 1..start + n];
        if buf[start + k] == NEWLINE { c := c + 1; }
      }
    }

    /** Passing `k` newlines from the start of the buffer; it goes past `end` unless there are
        that many. */
    method Pass(k: int, end: nat) returns (s: nat, ok: bool)
      requires end <= buf.Length
      ensures ok <==> 0 <= k <= Newlines(buf[..end])
      ensures ok ==> s <= end && buf[s..end] == Skip(buf[..end], k)
    {
      var left := k;
      s := 0;
      assert buf[0..end] == buf[..end];
      while left != 0
        invariant s <= end && (k >= 0 ==> left >= 0) && (k < 0 ==> left < 0)
        invariant k >= 0 ==> Skip(buf[..end], k) == Skip(buf[s..end], left)
        invariant Newlines(buf[..end]) - k == Newlines(buf[s..end]) - left
        decreases end - s
      {
        if s == end { return s, false; }
        assert buf[s..end][1..] == buf[s + 1..end];
        if buf[s] == NEWLINE { left := left - 1; }
        s := s + 1;
      }
      ok := true;
    }

    method KeepLines(n: nat) returns (ok: bool)
      requires !m.fromTop && !m.bytes && 0 < m.count < TWO32
      requires Roomy() && 0 < n < TWO31 && len + n <= buf.Length
      requires newlines == Newlines(Held()) && newlines <= m.count && (m.count >= TWO31 ==> newlines == 0)
      modifies this`len, this`newlines, this`buf, buf
      ensures ok <==> m.count < TWO31 && |LastLines(old(buf[..len + n]), m.count)| + BUFSIZ < TWO31
      ensures ok ==> Roomy() && Held() == LastLines(old(buf[..len + n]), m.count) && newlines == Newlines(Held())
      ensures ok ==> buf.Length == if old(buf.Length) < len + BUFSIZ then len + BUFSIZ else old(buf.Length)
      ensures fresh(buf) || buf == old(buf)
    {
      hide LastLines, Skip, Newlines, Extra;
      ghost var all, end := buf[..len + n], buf[len..len + n];
      assert all == buf[..len] + end;
      NewlinesAppend(buf[..len], end);
      ExtraEnd(buf[..len], end);
      var inBuf := CountNewlines(len, n);
      CountEnd(end);
      var sum := Signed(newlines + inBuf);
      if sum < Signed(m.count) {
        newlines := sum;
        len := len + n;
        FewLines(all, m.count);
      } else {
        ok := Trim(n, inBuf);
        if !ok { return; }
      }
      ok := Grow();
    }

    /** Dropping the lines that are too many. */
    method Trim(n: nat, inBuf: nat) returns (ok: bool)
      requires !m.fromTop && !m.bytes && 0 < m.count < TWO32
      requires 0 < n < TWO31 && len + n <= buf.Length && 0 <= newlines <= m.count
               && (m.count >= TWO31 ==> newlines == 0)
      requires newlines + inBuf == Newlines(buf[..len + n]) && inBuf + Extra(buf[..len + n]) <= n
      requires newlines + inBuf >= Signed(m.count)
      modifies this`len, this`newlines, buf
      ensures ok <==> m.count < TWO31
      ensures ok ==>
                len <= buf.Length && buf[..len] == LastLines(old(buf[..len + n]), m.count)
                && newlines == Newlines(buf[..len])
    {
      hide LastLines, Skip, Newlines, Signed, Roomy;
      ghost var all := buf[..len + n];
      var extra := if buf[len + n - 1] != NEWLINE then 1 else 0;
      TooMany(m.count, newlines, inBuf, extra, n);
      var s, fine := Pass(Signed(newlines + inBuf + extra - m.count), len + n);
      if !fine { return false; }
      ManyLines(all, m.count);
      len := len + n - s;
      MoveDown(s, len);
      newlines := m.count - extra;
      ok := true;
    }

    // ----- starting at a place -----

    method SkipBytes(n: nat) returns (ok: bool)
      requires m.fromTop && m.bytes && Unsigned(m) && 0 < n <= BUFSIZ && n <= buf.Length
      requires 0 < seen < TWO32 && (seen == 1 || m.count <= TWO31 + 1 + BUFSIZ)
      modifies this`seen, this`out
      ensures !ok <==> m.count - old(seen) > TWO31 + n
      ensures ok && old(seen) >= m.count ==> seen == old(seen) && out == old(out) + buf[..n]
      ensures ok && old(seen) < m.count ==>
                seen == old(seen) + n && out == old(out) + FromByte(buf[..n], m.count - old(seen) + 1)
    {
      var nwrite: int := n;
      if seen < m.count {
        nwrite := Signed(nwrite - (m.count - seen));
        seen := (seen + n) % TWO32;
      }
      if nwrite > 0 {
        if nwrite > n { return false; }
        out := out + buf[n - nwrite..n];
      }
      ok := true;
    }

    method SkipLines(n: nat)
      requires m.fromTop && !m.bytes && 0 < n <= buf.Length && 0 < seen
      modifies this`seen, this`out
      ensures old(seen) >= m.count ==> seen == old(seen) && out == old(out) + buf[..n]
      ensures var k := m.count - old(seen);
              k > 0 ==> seen == old(seen) + Min(k, Newlines(buf[..n])) && out == old(out) + Skip(buf[..n], k)
    {
      var nwrite := n;
      if seen < m.count {
        ghost var k, all := m.count - seen, buf[..n];
        ghost var before := seen;
        var s := 0;
        assert buf[0..n] == buf[..n];
        while nwrite > 0 && seen < m.count
          invariant s + nwrite == n && before <= seen <= m.count && out == old(out)
          invariant Skip(all, k) == Skip(buf[s..n], m.count - seen)
          invariant Newlines(all) == seen - before + Newlines(buf[s..n])
        {
          assert buf[s..n][1..] == buf[s + 1..n];
          nwrite := nwrite - 1;
          if buf[s] == NEWLINE { seen := seen + 1; }
          s := s + 1;
        }
        assert nwrite == 0 ==> buf[s..n] == [];
        assert Skip(buf[..n], m.count - before) == buf[n - nwrite..n];
      } else {
        assert buf[n - nwrite..n] == buf[..n];
      }
      if nwrite > 0 { out := out + buf[n - nwrite..n]; }
    }

    // ----- a file -----

    /** What a read of `piece` behind the bytes held needs. */
    ghost predicate Ready(read: seq<Byte>, piece: seq<Byte>)
      reads this, buf
    {
      && Unsigned(m) && Holds(read) && piece != [] && |piece| < TWO31
      && len + |piece| <= buf.Length && buf[len..len + |piece|] == piece
      && Before(read)
    }

    /** Before the first read everything is at its start; a later one happens only where the first went well. */
    ghost predicate Before(read: seq<Byte>)
      reads this
    {
      && (read == [] ==> len == 0 && newlines == 0 && seen == 1)
      && (m.fromTop && m.bytes ==>
          seen < TWO32 && (read != [] ==> m.count <= TWO31 + 1 + BUFSIZ && m.count <= TWO31 + 1 + |read|))
      && (!m.fromTop && read != [] ==> m.count < TWO31)
    }

    method TakeTop(n: nat, ghost read: seq<Byte>, ghost piece: seq<Byte>) returns (ok: bool)
      requires m.fromTop && Ready(read, piece) && |piece| == n
      modifies this`seen, this`out
      ensures ok <==> StepOk(m, 0, read, piece)
      ensures ok ==> Holds(read + piece) && Before(read + piece)
    {
      hide FromLine, Newlines, FromByte, Skip;
      ok := true;
      assert buf[..n] == piece;
      if m.bytes {
        FromByteStep(read, piece, m.count);
        ok := SkipBytes(n);
      } else {
        FromLineStep(read, piece, m.count);
        SkipLines(n);
      }
    }

    method TakeEnd(n: nat, ghost read: seq<Byte>, ghost piece: seq<Byte>) returns (ok: bool)
      requires !m.fromTop && Ready(read, piece) && |piece| == n
      modifies this`len, this`newlines, this`buf, buf
      ensures ok <==> StepOk(m, old(len), read, piece)
      ensures ok ==> Holds(read + piece) && Before(read + piece) && buf.Length == NextRoom(m, old(buf.Length), len)
      ensures fresh(buf) || buf == old(buf)
    {
      hide LastLines, Newlines, LastBytes, Skip;
      ok := true;
      assert buf[..len + n] == buf[..len] + piece;
      if m.count > 0 {
        if m.bytes {
          LastBytesStep(read, piece, m.count);
          ok := KeepBytes(n);
        } else {
          LastLinesAppend(read, piece, m.count);
          LastFew(read, m.count);
          ok := KeepLines(n);
        }
      } else {
        LastNone(read);
        LastNone(read + piece);
      }
    }

    /** The fields at the start of a file. */
    method Begin()
      requires Unsigned(m) && Prepared()
      modifies this`len, this`newlines, this`seen, this`out
      ensures Holds([]) && Before([])
    {
      len, newlines, seen, out := 0, 0, 1, [];
      NothingYet(m);
      assert Held() == [];
    }

    /** One read and what is done with it, if its size is a positive number in 32 bits. */
    method Piece(piece: seq<Byte>, ghost read: seq<Byte>) returns (ok: bool)
      requires Unsigned(m) && Holds(read) && Before(read) && 0 < |piece| < TWO31 && |piece| <= buf.Length - len
      modifies this, buf
      ensures fresh(buf) || buf == old(buf)
      ensures ok <==> StepOk(m, old(len), read, piece)
      ensures ok ==> Holds(read + piece) && Before(read + piece) && buf.Length == NextRoom(m, old(buf.Length), len)
    {
      hide Promised, Newlines, StepOk;
      ghost var held := Held();
      Fill(piece);
      assert buf[..len] == buf[..len + |piece|][..len] == held;
      assert buf[len..len + |piece|] == buf[..len + |piece|][len..] == piece;
      if m.fromTop { ok := TakeTop(|piece|, read, piece); } else { ok := TakeEnd(|piece|, read, piece); }
    }

    ghost predicate Through(input: seq<Byte>, pos: nat, chunks: seq<seq<Byte>>)
      reads this, buf
    {
      pos <= |input| && Holds(input[..pos]) && Before(input[..pos]) && input[pos..] == Remaining(chunks)
    }

    /** A file that is read in pieces of any sizes: what is promised is written exactly if nothing
        goes wrong, which depends on the count and the file alone. */
    method File(chunks: seq<seq<Byte>>) returns (r: Outcome)
      requires Unsigned(m) && Prepared()
      modifies this, buf
      ensures fresh(buf) || buf == old(buf)
      ensures r == Wrote(Promised(m, Remaining(chunks))) <==> Goes(m, old(buf.Length), Remaining(chunks), 0)
      ensures Goes(m, old(buf.Length), Remaining(chunks), 0) ==> Prepared()
    {
      hide Promised, Newlines, Holds, Before, StepOk, Goes, Remaining;
      Begin();
      ghost var input, pos: nat, goes := Remaining(chunks), 0, Goes(m, buf.Length, Remaining(chunks), 0);
      assert input[..0] == [] && input[0..] == input;
      var rest := chunks;
      while true
        invariant Through(input, pos, rest) && Goes(m, buf.Length, input, pos) == goes
                  && (pos > 0 && (m.fromTop || m.bytes) ==> goes)
        invariant fresh(buf) || buf == old(buf)
        decreases |input| - pos
      {
        HasRoom(input[..pos]);
        var s, left := FullRead(rest, buf.Length - len);
        ReadOn(input, pos, s, Remaining(left));
        if |s| == 0 { break; }
        HeldIs(input[..pos]);
        GoesStep(m, buf.Length, input, pos, len, |s|);
        if Signed(|s|) <= 0 {
          NothingKept(m, buf.Length, input, |s|);
          Fill(s);
          return Wrote(buf[..len]);
        }
        var ok := Piece(s, input[..pos]);
        if !ok { return Astray; }
        HeldIs(input[..pos + |s|]);
        pos, rest := pos + |s|, left;
      }
      assert input[..pos] == input;
      GoesEnd(m, buf.Length, input, pos);
      Final(input);
      r := Wrote(if m.fromTop then out else buf[..len]);
    }

    lemma HasRoom(read: seq<Byte>)
      requires Holds(read)
      ensures buf.Length >= len + BUFSIZ
    {
    }

    lemma HeldIs(read: seq<Byte>)
      requires Holds(read) && Before(read)
      ensures len == HeldSize(m, read) && RoomOk(m, buf.Length) && (read == [] ==> len == 0)
    {
      hide Promised, Newlines;
    }

    lemma Final(read: seq<Byte>)
      requires Holds(read)
      ensures Prepared() && len <= buf.Length && Promised(m, read) == if m.fromTop then out else buf[..len]
    {
      hide Promised, Newlines;
    }
  }

  /** A read goes well. */
  ghost predicate StepOk(m: Mode, held: nat, read: seq<Byte>, piece: seq<Byte>) {
    if m.fromTop then !(m.bytes && read == [] && m.count > TWO31 + 1 + |piece|)
    else if m.count == 0 then true
    else if m.bytes then m.count < TWO31 && held + |piece| < TWO31
    else m.count < TWO31 && |LastLines(read + piece, m.count)| + BUFSIZ < TWO31
  }

  ghost function NextRoom(m: Mode, room: nat, held: nat): (r: nat) {
    if !m.fromTop && !m.bytes && m.count > 0 && room < held + BUFSIZ then held + BUFSIZ else room
  }

  /** How many bytes are held after reading `read`. */
  ghost function HeldSize(m: Mode, read: seq<Byte>): (n: nat) { if m.fromTop then 0 else |Promised(m, read)| }

  /** The sizes the buffer can have. */
  ghost predicate RoomOk(m: Mode, room: nat) {
    if m.fromTop then room == BUFSIZ else if m.bytes then room == BytesSize(m.count) else BUFSIZ <= room < TWO31
  }

  lemma ReadOn(input: seq<Byte>, pos: nat, s: seq<Byte>, rest: seq<Byte>)
    requires pos <= |input| && input[pos..] == s + rest
    ensures pos + |s| <= |input| && input[pos..pos + |s|] == s && input[..pos] + s == input[..pos + |s|]
            && input[pos + |s|..] == rest
  {
    assert input[pos..][..|s|] == s && input[pos..][|s|..] == rest;
  }

  /** Nothing goes wrong from here on exactly if the next read goes well and nothing goes wrong behind it. */
  lemma GoesStep(m: Mode, room: nat, input: seq<Byte>, pos: nat, held: nat, n: nat)
    requires Unsigned(m) && RoomOk(m, room) && pos < |input| && held == HeldSize(m, input[..pos]) < room
    requires n == ReadSize(room - held, |input| - pos)
             && (pos > 0 && (m.fromTop || m.bytes) ==> Goes(m, room, input, pos))
    ensures var read, piece := input[..pos], input[pos..pos + n];
            Goes(m, room, input, pos) <==>
              n < TWO31 && StepOk(m, held, read, piece)
              && Goes(m, NextRoom(m, room, HeldSize(m, read + piece)), input, pos + n)
    ensures (m.fromTop || m.bytes) && n < TWO31 && StepOk(m, held, input[..pos], input[pos..pos + n]) ==>
              Goes(m, room, input, pos)
  {
    hide LastLines, FromLine, Newlines;
    assert input[..pos] + input[pos..pos + n] == input[..pos + n];
    if m.fromTop {
      assert n == ReadSize(BUFSIZ, |input| - pos);
    } else if m.count == 0 {
    } else if m.bytes {
      assert held <= pos && held <= m.count;
    } else {
      var next := HeldSize(m, input[..pos + n]);
      assert Overruns(m.count, room, input, pos) <==>
               next + BUFSIZ >= TWO31 || Overruns(m.count, NextRoom(m, room, next), input, pos + n);
    }
  }

  lemma GoesEnd(m: Mode, room: nat, input: seq<Byte>, pos: nat)
    requires pos >= |input|
    ensures Goes(m, room, input, pos)
  {
  }

  /** Where a read is too large for a signed number, something was to be written. */
  lemma NothingKept(m: Mode, room: nat, input: seq<Byte>, n: nat)
    requires Unsigned(m) && RoomOk(m, room) && TWO31 <= n <= room && n <= |input|
    ensures !m.fromTop && m.bytes && Promised(m, input) != []
  {
  }

  lemma NothingYet(m: Mode)
    ensures Promised(m, []) == [] && Newlines([]) == 0
  {
    NoLines();
  }

  /** Files for which the promise is not kept: any that is not empty and a count of 2^31 or more; one
      of 2^31 bytes and a count just below, of bytes; and one whose last lines take 2^31 bytes. */
  lemma Failing(input: seq<Byte>, count: nat)
    requires input != []
    ensures TWO31 <= count < TWO32 ==>
              !Goes(Mode(count, false, false), BUFSIZ, input, 0)
              && !Goes(Mode(count, false, true), BytesSize(count), input, 0)
    ensures count > TWO31 + 1 + BUFSIZ ==> !Goes(Mode(count, true, true), BUFSIZ, input, 0)
    ensures |input| >= TWO31 && TWO31 - BUFSIZ <= count < TWO31 ==>
              !Goes(Mode(count, false, true), BytesSize(count), input, 0)
    ensures 0 < count && |LastLines(input, count)| + BUFSIZ >= TWO31 ==>
              !Goes(Mode(count, false, false), BUFSIZ, input, 0)
  {
    hide LastLines, Overruns;
    if 0 < count && |LastLines(input, count)| + BUFSIZ >= TWO31 {
      NothingYet(Mode(count, false, false));
      assert input[..0] == [];
      LongEnd(count, BUFSIZ, input, 0);
    }
  }

  /** One such file: a line of 2^31 letters. */
  lemma LongLine(n: nat)
    requires n == TWO31
    ensures var input: seq<Byte> := seq(n, _ => 97);
            !Goes(Mode(TWO31 - 1, false, true), BytesSize(TWO31 - 1), input, 0)
            && !Goes(Mode(1, false, false), BUFSIZ, input, 0)
  {
    hide Goes, LastLines;
    var input: seq<Byte> := seq(n, _ => 97);
    NoNewline(input);
    FewLines(input, 1);
    Failing(input, TWO31 - 1);
    Failing(input, 1);
  }

  lemma {:induction false} NoNewline(s: seq<Byte>)
    requires forall i :: 0 <= i < |s| ==> s[i] != NEWLINE
    ensures Newlines(s) == 0
  {
    if s != [] { NoNewline(s[1..]); }
  }

  /** Lines that are too long at the end of the file are too long after the last read. */
  lemma {:induction false} LongEnd(count: nat, room: nat, input: seq<Byte>, pos: nat)
    requires pos < |input| && |LastLines(input[..pos], count)| + BUFSIZ <= room
             && |LastLines(input, count)| + BUFSIZ >= TWO31
    ensures Overruns(count, room, input, pos)
    decreases |input| - pos
  {
    hide LastLines;
    var next := pos + ReadSize(room - |LastLines(input[..pos], count)|, |input| - pos);
    var held := |LastLines(input[..next], count)|;
    assert input[..|input|] == input;
    if held + BUFSIZ < TWO31 { LongEnd(count, if room < held + BUFSIZ then held + BUFSIZ else room, input, next); }
  }

  /** Files for which it is kept: those of less than 2^31 bytes with a buffer to spare, for all counts
      below that. */
  lemma Keeping(m: Mode, room: nat, input: seq<Byte>)
    requires Unsigned(m) && RoomOk(m, room) && |input| + BUFSIZ < TWO31 && m.count < TWO31
    ensures Goes(m, room, input, 0)
  {
    hide Overruns;
    if !m.fromTop && !m.bytes { ShortFile(m.count, room, input, 0); }
  }

  lemma {:induction false} ShortFile(count: nat, room: nat, input: seq<Byte>, pos: nat)
    requires |input| + BUFSIZ < TWO31
    ensures !Overruns(count, room, input, pos)
    decreases |input| - pos
  {
    hide LastLines;
    if pos < |input| && |LastLines(input[..pos], count)| < room {
      var next := pos + ReadSize(room - |LastLines(input[..pos], count)|, |input| - pos);
      var held := |LastLines(input[..next], count)|;
      LastShorter(input[..next], count);
      ShortFile(count, if room < held + BUFSIZ then held + BUFSIZ else room, input, next);
    }
  }

  lemma LastShorter(s: seq<Byte>, n: nat)
    ensures |LastLines(s, n)| <= |s|
  {
    hide LastLines;
    LastLinesSkip(s, n);
  }

  // ----- one more piece -----

  lemma LastBytesStep(a: seq<Byte>, b: seq<Byte>, n: nat)
    ensures |LastBytes(a, n)| <= n && LastBytes(a + b, n) == LastBytes(LastBytes(a, n) + b, n)
  {
    if |a| > n {
      var d := a[|a| - n..];
      if |b| > 0 { assert (a + b)[|a| + |b| - n..] == (d + b)[|b|..]; }
    }
  }

  lemma LastNone(a: seq<Byte>)
    ensures LastBytes(a, 0) == [] == LastLines(a, 0)
  {
    assert a[|a|..] == [];
    assert Split(a)[|Split(a)|..] == [];
  }

  lemma LastFew(a: seq<Byte>, n: nat)
    ensures Newlines(LastLines(a, n)) <= n
  {
    hide LastLines, Newlines, Skip;
    var l := Newlines(a) + Extra(a);
    LastLinesSkip(a, n);
    if l <= n {
      SkipNone(a);
    } else if l - n <= Newlines(a) {
      SkipCounts(a, l - n);
    } else {
      SkipAll(a, l - n);
      NoNewlines();
    }
  }

  lemma NoNewlines()
    ensures Newlines([]) == 0
  {
  }

  lemma FromByteStep(a: seq<Byte>, b: seq<Byte>, n: nat)
    ensures FromByte(a + b, n) == FromByte(a, n) + if |a| + 1 >= n then b else FromByte(b, n - |a|)
  {
  }

  lemma FromLineStep(a: seq<Byte>, b: seq<Byte>, n: nat)
    ensures Newlines(a + b) == Newlines(a) + Newlines(b)
    ensures FromLine(a + b, n) == FromLine(a, n) + if Newlines(a) + 1 >= n then b else Skip(b, n - 1 - Newlines(a))
  {
    hide FromLine, Newlines, Skip;
    var k := if n == 0 then 0 else n - 1;
    NewlinesAppend(a, b);
    FromLineSkip(a, n);
    FromLineSkip(a + b, n);
    SkipAppend(a, b, k);
    if k > Newlines(a) { SkipAll(a, k); }
  }

  function Min(a: int, b: int): (r: int) { if a < b then a else b }

  lemma FewLines(all: seq<Byte>, n: nat)
    requires Newlines(all) < n
    ensures LastLines(all, n) == all
  {
    hide LastLines, Newlines;
    LastLinesSkip(all, n);
  }

  /** The number of lines too many, as the signed number it is kept in, is one of newlines there
      are exactly when the count is in range. */
  lemma TooMany(count: nat, newlines: nat, inBuf: nat, extra: nat, n: nat)
    requires 0 < count < TWO32 && newlines <= count && (count >= TWO31 ==> newlines == 0)
    requires extra <= 1 && inBuf + extra <= n < TWO31 && newlines + inBuf >= Signed(count)
    ensures var k := Signed(newlines + inBuf + extra - count);
            if count < TWO31 then k == newlines + inBuf + extra - count && 0 <= k <= newlines + inBuf
              else !(0 <= k <= newlines + inBuf)
  {
    assert Signed(count) == if count < TWO31 then count as int else count - TWO32;
  }

  lemma ManyLines(all: seq<Byte>, n: nat)
    requires n > 0 && Newlines(all) >= n
    ensures var k := Newlines(all) + Extra(all) - n;
            LastLines(all, n) == Skip(all, k) && Newlines(Skip(all, k)) == n - Extra(all)
  {
    hide LastLines, Newlines;
    var k := Newlines(all) + Extra(all) - n;
    LastLinesSkip(all, n);
    SkipCounts(all, k);
  }

  lemma {:induction false} CountEnd(s: seq<Byte>)
    requires s != []
    ensures Newlines(s) + Extra(s) <= |s|
  {
    if |s| > 1 {
      CountEnd(s[1..]);
      assert s[1..][|s| - 2] == s[|s| - 1];
    }
  }
}
