/** The streaming line framer: one fixed array whose last cells are a sliding window over the bytes read. */
module Framer {
  import opened Bytes
  import opened Framing

  datatype JoinResult = NeedMore | Line(len: nat) | OutOfRange

  /** No proper suffix of the terminator is also a prefix of it. */
  ghost predicate BorderFree(t: string) {
    |t| > 0 && forall j :: 0 < j < |t| ==> t[j..] != t[..|t| - j]
  }

  /** What is left of window `w` after some pushes can never be the beginning of the terminator. */
  ghost predicate Neutral(t: string, w: string) {
    |w| == |t| && forall j :: 0 < j < |t| ==> w[j..] != t[..|t| - j]
  }

  lemma CrlfIsBorderFree()
    ensures BorderFree(CRLF)
  {
    assert CRLF[1..] == "\n" && CRLF[..1] == "\r";
  }

  lemma ZerosAreNeutral()
    ensures Neutral(CRLF, Zeros(2))
  {
    assert Zeros(2)[1..][0] == '\0' && CRLF[..1][0] == '\r';
  }

  /** `\r\n.\r\n` is not usable as a terminator: after a match its own tail may start the next one. */
  lemma DataTerminatorHasBorder()
    ensures !BorderFree("\r\n.\r\n")
  {
    var t := "\r\n.\r\n";
    assert t[3..] == "\r\n" == t[..|t| - 3];
  }

  /** Pushing `c` onto a window that started neutral completes the terminator exactly when the bytes
      read since then end with it. */
  lemma WindowMatches(t: string, before: string, p: string, c: char)
    requires |t| > 0 && Neutral(t, before)
    ensures (before + p + [c])[|p| + 1..] == t <==> EndsWith(p + [c], t)
  {
    var q := p + [c];
    assert before + p + [c] == before + q;
    if |q| >= |t| {
      assert (before + q)[|q|..] == q[|q| - |t|..];
    } else {
      assert (before + q)[|q|..][..|t| - |q|] == before[|q|..];
    }
  }

  /** A window that is not neutral is taken for the terminator where the bytes read do not end with it. */
  lemma NeutralIsNeeded(t: string, w: string) returns (p: string, c: char)
    requires |t| == |w| && !Neutral(t, w)
    ensures (w + p + [c])[|p| + 1..] == t && !EndsWith(p + [c], t)
  {
    var j :| 0 < j < |t| && w[j..] == t[..|t| - j];
    var q := t[|t| - j..];
    p, c := q[..j - 1], q[j - 1];
    assert p + [c] == q && w + p + [c] == w + q;
    assert (w + q)[j..] == w[j..] + q == t;
  }

  /** A terminator with a border leaves a window that is not neutral: behind a match the framer would see
      terminators that are not there. */
  lemma BorderIsSeen(t: string) returns (p: string, c: char)
    requires |t| > 0 && !BorderFree(t)
    ensures (t + p + [c])[|p| + 1..] == t && !EndsWith(p + [c], t)
  {
    p, c := NeutralIsNeeded(t, t);
  }

  class Framer {
    const buffer: array<char>
    const terminator: string
    var offset: nat
    ghost var pending: string  // the bytes read since the last terminator
    ghost var before: string   // the window as it was when `pending` was empty

    ghost function Capacity(): int
      reads this
    {
      buffer.Length - |terminator|
    }

    ghost predicate Valid()
      reads this, buffer
    {
      && |terminator| <= buffer.Length
      && BorderFree(terminator)
      && offset == |pending|
      && Free(terminator, pending)
      && Holds(pending)
      && Watches(pending)
    }

    /** All window cells but the first hold the latest bytes of `before + p`. */
    ghost predicate Watches(p: string)
      requires 0 < |terminator| <= buffer.Length
      reads this, buffer
    {
      && Neutral(terminator, before)
      && buffer[Capacity() + 1..] == (before + p)[|p| + 1..]
    }

    /** The cells in front of the window hold `s`, or as much of it as fits. */
    ghost predicate Holds(s: string)
      requires |terminator| <= buffer.Length
      reads this, buffer
    {
      forall i :: 0 <= i < |s| && i < Capacity() ==> buffer[i] == s[i]
    }

    constructor (buffer: array<char>, terminator: string)
      requires |terminator| <= buffer.Length && BorderFree(terminator)
      requires Neutral(terminator, buffer[buffer.Length - |terminator|..])
      ensures Valid() && pending == "" && this.buffer == buffer && this.terminator == terminator
    {
      this.buffer, this.terminator := buffer, terminator;
      offset, pending, before := 0, "", buffer[buffer.Length - |terminator|..];
      new;
      assert before + pending == before;
    }

    /** The cells in front of the window. */
    ghost function Front(): string
      requires |terminator| <= buffer.Length
      reads this, buffer
    {
      buffer[..Capacity()]
    }

    /** The capped `memcpy` of `src` behind the bytes already there. */
    method CopyIn(src: string)
      requires Valid()
      modifies buffer
      ensures Holds(pending + src) && Front() == PutAt(old(Front()), offset, src)
      ensures buffer[Capacity()..] == old(buffer[Capacity()..])
    {
      var start := buffer.Length - |terminator|;
      var n := if offset < start then (if start - offset < |src| then start - offset else |src|) else 0;
      forall i | 0 <= i < n {
        buffer[offset + i] := src[i];
      }
    }

    /** Shifts the window left by one cell and puts `c` at its end. */
    method PushBack(c: char, ghost s: string)
      requires 0 < |terminator| <= buffer.Length && Holds(s)
      modifies buffer
      ensures buffer[Capacity()..] == old(buffer[Capacity() + 1..]) + [c]
      ensures Holds(s) && Front() == old(Front())
    {
      var start := buffer.Length - |terminator|;
      for i := start to buffer.Length - 1
        invariant forall j :: start <= j < i ==> buffer[j] == old(buffer[j + 1])
        invariant forall j :: i <= j < buffer.Length ==> buffer[j] == old(buffer[j])
        invariant Holds(s) && Front() == old(Front())
      {
        buffer[i] := buffer[i + 1];
      }
      buffer[buffer.Length - 1] := c;
    }

    /** What is left of a line: it in front of the buffer and a NUL behind it, the terminator still in the
        window unless the NUL is there, or only that the line was too long. */
    ghost predicate Framed(r: JoinResult, line: string)
      requires 0 < |terminator| <= buffer.Length
      reads this, buffer
    {
      if |line| > Capacity() then r == OutOfRange
      else
        && r == Line(|line|) && buffer[..|line|] == line && buffer[|line|] == '\0'
        && (|line| < Capacity() ==> buffer[Capacity()..] == terminator)
    }

    /** Ends the line whose terminator has just filled the window, before `offset` counts its last byte.
        The NUL may land on the first window cell, which the next push shifts out. */
    method EndLine(ghost read: string) returns (r: JoinResult)
      requires |terminator| <= buffer.Length && BorderFree(terminator)
      requires buffer[Capacity()..] == terminator
      requires |terminator| <= |read| == offset + 1 && Holds(read)
      modifies this, buffer
      ensures Valid() && pending == ""
      ensures var line := read[..|read| - |terminator|];
        Framed(r, line) && Front() == if |line| > Capacity() then old(Front()) else Ended(old(Front()), |line|)
    {
      var len := offset + 1 - |terminator|;
      if len <= buffer.Length - |terminator| {
        HeldLine(read, len);
        EndAt(len);
        r := Line(len);
      } else {
        assert buffer[Capacity() + 1..] == buffer[Capacity()..][1..];
        r := OutOfRange;
      }
      Restart();
    }

    /** A new line starts behind a terminator, whose first cell is no longer needed. */
    method Restart()
      requires 0 < |terminator| <= buffer.Length && BorderFree(terminator)
      requires buffer[Capacity() + 1..] == terminator[1..]
      modifies `offset, `pending, `before
      ensures Valid() && pending == ""
    {
      offset, pending, before := 0, "", terminator;
      assert before + pending == before;
    }

    lemma HeldLine(read: string, len: nat)
      requires 0 < |terminator| <= buffer.Length && len <= |read| && len <= Capacity() && Holds(read)
      ensures buffer[..len] == read[..len]
      ensures buffer[Capacity() + 1..] == buffer[Capacity()..][1..]
    {
    }

    /** The NUL behind a line leaves the line and all window cells but the first as they are. */
    method EndAt(len: nat)
      requires 0 < |terminator| <= buffer.Length && len <= Capacity()
      modifies buffer
      ensures buffer[..len] == old(buffer[..len]) && buffer[len] == '\0'
      ensures buffer[Capacity() + 1..] == old(buffer[Capacity() + 1..])
      ensures Front() == Ended(old(Front()), len)
      ensures len < Capacity() ==> buffer[Capacity()..] == old(buffer[Capacity()..])
    {
      buffer[len] := '\0';
    }

    /** One byte enters the window, which then equals the terminator exactly when the bytes read since
        the last one end with it. */
    method Push(c: char, ghost p: string, ghost all: string)
      requires 0 < |terminator| <= buffer.Length && Holds(all) && Watches(p)
      modifies buffer
      ensures Holds(all) && Watches(p + [c]) && Front() == old(Front())
      ensures buffer[Capacity()..] == terminator <==> EndsWith(p + [c], terminator)
    {
      Slide(before, p, c);
      WindowMatches(terminator, before, p, c);
      assert before + p + [c] == before + (p + [c]);
      PushBack(c, all);
      assert buffer[Capacity() + 1..] == buffer[Capacity()..][1..];
      assert (before + (p + [c]))[|p| + 2..] == (before + (p + [c]))[|p| + 1..][1..];
    }

    /** What the owner of a line writes into it: no cell of the window changes. */
    method Set(i: nat, c: char)
      requires Valid() && pending == "" && i < Capacity()
      modifies buffer
      ensures Valid()
      ensures buffer[..] == old(buffer[..])[i := c]
      ensures buffer[i] == c && forall k :: 0 <= k < buffer.Length && k != i ==> buffer[k] == old(buffer[k])
    {
      buffer[i] := c;
    }

    /** Reads `src` up to and including the first terminator. The line, if it fits, is left at the front
        of the buffer with a NUL behind it. */
    method Join(src: string) returns (r: JoinResult, rest: string)
      requires Valid()
      modifies this, buffer
      ensures Valid()
      ensures var front := PutAt(old(Front()), |old(pending)|, src);
        match ScanFrom(terminator, old(pending), src)
        case More(p) => r == NeedMore && rest == "" && pending == p && Front() == front
        case Piece(line, tail) =>
          && rest == tail && pending == "" && Framed(r, line)
          && Front() == if |line| > Capacity() then front else Ended(front, |line|)
    {
      if |src| == 0 {
        return NeedMore, "";
      }
      ghost var all := pending + src;
      CopyIn(src);
      ghost var front := Front();
      for i := 0 to |src|
        invariant pending + src[i..] == all
        invariant Reading(all) && Front() == front
        invariant ScanFrom(terminator, old(pending), src) == ScanFrom(terminator, pending, src[i..])
      {
        ReadNext(terminator, pending, src, i);
        r := TakeByte(src[i], all);
        if r != NeedMore {
          return r, src[i + 1..];
        }
      }
      return NeedMore, "";
    }

    /** In the middle of reading `all`, whose bytes are already at the front of the buffer. */
    ghost predicate Reading(all: string)
      reads this, buffer
    {
      && |terminator| <= buffer.Length && BorderFree(terminator)
      && offset == |pending| && Free(terminator, pending)
      && Holds(all) && Watches(pending) && pending <= all
    }

    method TakeByte(c: char, ghost all: string) returns (r: JoinResult)
      requires Reading(all) && pending + [c] <= all
      modifies this, buffer
      ensures var read := old(pending) + [c];
        if !EndsWith(read, terminator) then r == NeedMore && pending == read && Reading(all) && Front() == old(Front())
        else
          var line := read[..|read| - |terminator|];
          && Valid() && pending == "" && Framed(r, line)
          && Front() == if |line| > Capacity() then old(Front()) else Ended(old(Front()), |line|)
    {
      ghost var read := pending + [c];
      FreeSnoc(terminator, pending, c);
      Push(c, pending, all);
      if buffer[buffer.Length - |terminator|..] == terminator {
        assert Holds(read);
        r := EndLine(read);
      } else {
        offset, pending := offset + 1, read;
        r := NeedMore;
      }
    }
  }

  // ----- All lines of a stream

  /** Each line that fits, and `None` for one that is too long. */
  function Fitting(capacity: int, lines: seq<string>): seq<Option<string>> {
    seq(|lines|, i requires 0 <= i < |lines| => if |lines[i]| > capacity then None else Some(lines[i]))
  }

  lemma FittingMore(capacity: int, lines: seq<string>, more: seq<string>)
    ensures Fitting(capacity, lines + more) == Fitting(capacity, lines) + Fitting(capacity, more)
  {
  }

  lemma Between(lines: seq<string>, line: string, more: seq<string>)
    ensures lines + ([line] + more) == lines + [line] + more
  {
  }

  lemma NextLine(t: string, p: string, src: string, lines: seq<string>, line: string, rest: string)
    requires |t| > 0 && Free(t, p) && ScanFrom(t, p, src) == Piece(line, rest)
    ensures lines + Split(t, p + src).0 == lines + [line] + Split(t, "" + rest).0
    ensures Split(t, p + src).1 == Split(t, "" + rest).1
  {
    ScanTakesNext(t, p, src);
    assert "" + rest == rest;
    Between(lines, line, Split(t, rest).0);
  }

  lemma NoLine(t: string, p: string, src: string, q: string, lines: seq<string>)
    requires |t| > 0 && Free(t, p) && ScanFrom(t, p, src) == More(q)
    ensures Free(t, q) && lines + Split(t, p + src).0 == lines + Split(t, q + "").0
    ensures Split(t, p + src).1 == Split(t, q + "").1
  {
    ScanTakesNext(t, p, src);
    ScanSound(t, p, src);
    FreePending(t, q, lines);
  }

  /** A chunk joined until it is used up. */
  method JoinChunk(f: Framer, chunk: string) returns (found: seq<Option<string>>)
    requires f.Valid()
    modifies f, f.buffer
    ensures f.Valid()
    ensures var all := Split(f.terminator, old(f.pending) + chunk);
      found == Fitting(f.Capacity(), all.0) && f.pending == all.1
  {
    ghost var t, all := f.terminator, Split(f.terminator, f.pending + chunk);
    ghost var lines: seq<string> := [];
    var rest := chunk;
    found := [];
    assert lines + all.0 == all.0;
    while |rest| > 0
      invariant f.Valid() && found == Fitting(f.Capacity(), lines)
      invariant all.0 == lines + Split(t, f.pending + rest).0 && all.1 == Split(t, f.pending + rest).1
      decreases |rest|
    {
      ghost var p, src, scan := f.pending, rest, ScanFrom(t, f.pending, rest);
      var r;
      r, rest := f.Join(rest);
      if r == NeedMore {
        NoLine(t, p, src, f.pending, lines);
      } else {
        NextLine(t, p, src, lines, scan.line, rest);
        FittingMore(f.Capacity(), lines, [scan.line]);
        lines, found := lines + [scan.line], found + [if r.Line? then Some(f.buffer[..r.len]) else None];
      }
    }
    FreePending(t, f.pending, lines);
  }

  lemma FreePending(t: string, p: string, lines: seq<string>)
    requires |t| > 0 && Free(t, p)
    ensures Split(t, p + "") == ([], p) && lines + Split(t, p + "").0 == lines
  {
    ScanTakesNext(t, p, "");
    assert p + "" == p;
  }

  /** Over any series of chunks, the results are the lines of the whole stream in order, each given as it is
      or reported as too long exactly by its length, and what is left is the stream's unfinished line. */
  method JoinAll(f: Framer, chunks: seq<string>) returns (found: seq<Option<string>>)
    requires f.Valid()
    modifies f, f.buffer
    ensures f.Valid()
    ensures var all := Split(f.terminator, old(f.pending) + Concat(chunks));
      found == Fitting(f.Capacity(), all.0) && f.pending == all.1
  {
    ghost var t, p := f.terminator, f.pending;
    ghost var lines: seq<string> := [];
    found := [];
    assert lines + Split(t, p + Concat(chunks)).0 == Split(t, p + Concat(chunks)).0;
    assert chunks[0..] == chunks;
    for i := 0 to |chunks|
      invariant f.Valid() && found == Fitting(f.Capacity(), lines)
      invariant Split(t, p + Concat(chunks)) ==
        (lines + Split(t, f.pending + Concat(chunks[i..])).0, Split(t, f.pending + Concat(chunks[i..])).1)
    {
      assert chunks[i..][1..] == chunks[i + 1..];
      ghost var all := Split(t, f.pending + chunks[i]);
      NextChunk(t, f.pending, chunks[i], Concat(chunks[i + 1..]), lines);
      FittingMore(f.Capacity(), lines, all.0);
      var more := JoinChunk(f, chunks[i]);
      lines, found := lines + all.0, found + more;
    }
    FreePending(t, f.pending, lines);
  }

  lemma NextChunk(t: string, p: string, chunk: string, tail: string, lines: seq<string>)
    requires |t| > 0
    ensures var first := Split(t, p + chunk);
      var second := Split(t, first.1 + tail);
      && lines + Split(t, p + (chunk + tail)).0 == lines + first.0 + second.0
      && Split(t, p + (chunk + tail)).1 == second.1
  {
    Regroup(p, chunk, tail);
    SplitChunks(t, p + chunk, tail);
  }

  lemma ReadNext(t: string, p: string, src: string, i: nat)
    requires i < |src|
    ensures var q := p + [src[i]];
      && q <= p + src[i..] && p + src[i..] == q + src[i + 1..]
      && ScanFrom(t, p, src[i..]) ==
         if EndsWith(q, t) then Piece(q[..|q| - |t|], src[i + 1..]) else ScanFrom(t, q, src[i + 1..])
  {
    assert src[i..][1..] == src[i + 1..];
  }

  /** One push slides the window one byte further along what was read. */
  lemma Slide(before: string, p: string, c: char)
    requires |before| > 0
    ensures (before + p)[|p| + 1..] + [c] == (before + (p + [c]))[|p| + 1..]
  {
  }
}
