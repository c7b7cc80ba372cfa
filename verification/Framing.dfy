/** Cutting a byte stream at a terminator, one byte at a time, and what the cuts are. */
module Framing {
  import opened Bytes

  predicate EndsWith(s: string, t: string) {
    |t| <= |s| && s[|s| - |t|..] == t
  }

  datatype Scan = More(pending: string) | Piece(line: string, rest: string)

  /** Reads `src` byte by byte after the unfinished line `pending`, up to the first completed line. */
  function ScanFrom(t: string, pending: string, src: string): (r: Scan)
    ensures r.Piece? ==> |r.rest| < |src|
    decreases src
  {
    if src == "" then More(pending)
    else
      var p := pending + [src[0]];
      if EndsWith(p, t) then Piece(p[..|p| - |t|], src[1..]) else ScanFrom(t, p, src[1..])
  }

  // ----- What a cut is, without reference to scanning

  ghost predicate OccursAt(t: string, s: string, i: int) {
    0 <= i <= |s| - |t| && s[i..i + |t|] == t
  }

  ghost predicate Free(t: string, s: string) {
    forall i :: !OccursAt(t, s, i)
  }

  /** The terminator occurs in `line + t` only as its tail. */
  ghost predicate Terminates(t: string, line: string) {
    forall i :: OccursAt(t, line + t, i) ==> i == |line|
  }

  function Unsplit(t: string, pieces: seq<string>): string {
    if pieces == [] then "" else pieces[0] + t + Unsplit(t, pieces[1..])
  }

  ghost predicate IsSplit(t: string, s: string, pieces: seq<string>, rest: string) {
    && s == Unsplit(t, pieces) + rest
    && Free(t, rest)
    && forall k :: 0 <= k < |pieces| ==> Terminates(t, pieces[k])
  }

  // ----- Scanning finds exactly the cuts

  lemma FreeSnoc(t: string, p: string, c: char)
    requires |t| > 0 && Free(t, p)
    ensures !EndsWith(p + [c], t) ==> Free(t, p + [c])
    ensures EndsWith(p + [c], t) ==> Terminates(t, (p + [c])[..|p| + 1 - |t|])
  {
    var q := p + [c];
    forall i | 0 <= i && i + |t| <= |p| ensures OccursAt(t, q, i) <==> OccursAt(t, p, i) {
      assert p[i..i + |t|] == q[i..i + |t|];
    }
    if EndsWith(q, t) {
      assert q[..|q| - |t|] + t == q;
    }
  }

  /** A scan started after a terminator-free `p` returns either all bytes, still free, or the first cut. */
  lemma {:induction false} ScanSound(t: string, p: string, src: string)
    requires |t| > 0 && Free(t, p)
    ensures match ScanFrom(t, p, src)
      case More(q) => q == p + src && Free(t, q)
      case Piece(line, rest) => p + src == line + t + rest && Terminates(t, line) && |rest| < |src|
    decreases src
  {
    if src == "" {
      assert p + src == p;
    } else {
      var q := p + [src[0]];
      assert p + src == q + src[1..];
      FreeSnoc(t, p, src[0]);
      if EndsWith(q, t) {
        assert q == q[..|q| - |t|] + t;
      } else {
        ScanSound(t, q, src[1..]);
      }
    }
  }

  /** The first cut is found wherever the bytes before it were split between `p` and `src`. */
  lemma {:induction false} ScanComplete(t: string, p: string, src: string, line: string, rest: string)
    requires |t| > 0 && Terminates(t, line)
    requires p + src == line + t + rest && |p| < |line| + |t|
    ensures ScanFrom(t, p, src) == Piece(line, rest)
    decreases src
  {
    assert |src| > 0;
    var q := p + [src[0]];
    var whole := line + t;
    assert p + src == q + src[1..];
    assert q == (line + t + rest)[..|q|] == whole[..|q|];
    if EndsWith(q, t) {
      assert whole[|q| - |t|..|q|] == q[|q| - |t|..];
      assert OccursAt(t, whole, |q| - |t|);
      assert q == whole;
      assert src[1..] == (q + src[1..])[|q|..] == (whole + rest)[|whole|..];
      assert (line + t)[..|line|] == line;
    } else {
      assert whole[|line|..] == t;
      assert |q| == |whole| ==> q == whole;
      ScanComplete(t, q, src[1..], line, rest);
    }
  }

  lemma {:induction false} ScanFree(t: string, p: string, src: string)
    requires |t| > 0 && Free(t, p + src)
    ensures ScanFrom(t, p, src) == More(p + src)
    decreases src
  {
    if src == "" {
      assert p + src == p;
    } else {
      var q := p + [src[0]];
      assert p + src == q + src[1..];
      assert |t| <= |q| ==> (q + src[1..])[|q| - |t|..|q|] == q[|q| - |t|..];
      assert !OccursAt(t, p + src, |q| - |t|);
      ScanFree(t, q, src[1..]);
    }
  }

  /** Where the stream was interrupted does not matter: the scan resumes from the pending bytes. */
  lemma ScanResume(t: string, p: string, src: string)
    requires |t| > 0 && Free(t, p)
    ensures ScanFrom(t, "", p + src) == ScanFrom(t, p, src)
  {
    ScanSound(t, p, src);
    assert "" + (p + src) == p + src;
    match ScanFrom(t, p, src)
    case More(q) => ScanFree(t, "", p + src);
    case Piece(line, rest) => ScanComplete(t, "", p + src, line, rest);
  }

  /** All lines of a stream and the unfinished line at its end. */
  function Split(t: string, s: string): (r: (seq<string>, string))
    requires |t| > 0
    decreases |s|
  {
    FreeEmpty(t);
    ScanSound(t, "", s);
    match ScanFrom(t, "", s)
    case More(p) => ([], p)
    case Piece(line, rest) =>
      var (lines, p) := Split(t, rest);
      ([line] + lines, p)
  }

  /** One scan after an unfinished line takes the next line off the stream, so the lines that successive
      scans return, over any chunks, are the lines of the stream. */
  lemma ScanTakesNext(t: string, p: string, src: string)
    requires |t| > 0 && Free(t, p)
    ensures ScanFrom(t, p, src).More? ==> Split(t, p + src) == ([], ScanFrom(t, p, src).pending)
    ensures ScanFrom(t, p, src).Piece? ==>
      var after := Split(t, ScanFrom(t, p, src).rest);
      Split(t, p + src) == ([ScanFrom(t, p, src).line] + after.0, after.1)
  {
    ScanResume(t, p, src);
  }

  lemma FreeEmpty(t: string)
    requires |t| > 0
    ensures Free(t, "")
  {
  }

  /** Splitting by scanning is a cut into terminated lines and a terminator-free remainder. */
  lemma {:induction false} SplitSound(t: string, s: string)
    requires |t| > 0
    ensures IsSplit(t, s, Split(t, s).0, Split(t, s).1)
    decreases |s|
  {
    FreeEmpty(t);
    ScanSound(t, "", s);
    assert "" + s == s;
    match ScanFrom(t, "", s)
    case More(p) => assert Unsplit(t, []) + p == p;
    case Piece(line, rest) =>
      SplitSound(t, rest);
      var (lines, p) := Split(t, rest);
      assert ([line] + lines)[1..] == lines;
      assert line + t + (Unsplit(t, lines) + p) == line + t + Unsplit(t, lines) + p;
  }

  /** There is only one such cut. */
  lemma {:induction false} SplitUnique(t: string, s: string, pieces: seq<string>, rest: string)
    requires |t| > 0 && IsSplit(t, s, pieces, rest)
    ensures Split(t, s) == (pieces, rest)
    decreases pieces
  {
    assert "" + s == s;
    if pieces == [] {
      assert s == rest;
      ScanFree(t, "", s);
    } else {
      var tail := Unsplit(t, pieces[1..]) + rest;
      assert s == pieces[0] + t + tail;
      ScanComplete(t, "", s, pieces[0], tail);
      SplitUnique(t, tail, pieces[1..], rest);
      assert [pieces[0]] + pieces[1..] == pieces;
    }
  }

  lemma {:induction false} UnsplitAppend(t: string, a: seq<string>, b: seq<string>)
    ensures Unsplit(t, a + b) == Unsplit(t, a) + Unsplit(t, b)
  {
    if a == [] {
      assert a + b == b;
    } else {
      assert (a + b)[1..] == a[1..] + b;
      UnsplitAppend(t, a[1..], b);
    }
  }

  lemma IsSplitAppend(t: string, a: string, b: string, ls: seq<string>, p: string, ms: seq<string>, q: string)
    requires IsSplit(t, a, ls, p) && IsSplit(t, p + b, ms, q)
    ensures IsSplit(t, a + b, ls + ms, q)
  {
    UnsplitAppend(t, ls, ms);
    var x, y := Unsplit(t, ls), Unsplit(t, ms);
    assert a + b == x + (p + b) == x + (y + q) == (x + y) + q;
  }

  /** The lines of a stream that arrives in two chunks: those of the first chunk, then those of the
      unfinished line followed by the second chunk. */
  lemma SplitChunks(t: string, a: string, b: string)
    requires |t| > 0
    ensures Split(t, a + b) == (Split(t, a).0 + Split(t, Split(t, a).1 + b).0, Split(t, Split(t, a).1 + b).1)
  {
    var first := Split(t, a);
    var second := Split(t, first.1 + b);
    SplitSound(t, a);
    SplitSound(t, first.1 + b);
    IsSplitAppend(t, a, b, first.0, first.1, second.0, second.1);
    SplitUnique(t, a + b, first.0 + second.0, second.1);
  }

  /** For the line ends of SMTP, `Terminates` says only that the line contains no CRLF. */
  lemma TerminatesCrlf(line: string)
    ensures Terminates(CRLF, line) <==> Free(CRLF, line)
  {
    var whole := line + CRLF;
    forall i | 0 <= i <= |line| - 2 ensures OccursAt(CRLF, whole, i) <==> OccursAt(CRLF, line, i) {
      assert whole[i..i + 2] == line[i..i + 2];
    }
    assert |line| > 0 ==> whole[|line| - 1..|line| + 1][1] == '\r';
  }
}
