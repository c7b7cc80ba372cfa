/** The metadata member: four Base64 lines, then the greeting name and the paths, one to a line. */
module Metadata {
  import opened Bytes
  import opened Framing
  import opened Base64

  const BLOCK_BYTES := 32

  predicate AreBlocks(blocks: seq<string>) {
    |blocks| == 4 && forall i :: 0 <= i < 4 ==> |blocks[i]| == BLOCK_BYTES
  }

  /** The four fixed-size lines of the metadata. */
  type Blocks = b: seq<string> | AreBlocks(b) witness ZeroBlocks()

  function ZeroBlocks(): (blocks: seq<string>)
    ensures AreBlocks(blocks)
    ensures forall i :: 0 <= i < 4 ==> |blocks[i]| == 32 && forall k :: 0 <= k < 32 ==> blocks[i][k] == '\0'
  {
    var b := Zeros(BLOCK_BYTES);
    [b, b, b, b]
  }

  datatype Envelope = Envelope(blocks: Blocks, from: string, reverse: string, forwards: seq<string>)

  function BlockLines(blocks: seq<string>): string {
    if blocks == [] then "" else Encode(blocks[0]) + CRLF + BlockLines(blocks[1..])
  }

  lemma FourBlockLines(b: Blocks)
    ensures BlockLines(b)
         == Encode(b[0]) + CRLF + (Encode(b[1]) + CRLF) + (Encode(b[2]) + CRLF) + (Encode(b[3]) + CRLF)
  {
    BlockLinesAre(b, [Encode(b[0]), Encode(b[1]), Encode(b[2]), Encode(b[3])]);
  }

  lemma BlockLinesAre(b: Blocks, t: seq<string>)
    requires |t| == 4 && forall i :: 0 <= i < 4 ==> t[i] == Encode(b[i])
    ensures BlockLines(b) == t[0] + CRLF + (t[1] + CRLF) + (t[2] + CRLF) + (t[3] + CRLF)
  {
    var c, d, e := b[1..], b[2..], b[3..];
    assert c[1..] == d && d[1..] == e && e[1..] == [];
    assert BlockLines(e) == t[3] + CRLF + "" == t[3] + CRLF;
    assert BlockLines(d) == t[2] + CRLF + BlockLines(e);
    assert BlockLines(c) == t[1] + CRLF + BlockLines(d);
    FourParts(t[0] + CRLF, t[1] + CRLF, t[2] + CRLF, t[3] + CRLF);
  }

  function ForwardPieces(forwards: seq<string>): (p: seq<string>)
    ensures |p| == 2 * |forwards|
  {
    if forwards == [] then [] else [forwards[0], CRLF] + ForwardPieces(forwards[1..])
  }

  /** What is written, write by write. */
  function Pieces(m: Envelope): (p: seq<string>)
    ensures |p| == 5 + 2 * |m.forwards|
  {
    [BlockLines(m.blocks), m.from, CRLF, m.reverse, CRLF] + ForwardPieces(m.forwards)
  }

  function Text(m: Envelope): string {
    Concat(Pieces(m))
  }

  // ----- Reading it back

  function Lines(m: Envelope): seq<string> {
    [Encode(m.blocks[0]), Encode(m.blocks[1]), Encode(m.blocks[2]), Encode(m.blocks[3]), m.from, m.reverse] + m.forwards
  }

  /** A reader that knows only lines and Base64. */
  function Read(text: string): Option<Envelope> {
    var (lines, rest) := Split(CRLF, text);
    if rest != "" || |lines| < 6 then None
    else
      var blocks := [Decode(lines[0]), Decode(lines[1]), Decode(lines[2]), Decode(lines[3])];
      if AreBlocks(blocks) then Some(Envelope(blocks, lines[4], lines[5], lines[6..])) else None
  }

  lemma QuartersOf(q: nat, r: nat)
    requires r < 3
    ensures (4 * q + r + 3) / 4 == q + (r + 3) / 4
    ensures (3 * q + r + 2) / 3 == q + (r + 2) / 3
    ensures (r + 3) / 4 == (r + 2) / 3
  {
  }

  /** The source's arithmetic for the length of an encoded block is that of the encoder, for every length. */
  lemma LengthFormula(n: nat)
    ensures (((n + n / 3) + 3) / 4) * 4 == 4 * ((n + 2) / 3)
  {
    var q, r := n / 3, n % 3;
    QuartersOf(q, r);
    assert n + q + 3 == 4 * q + r + 3 && n + 2 == 3 * q + r + 2;
  }

  lemma BlockLineLength(block: string)
    requires |block| == BLOCK_BYTES
    ensures |Encode(block)| == 44
  {
  }

  lemma {:induction false} ForwardsText(forwards: seq<string>)
    ensures Concat(ForwardPieces(forwards)) == Unsplit(CRLF, forwards)
  {
    if forwards != [] {
      var more := ForwardPieces(forwards[1..]);
      var p := ForwardPieces(forwards);
      ForwardsText(forwards[1..]);
      assert p[1..] == [CRLF] + more && p[1..][1..] == more;
      Regroup(forwards[0], CRLF, Concat(more));
    }
  }

  lemma ConcatSnoc(a: seq<string>, b: string)
    ensures Concat(a + [b]) == Concat(a) + b
  {
    ConcatAppend(a, [b]);
    assert [b][1..] == [];
    assert b + "" == b;
  }

  lemma FivePieces(a: string, b: string, c: string, d: string, e: string, more: seq<string>)
    ensures Concat([a, b, c, d, e] + more) == a + b + c + d + e + Concat(more)
  {
    ConcatAppend([a, b, c, d, e], more);
    ConcatSnoc([], a);
    ConcatSnoc([a], b);
    ConcatSnoc([a, b], c);
    ConcatSnoc([a, b, c], d);
    ConcatSnoc([a, b, c, d], e);
    assert [] + [a] == [a] && "" + a == a;
    assert [a] + [b] == [a, b] && [a, b] + [c] == [a, b, c];
    assert [a, b, c] + [d] == [a, b, c, d] && [a, b, c, d] + [e] == [a, b, c, d, e];
  }

  lemma UnsplitSnoc(a: seq<string>, b: string)
    ensures Unsplit(CRLF, a + [b]) == Unsplit(CRLF, a) + (b + CRLF)
  {
    UnsplitAppend(CRLF, a, [b]);
    assert [b][1..] == [];
    assert b + CRLF + "" == b + CRLF;
  }

  lemma SixLines(a: string, b: string, c: string, d: string, e: string, f: string, more: seq<string>)
    ensures Unsplit(CRLF, [a, b, c, d, e, f] + more)
         == a + CRLF + (b + CRLF) + (c + CRLF) + (d + CRLF) + (e + CRLF) + (f + CRLF) + Unsplit(CRLF, more)
  {
    UnsplitAppend(CRLF, [a, b, c, d, e, f], more);
    UnsplitSnoc([], a);
    UnsplitSnoc([a], b);
    UnsplitSnoc([a, b], c);
    UnsplitSnoc([a, b, c], d);
    UnsplitSnoc([a, b, c, d], e);
    UnsplitSnoc([a, b, c, d, e], f);
    assert [] + [a] == [a] && "" + (a + CRLF) == a + CRLF;
    assert [a] + [b] == [a, b] && [a, b] + [c] == [a, b, c];
    assert [a, b, c] + [d] == [a, b, c, d] && [a, b, c, d] + [e] == [a, b, c, d, e];
    assert [a, b, c, d, e] + [f] == [a, b, c, d, e, f];
  }

  lemma TextIsLines(m: Envelope)
    ensures Text(m) == Unsplit(CRLF, Lines(m))
  {
    var b := m.blocks;
    FourBlockLines(b);
    FivePieces(BlockLines(b), m.from, CRLF, m.reverse, CRLF, ForwardPieces(m.forwards));
    ForwardsText(m.forwards);
    SixLines(Encode(b[0]), Encode(b[1]), Encode(b[2]), Encode(b[3]), m.from, m.reverse, m.forwards);
    Regroup(BlockLines(b), m.from, CRLF);
    Regroup(BlockLines(b) + (m.from + CRLF), m.reverse, CRLF);
  }

  lemma PrintableTerminates(line: string)
    requires AllPrintable(line)
    ensures Terminates(CRLF, line)
  {
    forall i | 0 <= i <= |line| - 2 ensures !OccursAt(CRLF, line, i) {
      assert line[i..i + 2][0] == line[i];
    }
    TerminatesCrlf(line);
  }

  /** Nothing in the envelope breaks a line, and the blocks hold bytes. */
  ghost predicate IsReadable(m: Envelope) {
    && (forall i :: 0 <= i < 4 ==> IsByteString(m.blocks[i]))
    && AllPrintable(m.from) && AllPrintable(m.reverse)
    && forall i :: 0 <= i < |m.forwards| ==> AllPrintable(m.forwards[i])
  }

  lemma LinesTerminate(m: Envelope)
    requires IsReadable(m)
    ensures forall k :: 0 <= k < |Lines(m)| ==> Terminates(CRLF, Lines(m)[k])
  {
    forall k | 0 <= k < |Lines(m)| ensures Terminates(CRLF, Lines(m)[k]) {
      if k < 4 {
        EncodeIsPrintable(m.blocks[k]);
      }
      PrintableTerminates(Lines(m)[k]);
    }
  }

  lemma LineIs(m: Envelope, k: nat)
    requires k < 4
    ensures Lines(m)[k] == Encode(m.blocks[k])
  {
  }

  lemma BlocksDecode(m: Envelope)
    requires IsReadable(m)
    ensures forall k :: 0 <= k < 4 ==> Decode(Lines(m)[k]) == m.blocks[k]
  {
    forall k | 0 <= k < 4 ensures Decode(Lines(m)[k]) == m.blocks[k] {
      LineIs(m, k);
      DecodeEncode(m.blocks[k]);
    }
  }

  /** Reading the text gives back the envelope. */
  lemma ReadsBack(m: Envelope)
    requires IsReadable(m)
    ensures Read(Text(m)) == Some(m)
  {
    var b, lines := m.blocks, Lines(m);
    TextIsLines(m);
    LinesTerminate(m);
    assert Unsplit(CRLF, lines) + "" == Unsplit(CRLF, lines);
    SplitUnique(CRLF, Text(m), lines, "");
    BlocksDecode(m);
    assert [b[0], b[1], b[2], b[3]] == b;
    assert lines[6..] == m.forwards;
  }
}
