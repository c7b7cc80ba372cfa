/** Writing the metadata member. */
module MetadataWriter {
  import opened Bytes
  import opened Base64
  import opened Disk
  import opened Metadata

  /** The `i`th cell of the buffer, 44 characters for an encoded block, and the two characters behind it. */
  function Cell(text: string, i: nat): string
    requires i < 4 && |text| == 184
  {
    text[46 * i..46 * i + 44]
  }

  function Ending(text: string, i: nat): string
    requires i < 4 && |text| == 184
  {
    text[46 * i + 44..46 * (i + 1)]
  }

  method EncodeBlock(buffer: array<char>, i: nat, block: string)
    requires i < 4 && buffer.Length == 184 && |block| == BLOCK_BYTES
    modifies buffer
    ensures Cell(buffer[..], i) == Encode(block)
    ensures forall j :: 0 <= j < 4 && j != i ==> Cell(buffer[..], j) == old(Cell(buffer[..], j))
  {
    ghost var was := buffer[..];
    var at := 46 * i;
    var n := EncodeInto(block, buffer, at);
    ghost var now := buffer[..];
    BlockLineLength(block);
    assert now[at..at + n] == buffer[at..at + n];
    assert now[..at] == was[..at] && now[at + n..] == was[at + n..];
    forall j | 0 <= j < 4 && j != i ensures Cell(now, j) == Cell(was, j) {
      CellKept(now, was, i, j);
    }
  }

  lemma CellKept(now: string, was: string, i: nat, j: nat)
    requires i < 4 && j < 4 && i != j && |now| == |was| == 184
    requires now[..46 * i] == was[..46 * i] && now[46 * i + 44..] == was[46 * i + 44..]
    ensures Cell(now, j) == Cell(was, j)
  {
    if j < i {
      SliceBefore(now, was, 46 * i, 46 * j, 46 * j + 44);
    } else {
      SliceBehind(now, was, 46 * i + 44, 46 * j, 46 * j + 44);
    }
  }

  lemma Untouched(now: string, was: string, at: nat, lo: nat, hi: nat)
    requires |now| == |was| && lo <= hi <= |now| && at + 2 <= |now|
    requires now == was[at := '\r'][at + 1 := '\n']
    requires hi <= at || at + 2 <= lo
    ensures now[lo..hi] == was[lo..hi] && now[at..at + 2] == CRLF
  {
  }

  method EndLine(buffer: array<char>, i: nat)
    requires 0 < i < 5 && buffer.Length == 184
    modifies buffer
    ensures Ending(buffer[..], i - 1) == CRLF
    ensures forall j :: 0 <= j < 4 ==> Cell(buffer[..], j) == old(Cell(buffer[..], j))
    ensures forall j :: 0 <= j < 4 && j != i - 1 ==> Ending(buffer[..], j) == old(Ending(buffer[..], j))
  {
    ghost var was, at := buffer[..], 46 * i - 2;
    buffer[46 * i - 2] := '\r';
    buffer[46 * i - 1] := '\n';
    ghost var now := buffer[..];
    assert now == was[at := '\r'][at + 1 := '\n'];
    Untouched(now, was, at, 0, 0);
    forall j | 0 <= j < 4 ensures Cell(now, j) == Cell(was, j) {
      Untouched(now, was, at, 46 * j, 46 * j + 44);
    }
    forall j | 0 <= j < 4 && j != i - 1 ensures Ending(now, j) == Ending(was, j) {
      Untouched(now, was, at, 46 * j + 44, 46 * (j + 1));
    }
  }

  /** The four lines tile their buffer: the blocks go in first, then the line ends between them. */
  method FillBlocks(blocks: Blocks) returns (buffer: array<char>)
    ensures fresh(buffer) && buffer[..] == BlockLines(blocks)
  {
    buffer := new char[184];
    EncodeBlock(buffer, 0, blocks[0]);
    EncodeBlock(buffer, 1, blocks[1]);
    EncodeBlock(buffer, 2, blocks[2]);
    EncodeBlock(buffer, 3, blocks[3]);
    label Encoded:
    for i := 1 to 5
      invariant forall j :: 0 <= j < 4 ==> Cell(buffer[..], j) == old@Encoded(Cell(buffer[..], j))
      invariant forall j :: 0 <= j < i - 1 ==> Ending(buffer[..], j) == CRLF
    {
      EndLine(buffer, i);
    }
    FourBlockLines(blocks);
    Tiled(buffer[..]);
  }

  lemma Tiled(text: string)
    requires |text| == 184
    ensures text == Cell(text, 0) + Ending(text, 0) + (Cell(text, 1) + Ending(text, 1))
                  + (Cell(text, 2) + Ending(text, 2)) + (Cell(text, 3) + Ending(text, 3))
  {
  }

  lemma NextWrite(e: Env, d: Disk, pieces: seq<string>, k: nat)
    requires k < |pieces|
    ensures WriteAll(e, d, pieces[k..]) ==
      var (d1, ok) := Write(e, d, pieces[k]);
      if ok then WriteAll(e, d1, pieces[k + 1..]) else (d1, false)
  {
    assert pieces[k..][1..] == pieces[k + 1..];
  }

  lemma Shifted(a: string, b: string, more: seq<string>, j: nat)
    requires j + 1 < |more|
    ensures ([a, b] + more)[j + 2] == more[j] && ([a, b] + more)[j + 3] == more[j + 1]
  {
  }

  lemma {:induction false} ForwardPiecesAt(forwards: seq<string>, k: nat, j: nat)
    requires k < |forwards| && j == k + k
    ensures ForwardPieces(forwards)[j] == forwards[k] && ForwardPieces(forwards)[j + 1] == CRLF
    decreases k
  {
    if k > 0 {
      ForwardPiecesAt(forwards[1..], k - 1, j - 2);
      Shifted(forwards[0], CRLF, ForwardPieces(forwards[1..]), j - 2);
    }
  }

  /** Writes the blocks, the name, the reverse path and every forward path, each with its line end, and
      stops at the first write that fails. */
  method WriteTo(file: File, m: Envelope) returns (ok: bool)
    modifies file
    ensures (file.State(), ok) == WriteAll(file.env, old(file.State()), Pieces(m))
  {
    ghost var pieces := Pieces(m);
    var buffer := FillBlocks(m.blocks);
    assert [buffer[..], m.from, CRLF, m.reverse, CRLF] == pieces[..5];
    forall k | 0 <= k < |m.forwards| ensures pieces[5 + 2 * k] == m.forwards[k] && pieces[6 + 2 * k] == CRLF {
      ForwardPiecesAt(m.forwards, k, k + k);
    }
    ok := PutHead(file, [buffer[..], m.from, CRLF, m.reverse, CRLF], pieces);
    if !ok {
      return false;
    }
    ok := PutForwards(file, m.forwards, pieces);
  }

  /** The first pieces, one write each. */
  method PutHead(file: File, head: seq<string>, ghost pieces: seq<string>) returns (ok: bool)
    requires head <= pieces
    modifies file
    ensures WriteAll(file.env, old(file.State()), pieces) ==
      if ok then WriteAll(file.env, file.State(), pieces[|head|..]) else (file.State(), false)
  {
    ghost var all := WriteAll(file.env, file.State(), pieces);
    assert pieces[0..] == pieces;
    for k := 0 to |head|
      invariant all == WriteAll(file.env, file.State(), pieces[k..])
    {
      NextWrite(file.env, file.State(), pieces, k);
      ok := file.Put(head[k]);
      if !ok {
        return false;
      }
    }
    return true;
  }

  /** Every forward path and its line end. */
  method PutForwards(file: File, forwards: seq<string>, ghost pieces: seq<string>) returns (ok: bool)
    requires |pieces| == 5 + 2 * |forwards|
    requires forall k :: 0 <= k < |forwards| ==> pieces[5 + 2 * k] == forwards[k] && pieces[6 + 2 * k] == CRLF
    modifies file
    ensures (file.State(), ok) == WriteAll(file.env, old(file.State()), pieces[5..])
  {
    ghost var all := WriteAll(file.env, file.State(), pieces[5..]);
    for k := 0 to |forwards|
      invariant all == WriteAll(file.env, file.State(), pieces[5 + 2 * k..])
    {
      NextWrite(file.env, file.State(), pieces, 5 + 2 * k);
      ok := file.Put(forwards[k]);
      if !ok {
        return false;
      }
      NextWrite(file.env, file.State(), pieces, 6 + 2 * k);
      ok := file.Put(CRLF);
      if !ok {
        return false;
      }
    }
    return true;
  }
}
