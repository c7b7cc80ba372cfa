/** What finishing a message leaves in its file, and when it succeeds. */
module FileLayout {
  import opened Bytes
  import opened Disk
  import opened Metadata
  import opened Machine
  import opened Tar
  import opened Archive

  lemma OneWrite(e: Env, d: Disk, s: string)
    ensures WriteAll(e, d, [s]) == Write(e, d, s)
  {
    assert [s][1..] == [];
  }

  lemma AllOkSplit(e: Env, from: nat, m: nat, n: nat)
    ensures AllOk(e, from, m + n) <==> AllOk(e, from, m) && AllOk(e, from + m, n)
  {
    if AllOk(e, from, m) && AllOk(e, from + m, n) {
      forall i | from <= i < from + (m + n) ensures e.ok(i) {
        assert i < from + m || from + m <= i;
      }
    }
  }

  /** A reserved block is filled without touching anything else. */
  lemma FillBlockOutcome(e: Env, d: Disk, before: string, room: string, behind: string, block: string)
    requires |block| == |room| && d.bytes == before + room + behind
    ensures var w := FillBlock(e, Work(d, false), |before|, block);
      && (!w.error <==> e.ok(d.ops)) && w.disk.ops == d.ops + 1
      && (!w.error ==> w.disk.bytes == before + block + behind)
  {
    OneWrite(e, SeekTo(d, |before|), block);
    ThreeParts(before, room, behind);
    OverwriteInside(d.bytes, |before|, block);
  }

  lemma PadOutcome(e: Env, d: Disk)
    ensures var w := Pad(e, Work(d, false));
      && (!w.error <==> e.ok(d.ops)) && w.disk.ops == d.ops + 1
      && (!w.error ==> AtEnd(w.disk) && w.disk.bytes == d.bytes + Padding(|d.bytes|))
  {
    OneWrite(e, SeekEnd(d), Padding(|d.bytes|));
  }

  /** The outcomes of `n` operations that leave `bytes` if they all succeed. */
  ghost function Leaving(e: Env, ops: nat, n: nat, bytes: string): iset<Work> {
    iset w: Work |
      && (!w.error <==> AllOk(e, ops, n))
      && (!w.error ==> AtEnd(w.disk) && w.disk.ops == ops + n && w.disk.bytes == bytes)
  }

  /** A member is complete once its header block is filled in and its end is padded. */
  lemma SealOutcome(e: Env, d: Disk, before: string, room: string, content: string, block: string)
    requires |block| == |room| && d.bytes == before + room + content
    ensures Pad(e, FillBlock(e, Work(d, false), |before|, block))
         in Leaving(e, d.ops, 2, before + block + content + Padding(|d.bytes|))
  {
    FillBlockOutcome(e, d, before, room, content, block);
    var w := FillBlock(e, Work(d, false), |before|, block);
    PadOutcome(e, w.disk);
    assert AllOk(e, d.ops, 2) <==> e.ok(d.ops) && e.ok(d.ops + 1);
  }

  /** The first member, in the block reserved for its header and behind the message. */
  lemma FinishMessageOutcome(e: Env, d: Disk, room: string, content: string, time: int)
    requires AtEnd(d) && |room| == BLOCK && d.bytes == room + content && time == e.clock(d.ops)
    ensures FinishMessage(e, Work(d, false)) in Leaving(e, d.ops, 2, Member1(content, time))
  {
    var header := Header(MESSAGE_NAME, |content|, time);
    assert "" + room + content == room + content;
    SealOutcome(e, d, "", room, content, header);
    assert "" + header + content == header + content;
  }

  /** The outcomes of `n` operations that append a reserved block and `text` to `d`. */
  ghost function Reserving(e: Env, d: Disk, n: nat, text: string): iset<Reserved> {
    iset r: Reserved |
      && (!r.work.error <==> AllOk(e, d.ops, n))
      && (!r.work.error ==> r.work.disk.bytes == d.bytes + Zeros(BLOCK) + text && r.work.disk.ops == d.ops + n
                            && r.work.disk.pos - r.start == |text|)
  }

  lemma ReserveOutcome(e: Env, d: Disk, m: Envelope)
    requires AtEnd(d)
    ensures Reserve(e, Work(d, false), m) in Reserving(e, d, 6 + 2 * |m.forwards|, Text(m))
  {
    var w1 := Checked(e, Work(d, false), [Zeros(BLOCK)]);
    OneWrite(e, d, Zeros(BLOCK));
    AllOkSplit(e, d.ops, 1, 5 + 2 * |m.forwards|);
    if !w1.error {
      assert w1.disk.bytes == d.bytes + Zeros(BLOCK);
      WriteAllOutcome(e, w1.disk, Pieces(m));
    }
  }

  lemma SamePadding(blocks: nat, size: nat)
    requires blocks % BLOCK == 0
    ensures Padding(blocks + BLOCK + size) == Padding(size)
  {
    assert (blocks + BLOCK + size) % BLOCK == size % BLOCK;
  }

  /** Sealing what has been appended behind whole blocks. */
  lemma SealSecond(e: Env, d: Disk, w: Work, n: nat, text: string, header: string)
    requires |d.bytes| % BLOCK == 0 && |header| == BLOCK
    requires !w.error && AllOk(e, d.ops, n)
    requires w.disk.bytes == d.bytes + Zeros(BLOCK) + text && w.disk.ops == d.ops + n
    ensures Pad(e, FillBlock(e, w, |d.bytes|, header))
         in Leaving(e, d.ops, n + 2, d.bytes + (header + text + Padding(|text|)))
  {
    AllOkSplit(e, d.ops, n, 2);
    assert w == Work(w.disk, false);
    SealOutcome(e, w.disk, d.bytes, Zeros(BLOCK), text, header);
    SamePadding(|d.bytes|, |text|);
    FourParts(d.bytes, header, text, Padding(|text|));
  }

  lemma SealAfterError(e: Env, w: Work, at: nat, block: string, ops: nat, n: nat, bytes: string)
    requires w.error && !AllOk(e, ops, n)
    ensures Pad(e, FillBlock(e, w, at, block)) in Leaving(e, ops, n, bytes)
  {
  }

  /** Filling in the header of whatever text has been appended where a block starts. */
  lemma FillReservedOutcome(e: Env, d: Disk, r: Reserved, n: nat, text: string, time: int)
    requires AtEnd(d) && |d.bytes| % BLOCK == 0 && time == e.clock(d.ops + n)
    requires r in Reserving(e, d, n, text)
    ensures FillReserved(e, d.pos, r) in Leaving(e, d.ops, n + 2, d.bytes + Member2(text, time))
  {
    var w := r.work;
    if w.error {
      AllOkSplit(e, d.ops, n, 2);
      var block := Header(METADATA_NAME, w.disk.pos - r.start, e.clock(w.disk.ops));
      SealAfterError(e, w, d.pos, block, d.ops, n + 2, d.bytes + Member2(text, time));
    } else {
      SealSecond(e, d, w, n, text, Header(METADATA_NAME, |text|, time));
    }
  }

  lemma AppendMetadataOutcome(e: Env, d: Disk, m: Envelope, n: nat, time: int)
    requires AtEnd(d) && |d.bytes| % BLOCK == 0
    requires n == 6 + 2 * |m.forwards| && time == e.clock(d.ops + n)
    ensures AppendMetadata(e, Work(d, false), m) in Leaving(e, d.ops, n + 2, d.bytes + Member2(Text(m), time))
  {
    ReserveOutcome(e, d, m);
    FillReservedOutcome(e, d, Reserve(e, Work(d, false), m), n, Text(m), time);
  }

  lemma PaddedLength(n: nat)
    ensures (BLOCK + n + (BLOCK - (BLOCK + n) % BLOCK)) % BLOCK == 0
  {
    var q, r := (BLOCK + n) / BLOCK, (BLOCK + n) % BLOCK;
    assert BLOCK + n + (BLOCK - r) == BLOCK * (q + 1);
  }

  lemma Member1IsBlocks(content: string, time: int)
    ensures |Member1(content, time)| % BLOCK == 0
  {
    PaddedLength(|content|);
  }

  /** Operations from filling the first header to the final sync. */
  function FinishOps(m: Envelope): nat {
    11 + 2 * |m.forwards|
  }

  lemma AppendBehind(e: Env, ops: nat, k: nat, one: string, w: Work, m: Envelope, n: nat, time: int, at: nat)
    requires w in Leaving(e, ops, k, one) && |one| % BLOCK == 0
    requires n == 6 + 2 * |m.forwards| && at == ops + k + n && time == e.clock(at)
    ensures !w.error ==> AppendMetadata(e, w, m) in Leaving(e, ops + k, n + 2, one + Member2(Text(m), time))
  {
    if !w.error {
      assert w == Work(w.disk, false);
      AppendMetadataOutcome(e, w.disk, m, n, time);
    }
  }

  lemma ConcludedOutcome(e: Env, ops: nat, m: nat, n: nat, one: string, all: string, w1: Work, w2: Work)
    requires w1 in Leaving(e, ops, m, one)
    requires !w1.error ==> w2 in Leaving(e, ops + m, n, all)
    ensures Concluded(e, w1, w2) in Leaving(e, ops, m + n + 1, all)
  {
    AllOkSplit(e, ops, m, n + 1);
    AllOkSplit(e, ops + m, n, 1);
  }

  /** Both members in turn, the second one if the first has succeeded. */
  lemma BothMembers(e: Env, d: Disk, room: string, content: string, m: Envelope, at: nat, time1: int, time2: int)
    requires AtEnd(d) && |room| == BLOCK && d.bytes == room + content
    requires at == d.ops + 8 + 2 * |m.forwards| && time1 == e.clock(d.ops) && time2 == e.clock(at)
    ensures var w1 := FinishMessage(e, Work(d, false));
      var one := Member1(content, time1);
      && w1 in Leaving(e, d.ops, 2, one)
      && (!w1.error ==> AppendMetadata(e, w1, m)
                        in Leaving(e, d.ops + 2, 8 + 2 * |m.forwards|, one + Member2(Text(m), time2)))
  {
    var w1 := FinishMessage(e, Work(d, false));
    FinishMessageOutcome(e, d, room, content, time1);
    Member1IsBlocks(content, time1);
    AppendBehind(e, d.ops, 2, Member1(content, time1), w1, m, 6 + 2 * |m.forwards|, time2, at);
  }

  /** Finishing succeeds exactly when each of its operations does, and then leaves exactly the container:
      the seek-back writes have gone into the reserved blocks only, and both members end on a block. */
  lemma AssembleOutcome(e: Env, d: Disk, room: string, content: string, m: Envelope, at: nat, time1: int, time2: int)
    requires AtEnd(d) && |room| == BLOCK && d.bytes == room + content
    requires at == d.ops + 8 + 2 * |m.forwards| && time1 == e.clock(d.ops) && time2 == e.clock(at)
    ensures Assemble(e, Work(d, false), m) in Leaving(e, d.ops, FinishOps(m), Container(content, Text(m), time1, time2))
  {
    BothMembers(e, d, room, content, m, at, time1, time2);
    var w1 := FinishMessage(e, Work(d, false));
    ConcludedOutcome(e, d.ops, 2, 8 + 2 * |m.forwards|, Member1(content, time1),
                     Container(content, Text(m), time1, time2), w1, AppendMetadata(e, w1, m));
  }

  /** The times in the two headers of a file that finishing starts to put together at operation `ops`. */
  function Time1(e: Env, ops: nat): int {
    e.clock(ops)
  }

  function Time2(e: Env, ops: nat, m: Envelope): int {
    e.clock(ops + 8 + 2 * |m.forwards|)
  }

  /** The file a message is kept in: the trace and the text, and the envelope. */
  function FileOf(e: Env, ops: nat, content: string, m: Envelope): string {
    Container(content, Text(m), Time1(e, ops), Time2(e, ops, m))
  }

  lemma AssembleFile(e: Env, d: Disk, room: string, content: string, m: Envelope)
    requires AtEnd(d) && |room| == BLOCK && d.bytes == room + content
    ensures Assemble(e, Work(d, false), m) in Leaving(e, d.ops, FinishOps(m), FileOf(e, d.ops, content, m))
  {
    AssembleOutcome(e, d, room, content, m, d.ops + 8 + 2 * |m.forwards|, Time1(e, d.ops), Time2(e, d.ops, m));
  }

  lemma AllOkAround(e: Env, from: nat, m: nat, n: nat)
    ensures AllOk(e, from, m + 1 + n) <==> AllOk(e, from, m) && e.ok(from + m) && AllOk(e, from + m + 1, n)
  {
    AllOkSplit(e, from, m + 1, n);
    AllOkSplit(e, from, m, 1);
  }
}
