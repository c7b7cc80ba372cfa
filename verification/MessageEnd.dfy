/** How a DATA phase ends: kept, refused with which reply, or without any answer. */
module MessageEnd {
  import opened Bytes
  import opened Framing
  import opened Disk
  import opened Metadata
  import opened Machine
  import opened FileLayout
  import opened MessageText
  import Tar

  /** Back in command mode with the transaction forgotten, having said `said` and kept `kept`. */
  ghost function EndedWith(st: State, said: seq<Reply>, kept: seq<Commit>): iset<State> {
    iset next: State |
      && next.mode.Cmd? && next.cmd == st.cmd && next.line == ""
      && next.envelope == NO_ENVELOPE && !next.reverseSet && next.begun == st.begun
      && next.replies == st.replies + said && next.commits == st.commits + kept
  }

  lemma MessageEnds(st: State, ops: nat, error: bool, said: seq<Reply>, kept: seq<Commit>)
    requires st.line == ""
    ensures EndMessage(st, ops, error, said, kept) in EndedWith(st, said, kept)
  {
  }

  /** Finishing a message in which nothing has failed so far. */
  ghost function FinishSays(e: Env, ops: nat, m: Envelope): seq<Reply> {
    if !e.ok(ops) then [] else if AllOk(e, ops + 1, FinishOps(m)) then [Ok] else [LocalError]
  }

  ghost function FinishKeeps(e: Env, ops: nat, m: Envelope, file: string): seq<Commit> {
    if e.ok(ops) && AllOk(e, ops + 1, FinishOps(m)) then [Commit(m, file)] else []
  }

  lemma FinishedEnds(e: Env, st: State, w: Work, file: string)
    requires st.line == "" && !st.dataError && !st.dataTooLong && !st.lineTooLong
    requires w in Leaving(e, st.disk.ops + 1, FinishOps(st.envelope), file)
    ensures Finished(e, st, w)
         in EndedWith(st, FinishSays(e, st.disk.ops, st.envelope), FinishKeeps(e, st.disk.ops, st.envelope, file))
  {
    var ops := st.disk.ops;
    if !e.ok(ops) {
      MessageEnds(st, ops + 1, false, [], []);
    } else if w.error {
      MessageEnds(st, w.disk.ops, true, [LocalError], []);
    } else {
      MessageEnds(st, w.disk.ops, false, [Ok], [Commit(st.envelope, file)]);
    }
  }

  /** Finishing puts `file` together if its operations succeed. */
  ghost predicate Finishing(e: Env, st: State, file: string) {
    FinishWork(e, st) in Leaving(e, st.disk.ops + 1, FinishOps(st.envelope), file)
  }

  lemma WorkIs(e: Env, st: State, d: Disk)
    requires d == st.disk.(ops := st.disk.ops + 1) && !st.dataError
    ensures FinishWork(e, st) == Assemble(e, Work(d, false), st.envelope)
  {
  }

  lemma WorkLeaves(e: Env, st: State, ops: nat, n: nat, file: string)
    requires ops == st.disk.ops + 1 && n == FinishOps(st.envelope) && FinishWork(e, st) in Leaving(e, ops, n, file)
    ensures Finishing(e, st, file)
  {
  }

  lemma FinishAssembles(e: Env, st: State, room: string, content: string, d: Disk)
    requires d == st.disk.(ops := st.disk.ops + 1) && !st.dataError
    requires AtEnd(d) && |room| == Tar.BLOCK && d.bytes == room + content
    ensures Finishing(e, st, FileOf(e, d.ops, content, st.envelope))
  {
    WorkIs(e, st, d);
    AssembleFile(e, d, room, content, st.envelope);
    WorkLeaves(e, st, d.ops, FinishOps(st.envelope), FileOf(e, d.ops, content, st.envelope));
  }

  /** When a file operation has failed before, nothing is kept and the answer is a local error. */
  lemma FinishAfterErrorEnds(e: Env, st: State)
    requires st.line == "" && st.dataError && !st.dataTooLong && !st.lineTooLong
    ensures FinishData(e, st) in EndedWith(st, [LocalError], [])
  {
    MessageEnds(st, st.disk.ops + 1, true, [LocalError], []);
    MessageEnds(st, FinishWork(e, st).disk.ops, true, [LocalError], []);
  }

  // ----- The whole phase

  ghost predicate IsEndMarker(line: string) {
    IsEnd(line) && Terminates(CRLF, line) && |line| <= LINE_CAPACITY
  }

  /** The operations of a message of `n` lines after its start: the writes, the size, and finishing. */
  ghost predicate AllSucceed(e: Env, ops: nat, n: nat, m: Envelope) {
    AllOk(e, ops, n + 1 + FinishOps(m))
  }

  /** Nothing is wrong with the lines, and they are all in the file; `failed` is the error flag as they came. */
  ghost predicate Written(e: Env, failed: bool, ops: nat, lines: Summary) {
    !failed && lines.fit && lines.size <= e.maxDataSize && AllOk(e, ops, lines.count)
  }

  ghost predicate IsKept(e: Env, failed: bool, ops: nat, m: Envelope, lines: Summary) {
    !failed && lines.fit && lines.size <= e.maxDataSize && AllSucceed(e, ops, lines.count, m)
  }

  /** The one answer to a message; none when only asking for the size of the file fails. */
  ghost function Answer(e: Env, failed: bool, ops: nat, m: Envelope, lines: Summary): seq<Reply> {
    if lines.size > e.maxDataSize then [ExceededStorage]
    else if !lines.fit then [LineTooLong]
    else if failed || !AllOk(e, ops, lines.count) then [LocalError]
    else FinishSays(e, ops + lines.count, m)
  }

  ghost function KeptFiles(e: Env, failed: bool, ops: nat, m: Envelope, lines: Summary, file: string): seq<Commit> {
    if IsKept(e, failed, ops, m, lines) then [Commit(m, file)] else []
  }

  /** The file of a message of `n` lines started in `st`. */
  ghost function MessageFile(e: Env, st: State, n: nat, text: string): string
    requires |st.disk.bytes| >= Tar.BLOCK
  {
    FileOf(e, st.disk.ops + n + 1, st.disk.bytes[Tar.BLOCK..] + text, st.envelope)
  }

  lemma SameEnds(st: State, last: State, next: State, said: seq<Reply>, kept: seq<Commit>)
    requires SameTransaction(st, last) && next in EndedWith(last, said, kept)
    ensures next in EndedWith(st, said, kept)
  {
  }

  lemma WrittenIs(e: Env, ops: nat, at: nat, m: Envelope, lines: Summary, file: string)
    requires Written(e, false, ops, lines) && at == ops + lines.count
    ensures FinishSays(e, at, m) == Answer(e, false, ops, m, lines)
    ensures FinishKeeps(e, at, m, file) == KeptFiles(e, false, ops, m, lines, file)
  {
    AllOkAround(e, ops, lines.count, FinishOps(m));
  }

  lemma UnwrittenIs(e: Env, failed: bool, ops: nat, m: Envelope, lines: Summary, file: string)
    requires lines.fit && lines.size <= e.maxDataSize && (failed || !AllOk(e, ops, lines.count))
    ensures Answer(e, failed, ops, m, lines) == [LocalError]
    ensures KeptFiles(e, failed, ops, m, lines, file) == []
  {
    AllOkAround(e, ops, lines.count, FinishOps(m));
  }

  /** Where the end marker leads when the flags already refuse the message. */
  lemma RefusedEnds(e: Env, last: State, marker: string, said: seq<Reply>)
    requires last.line == "" && IsEndMarker(marker) && (last.lineTooLong || last.dataTooLong)
    requires said == (if last.dataTooLong then [ExceededStorage] else [LineTooLong])
    ensures DataLine(e, last, marker) in EndedWith(last, said, [])
  {
    MessageEnds(last, last.disk.ops, last.dataError, said, []);
  }

  lemma RefusedIs(e: Env, failed: bool, ops: nat, m: Envelope, lines: Summary, file: string)
    requires !lines.fit || lines.size > e.maxDataSize
    ensures Answer(e, failed, ops, m, lines) == (if lines.size > e.maxDataSize then [ExceededStorage] else [LineTooLong])
    ensures KeptFiles(e, failed, ops, m, lines, file) == []
  {
  }

  lemma EndsRefused(e: Env, failed: bool, ops: nat, last: State, lines: Summary, marker: string, m: Envelope, file: string)
    requires InMessage(e, last) && last.lineTooLong == !lines.fit && last.dataSize == lines.size && IsEndMarker(marker)
    requires !lines.fit || lines.size > e.maxDataSize
    ensures DataLine(e, last, marker)
         in EndedWith(last, Answer(e, failed, ops, m, lines), KeptFiles(e, failed, ops, m, lines, file))
  {
    RefusedIs(e, failed, ops, m, lines, file);
    RefusedEnds(e, last, marker, Answer(e, failed, ops, m, lines));
  }

  lemma EndsFailed(e: Env, failed: bool, ops: nat, last: State, lines: Summary, marker: string, m: Envelope, file: string)
    requires last.line == "" && IsEndMarker(marker) && !last.lineTooLong && !last.dataTooLong && last.dataError
    requires lines.fit && lines.size <= e.maxDataSize && (failed || !AllOk(e, ops, lines.count))
    ensures DataLine(e, last, marker)
         in EndedWith(last, Answer(e, failed, ops, m, lines), KeptFiles(e, failed, ops, m, lines, file))
  {
    UnwrittenIs(e, failed, ops, m, lines, file);
    FinishAfterErrorEnds(e, last);
  }

  lemma EndsWritten(e: Env, ops: nat, last: State, lines: Summary, marker: string, m: Envelope, file: string)
    requires last.line == "" && IsEndMarker(marker) && !last.lineTooLong && !last.dataTooLong && !last.dataError
    requires Written(e, false, ops, lines) && last.disk.ops == ops + lines.count && last.envelope == m
    requires Finishing(e, last, file)
    ensures DataLine(e, last, marker)
         in EndedWith(last, Answer(e, false, ops, m, lines), KeptFiles(e, false, ops, m, lines, file))
  {
    FinishedEnds(e, last, FinishWork(e, last), file);
    WrittenIs(e, ops, last.disk.ops, m, lines, file);
  }

  /** The end of data leads back to commands with one exact answer and exactly the kept file. */
  lemma EndsAfterLines(e: Env, st: State, last: State, lines: Summary, text: string, marker: string, file: string)
    requires AtMessageStart(st) && LinesDone(e, st, last, lines, text) && IsEndMarker(marker)
    requires Written(e, st.dataError, st.disk.ops, lines) ==> Finishing(e, last, file)
    ensures DataLine(e, last, marker)
         in EndedWith(last, Answer(e, st.dataError, st.disk.ops, st.envelope, lines),
                      KeptFiles(e, st.dataError, st.disk.ops, st.envelope, lines, file))
  {
    if !lines.fit || lines.size > e.maxDataSize {
      EndsRefused(e, st.dataError, st.disk.ops, last, lines, marker, st.envelope, file);
    } else if Written(e, st.dataError, st.disk.ops, lines) {
      EndsWritten(e, st.disk.ops, last, lines, marker, st.envelope, file);
    } else {
      EndsFailed(e, st.dataError, st.disk.ops, last, lines, marker, st.envelope, file);
    }
  }

  lemma FileIs(e: Env, st: State, last: State, n: nat, behind: string, text: string)
    requires SameTransaction(st, last) && last.disk.ops == st.disk.ops + n
    requires |st.disk.bytes| >= Tar.BLOCK && behind == st.disk.bytes[Tar.BLOCK..]
    ensures FileOf(e, last.disk.ops + 1, behind + text, last.envelope) == MessageFile(e, st, n, text)
  {
    assert last.disk.ops + 1 == st.disk.ops + n + 1;
  }

  lemma RoomFirst(disk: Disk, last: Disk, text: string) returns (room: string, behind: string)
    requires |disk.bytes| >= Tar.BLOCK && last.bytes == disk.bytes + text
    ensures |room| == Tar.BLOCK && behind == disk.bytes[Tar.BLOCK..] && last.bytes == room + (behind + text)
  {
    room, behind := disk.bytes[..Tar.BLOCK], disk.bytes[Tar.BLOCK..];
    Halves(disk.bytes, Tar.BLOCK);
    Regroup(room, behind, text);
  }

  lemma Assembled(e: Env, st: State, last: State, lines: Summary, text: string, n: nat)
    requires AtMessageStart(st) && LinesDone(e, st, last, lines, text) && n == lines.count
    requires Written(e, st.dataError, st.disk.ops, lines)
    ensures Finishing(e, last, MessageFile(e, st, n, text))
  {
    var room, behind := RoomFirst(st.disk, last.disk, text);
    FinishAssembles(e, last, room, behind + text, last.disk.(ops := last.disk.ops + 1));
    FileIs(e, st, last, n, behind, text);
  }

  /** What is said and what is kept of a message started in `st`. */
  ghost function SaidAfter(e: Env, st: State, lines: seq<string>): seq<Reply> {
    Answer(e, st.dataError, st.disk.ops, st.envelope, SummaryOf(lines))
  }

  ghost function KeptFrom(e: Env, st: State, lines: seq<string>): seq<Commit>
    requires |st.disk.bytes| >= Tar.BLOCK
  {
    KeptFiles(e, st.dataError, st.disk.ops, st.envelope, SummaryOf(lines), MessageFile(e, st, |lines|, Unstuffed(lines)))
  }

  lemma LastLineEnds(e: Env, st: State, lines: seq<string>, marker: string)
    requires AtMessageStart(st) && AreTextLines(lines) && IsEndMarker(marker)
    ensures DataLine(e, DataLines(e, st, lines), marker) in EndedWith(st, SaidAfter(e, st, lines), KeptFrom(e, st, lines))
  {
    var last, all, text := DataLines(e, st, lines), SummaryOf(lines), Unstuffed(lines);
    LinesOutcome(e, st, lines);
    if Written(e, st.dataError, st.disk.ops, all) {
      Assembled(e, st, last, all, text, |lines|);
    }
    EndsAfterLines(e, st, last, all, text, marker, MessageFile(e, st, |lines|, text));
    SameEnds(st, last, DataLine(e, last, marker), SaidAfter(e, st, lines), KeptFrom(e, st, lines));
  }

  /** The bytes of a DATA phase. */
  function MessageBytes(lines: seq<string>, marker: string): string {
    Unsplit(CRLF, lines) + (marker + CRLF)
  }

  lemma MessageTaken(e: Env, b: Behind, st: State, lines: seq<string>, marker: string)
    requires AtMessageStart(st) && AreTextLines(lines) && IsEndMarker(marker)
    ensures Run(e, b, st, MessageBytes(lines, marker)) == DataLine(e, DataLines(e, st, lines), marker)
  {
    RunLines(e, b, st, lines, marker + CRLF);
    LinesFlags(e, st, lines);
    LastLineTaken(e, b, DataLines(e, st, lines), marker);
  }

  lemma LastLineTaken(e: Env, b: Behind, last: State, marker: string)
    requires last.mode.Data? && last.line == "" && Terminates(CRLF, marker)
    ensures Run(e, b, last, marker + CRLF) == DataLine(e, last, marker)
  {
    OneLine(e, b, last, marker, "");
    assert marker + CRLF + "" == marker + CRLF;
  }

  /** A DATA phase, from any lines and any outcomes of the file operations, and whether or not an earlier
      message has set the error flag, ends in command mode with exactly this answer and exactly these files: the
      message is kept if and only if the flag is clear, every line has at most 996 bytes without its stuffed
      dot, the counted size is within the limit, and every one of its file operations succeeds. */
  lemma EndOfData(e: Env, b: Behind, st: State, lines: seq<string>, marker: string)
    requires AtMessageStart(st) && AreTextLines(lines) && IsEndMarker(marker)
    ensures Run(e, b, st, MessageBytes(lines, marker)) in EndedWith(st, SaidAfter(e, st, lines), KeptFrom(e, st, lines))
  {
    MessageTaken(e, b, st, lines, marker);
    LastLineEnds(e, st, lines, marker);
  }

  lemma KeptIff(e: Env, st: State, lines: seq<string>)
    requires |st.disk.bytes| >= Tar.BLOCK
    ensures KeptFrom(e, st, lines) != [] <==>
      !st.dataError && Fits(lines) && Size(lines) <= e.maxDataSize && AllSucceed(e, st.disk.ops, |lines|, st.envelope)
    ensures |KeptFrom(e, st, lines)| <= 1
  {
  }

  lemma CountKept(st: State, next: State, said: seq<Reply>, kept: seq<Commit>)
    requires next in EndedWith(st, said, kept) && |kept| <= 1
    ensures next.mode.Cmd?
    ensures |next.commits| == |st.commits| + 1 <==> kept != []
    ensures kept == [] ==> next.commits == st.commits
  {
    assert |next.commits| == |st.commits| + |kept|;
  }

  /** Read off the theorem: whether a message is kept. */
  lemma CommitIff(e: Env, b: Behind, st: State, lines: seq<string>, marker: string) returns (next: State)
    requires AtMessageStart(st) && AreTextLines(lines) && IsEndMarker(marker)
    ensures next == Run(e, b, st, MessageBytes(lines, marker)) && next.mode.Cmd?
    ensures |next.commits| == |st.commits| + 1 <==>
      !st.dataError && Fits(lines) && Size(lines) <= e.maxDataSize && AllSucceed(e, st.disk.ops, |lines|, st.envelope)
    ensures |next.commits| != |st.commits| + 1 ==> next.commits == st.commits
  {
    EndOfData(e, b, st, lines, marker);
    next := Run(e, b, st, MessageBytes(lines, marker));
    KeptIff(e, st, lines);
    CountKept(st, next, SaidAfter(e, st, lines), KeptFrom(e, st, lines));
  }

  /** A message gets no answer exactly when nothing is wrong with it and all its lines are written, but the
      size of its file cannot be asked for. */
  lemma SilentIff(e: Env, st: State, lines: seq<string>)
    ensures SaidAfter(e, st, lines) == [] <==>
      Written(e, st.dataError, st.disk.ops, SummaryOf(lines)) && !e.ok(st.disk.ops + |lines|)
  {
  }
}
