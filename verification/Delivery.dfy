/** From the text a client means to the file a reader gets. */
module Delivery {
  import opened Bytes
  import opened Framing
  import opened Disk
  import opened Metadata
  import opened Machine
  import opened SessionInvariant
  import opened FileLayout
  import opened MessageText
  import opened MessageEnd
  import Tar
  import opened Archive

  /** What a client does to a line, section 4.5.2 of RFC 5321. */
  function Stuff(line: string): string {
    if line != "" && line[0] == '.' then "." + line else line
  }

  function Stuffed(lines: seq<string>): seq<string> {
    seq(|lines|, i requires 0 <= i < |lines| => Stuff(lines[i]))
  }

  /** Lines without a line end inside; every other byte is allowed, NUL included. */
  ghost predicate AreLines(lines: seq<string>) {
    forall i :: 0 <= i < |lines| ==> Terminates(CRLF, lines[i])
  }

  /** Stuffing is undone, never ends the message and never breaks a line. */
  lemma StuffedLine(line: string)
    requires Terminates(CRLF, line)
    ensures Unstuff(Stuff(line)) == line && IsTextLine(Stuff(line))
  {
    if line != "" && line[0] == '.' {
      TerminatesCrlf(line);
      FreePrefixed('.', line);
      TerminatesCrlf("." + line);
    }
  }

  lemma FreePrefixed(c: char, s: string)
    requires c != '\r' && Free(CRLF, s)
    ensures Free(CRLF, [c] + s)
  {
    forall i ensures !OccursAt(CRLF, [c] + s, i) {
      if 0 < i <= |s| - 1 {
        assert !OccursAt(CRLF, s, i - 1);
        assert ([c] + s)[i..i + 2] == s[i - 1..i + 1];
      } else if i == 0 && |s| >= 1 {
        assert ([c] + s)[0..2][0] == c;
      }
    }
  }

  lemma StuffedTail(lines: seq<string>)
    requires lines != []
    ensures Stuffed(lines)[1..] == Stuffed(lines[1..])
  {
  }

  /** The machine takes off exactly what stuffing put on. */
  lemma {:induction false} StuffedText(lines: seq<string>)
    requires AreLines(lines)
    ensures AreTextLines(Stuffed(lines))
    ensures Unstuffed(Stuffed(lines)) == Unsplit(CRLF, lines)
    ensures Fits(Stuffed(lines)) <==> ShortLines(lines)
  {
    forall i | 0 <= i < |lines| ensures IsTextLine(Stuffed(lines)[i]) && Unstuff(Stuffed(lines)[i]) == lines[i] {
      StuffedLine(lines[i]);
    }
    if lines != [] {
      StuffedText(lines[1..]);
      StuffedTail(lines);
      StuffedLine(lines[0]);
    }
  }

  ghost predicate ShortLines(lines: seq<string>) {
    forall i :: 0 <= i < |lines| ==> |lines[i]| <= TEXT_LINE_MAX
  }

  /** Lines that fit are counted with their line ends and without their stuffed dots. */
  lemma {:induction false} StuffedSize(lines: seq<string>)
    requires AreLines(lines) && ShortLines(lines)
    ensures Size(Stuffed(lines)) == |Unsplit(CRLF, lines)|
  {
    if lines != [] {
      StuffedSize(lines[1..]);
      StuffedTail(lines);
      StuffedLine(lines[0]);
    }
  }

  // ----- Starting a message

  /** Where an accepted DATA leads: the trace in the file, and everything else as it was. */
  ghost function Starts(e: Env, st: State): iset<State> {
    iset next: State |
      && AtMessageStart(next) && !next.dataError
      && next.disk.bytes == Zeros(Tar.BLOCK) + TraceText(e, st.disk.ops)
      && next.disk.ops == OpenedAt(e, st)
      && next.cmd == st.cmd && next.envelope == st.envelope && next.begun == st.begun
      && next.replies == st.replies + [StartData] && next.commits == st.commits
  }

  /** The first operation after opening. */
  function OpenedAt(e: Env, st: State): nat {
    st.disk.ops + OpenOps(e, st.disk.ops)
  }

  lemma StartsMessage(e: Env, st: State)
    requires st.line == "" && !st.dataError && st.reverseSet && st.envelope.forwards != []
    requires AllOk(e, st.disk.ops, OpenOps(e, st.disk.ops))
    ensures StartMessage(e, st) in Starts(e, st)
  {
    OpenFileOutcome(e, st.disk);
  }

  // ----- A delivery

  ghost predicate Delivers(e: Env, ops: nat, m: Envelope, lines: seq<string>) {
    ShortLines(lines) && |Unsplit(CRLF, lines)| <= e.maxDataSize && AllSucceed(e, ops, |lines|, m)
  }

  /** What the message member holds: the trace, and each line with its end. */
  function Content(trace: string, lines: seq<string>): string {
    trace + Unsplit(CRLF, lines)
  }

  /** The file of a message with this trace and these lines. */
  ghost function DeliveredFile(e: Env, ops: nat, trace: string, m: Envelope, lines: seq<string>): string {
    FileOf(e, ops + |lines| + 1, Content(trace, lines), m)
  }

  ghost function DeliveredFiles(e: Env, ops: nat, trace: string, m: Envelope, lines: seq<string>): seq<Commit> {
    if Delivers(e, ops, m, lines) then [Commit(m, DeliveredFile(e, ops, trace, m, lines))] else []
  }

  lemma DeliversIff(e: Env, ops: nat, m: Envelope, lines: seq<string>)
    requires AreLines(lines)
    ensures IsKept(e, false, ops, m, SummaryOf(Stuffed(lines))) <==> Delivers(e, ops, m, lines)
  {
    StuffedText(lines);
    if ShortLines(lines) {
      StuffedSize(lines);
    }
  }

  lemma DeliveredFilesAre(e: Env, start: State, trace: string, m: Envelope, lines: seq<string>)
    requires AreLines(lines) && start.disk.bytes == Zeros(Tar.BLOCK) + trace && start.envelope == m && !start.dataError
    ensures KeptFrom(e, start, Stuffed(lines))
         == DeliveredFiles(e, start.disk.ops, trace, m, lines)
  {
    DeliversIff(e, start.disk.ops, m, lines);
    StuffedText(lines);
    Parts(Zeros(Tar.BLOCK), trace);
  }

  lemma EndMarker()
    ensures IsEndMarker(".")
  {
    TerminatesCrlf(".");
  }

  /** The text phase of a message started in `start`, whatever the lines hold. */
  lemma TextDelivered(e: Env, b: Behind, start: State, trace: string, lines: seq<string>)
    requires AtMessageStart(start) && start.disk.bytes == Zeros(Tar.BLOCK) + trace
    requires AreLines(lines) && !start.dataError
    ensures Run(e, b, start, MessageBytes(Stuffed(lines), "."))
         in EndedWith(start, SaidAfter(e, start, Stuffed(lines)),
                      DeliveredFiles(e, start.disk.ops, trace, start.envelope, lines))
  {
    EndMarker();
    StuffedText(lines);
    EndOfData(e, b, start, Stuffed(lines), ".");
    DeliveredFilesAre(e, start, trace, start.envelope, lines);
  }

  // ----- What a reader gets

  /** Of a file whose message ends on a block boundary, a reader finds the message alone. */
  lemma AlignedFileReads(e: Env, ops: nat, content: string, m: Envelope)
    requires |content| % Tar.BLOCK == 0 && |content| < Tar.SIZE_LIMIT
    ensures ReadArchive(FileOf(e, ops, content, m)) == [Member("message.mbox", content)]
  {
    AlignedContainer(content, Text(m), Time1(e, ops), Time2(e, ops, m));
  }

  /** A reader finds the message and the envelope in a kept file, exactly when the message does not end on
      a block boundary and both members have sizes that eleven octal digits can hold. */
  lemma FileReadsBack(e: Env, ops: nat, content: string, m: Envelope)
    requires IsReadable(m)
    ensures ReadArchive(FileOf(e, ops, content, m)) == [Member("message.mbox", content), Member("metadata.ervan", Text(m))]
       <==> |content| % Tar.BLOCK != 0 && |content| < Tar.SIZE_LIMIT && |Text(m)| < Tar.SIZE_LIMIT
    ensures Read(Text(m)) == Some(m)
  {
    ContainerReadsBack(content, Text(m), Time1(e, ops), Time2(e, ops, m));
    ReadsBack(m);
  }

  lemma OneCommand(e: Env, b: Behind, st: State, line: string, more: string)
    requires st.mode.Cmd? && st.cmd == "" && Terminates(CRLF, line)
    ensures Run(e, b, st, line + CRLF + more) == Run(e, b, CommandLine(e, st, line, b(|st.replies|)), more)
  {
    var bytes := line + CRLF + more;
    assert "" + bytes == bytes;
    ScanComplete(CRLF, "", bytes, line, more);
    RunCmd(e, b, st, bytes);
    assert st.(cmd := "") == st;
  }

  /** A session that is ready for DATA and may open a file. */
  ghost predicate IsReady(e: Env, st: State) {
    && st.mode.Cmd? && st.cmd == "" && st.line == ""
    && st.reverseSet && st.envelope.forwards != [] && !st.dataError
    && AllOk(e, st.disk.ops, OpenOps(e, st.disk.ops))
  }

  /** A DATA command, in any letter case and with any argument. */
  ghost predicate IsDataCommand(line: string) {
    VerbOf(line) == Some(DATA) && Terminates(CRLF, line) && |line| <= CMD_CAPACITY
  }

  lemma DataCommandStarts(e: Env, st: State, command: string, stale: string)
    requires IsReady(e, st) && IsDataCommand(command)
    ensures CommandLine(e, st, command, stale) in Starts(e, st)
  {
    StartsMessage(e, st);
  }

  /** What a client sends: the command, its lines stuffed, and the end of data. */
  function Sent(command: string, lines: seq<string>): string {
    command + CRLF + (MessageBytes(Stuffed(lines), "."))
  }

  ghost function Deliveries(st: State, kept: seq<Commit>): iset<State> {
    iset next: State |
      && next.mode.Cmd? && next.cmd == "" && next.envelope == NO_ENVELOPE && !next.reverseSet
      && next.begun == st.begun && next.commits == st.commits + kept
      && |st.replies| < |next.replies| && next.replies[..|st.replies| + 1] == st.replies + [StartData]
  }

  lemma DeliveredFrom(e: Env, st: State, start: State, next: State, said: seq<Reply>, kept: seq<Commit>)
    requires start in Starts(e, st) && next in EndedWith(start, said, kept) && st.cmd == ""
    ensures next in Deliveries(st, kept)
  {
  }

  lemma TextFrom(e: Env, b: Behind, st: State, start: State, text: string, ops: nat, lines: seq<string>)
    requires start in Starts(e, st) && st.cmd == "" && AreLines(lines)
    requires ops == start.disk.ops && text == MessageBytes(Stuffed(lines), ".")
    ensures Run(e, b, start, text) in Deliveries(st, DeliveredFiles(e, ops, TraceText(e, st.disk.ops), st.envelope, lines))
  {
    TextDelivered(e, b, start, TraceText(e, st.disk.ops), lines);
    DeliveredFrom(e, st, start, Run(e, b, start, text), SaidAfter(e, start, Stuffed(lines)),
                  DeliveredFiles(e, ops, TraceText(e, st.disk.ops), start.envelope, lines));
  }

  lemma CommandSent(e: Env, b: Behind, st: State, command: string, lines: seq<string>) returns (start: State, text: string)
    requires IsReady(e, st) && IsDataCommand(command)
    ensures start in Starts(e, st) && text == MessageBytes(Stuffed(lines), ".")
    ensures Run(e, b, st, Sent(command, lines)) == Run(e, b, start, text)
  {
    start, text := CommandLine(e, st, command, b(|st.replies|)), MessageBytes(Stuffed(lines), ".");
    OneCommand(e, b, st, command, text);
    DataCommandStarts(e, st, command, b(|st.replies|));
  }

  /** Every list of lines, sent after an accepted DATA, is kept exactly as meant if and only if each line
      has at most 996 bytes, the lines with their ends are within the size limit and every file operation
      succeeds; otherwise nothing is kept. */
  lemma Delivered(e: Env, b: Behind, st: State, command: string, lines: seq<string>)
    requires IsReady(e, st) && IsDataCommand(command) && AreLines(lines)
    ensures Run(e, b, st, Sent(command, lines))
         in Deliveries(st, DeliveredFiles(e, OpenedAt(e, st), TraceText(e, st.disk.ops), st.envelope, lines))
  {
    var start, text := CommandSent(e, b, st, command, lines);
    TextFrom(e, b, st, start, text, OpenedAt(e, st), lines);
  }

  /** The files from which a tar reader and a metadata reader recover `content` and `m`. */
  ghost function Recovering(content: string, m: Envelope): iset<string> {
    iset file: string |
      var members := ReadArchive(file);
      && |members| == 2
      && members[0] == Member("message.mbox", content)
      && members[1].name == "metadata.ervan" && Read(members[1].content) == Some(m)
  }

  ghost predicate IsReadableSize(content: string, m: Envelope) {
    |content| % Tar.BLOCK != 0 && |content| < Tar.SIZE_LIMIT && |Text(m)| < Tar.SIZE_LIMIT
  }

  lemma FileRecovers(e: Env, ops: nat, content: string, m: Envelope)
    requires IsReadable(m) && IsReadableSize(content, m)
    ensures FileOf(e, ops, content, m) in Recovering(content, m)
  {
    FileReadsBack(e, ops, content, m);
  }

  /** The one message kept since `st`, for a reader. */
  ghost predicate KeptOnce(st: State, next: State, content: string) {
    && |next.commits| == |st.commits| + 1 && next.commits[..|st.commits|] == st.commits
    && next.commits[|st.commits|].envelope == st.envelope
    && next.commits[|st.commits|].file in Recovering(content, st.envelope)
  }

  lemma KeptOnceFile(st: State, next: State, content: string, file: string)
    requires next in Deliveries(st, [Commit(st.envelope, file)]) && file in Recovering(content, st.envelope)
    ensures KeptOnce(st, next, content)
  {
  }

  lemma DeliveredFileIs(e: Env, ops: nat, trace: string, m: Envelope, lines: seq<string>, at: nat)
    requires Delivers(e, ops, m, lines) && at == ops + |lines| + 1
    ensures DeliveredFiles(e, ops, trace, m, lines) == [Commit(m, FileOf(e, at, Content(trace, lines), m))]
  {
  }

  lemma DeliveredOnce(e: Env, ops: nat, trace: string, m: Envelope, lines: seq<string>) returns (file: string)
    requires Delivers(e, ops, m, lines)
    requires IsReadable(m) && IsReadableSize(Content(trace, lines), m)
    ensures DeliveredFiles(e, ops, trace, m, lines) == [Commit(m, file)]
    ensures file in Recovering(Content(trace, lines), m)
  {
    var at := ops + |lines| + 1;
    file := FileOf(e, at, Content(trace, lines), m);
    DeliveredFileIs(e, ops, trace, m, lines, at);
    FileRecovers(e, at, Content(trace, lines), m);
  }

  lemma KeptOnceFrom(e: Env, st: State, next: State, ops: nat, trace: string, lines: seq<string>)
    requires next in Deliveries(st, DeliveredFiles(e, ops, trace, st.envelope, lines))
    requires Delivers(e, ops, st.envelope, lines)
    requires IsReadable(st.envelope) && IsReadableSize(Content(trace, lines), st.envelope)
    ensures KeptOnce(st, next, Content(trace, lines))
  {
    var file := DeliveredOnce(e, ops, trace, st.envelope, lines);
    KeptOnceFile(st, next, Content(trace, lines), file);
  }

  /** From bytes on the wire to the file and back: what is sent is what is read, together with the trace
      in front and the envelope beside it. */
  lemma DeliveryRoundTrip(e: Env, b: Behind, st: State, command: string, lines: seq<string>)
    requires Inv(e, st) && IsReady(e, st) && IsDataCommand(command) && AreLines(lines)
    requires Delivers(e, OpenedAt(e, st), st.envelope, lines)
    requires IsReadableSize(Content(TraceText(e, st.disk.ops), lines), st.envelope)
    ensures KeptOnce(st, Run(e, b, st, Sent(command, lines)), Content(TraceText(e, st.disk.ops), lines))
  {
    Delivered(e, b, st, command, lines);
    KeptOnceFrom(e, st, Run(e, b, st, Sent(command, lines)), OpenedAt(e, st), TraceText(e, st.disk.ops), lines);
  }
}
