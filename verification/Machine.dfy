/** The SMTP session as a machine that reads one byte at a time. */
module Machine {
  import opened Bytes
  import opened Framing
  import opened Parse
  import opened MailParameters
  import opened Disk
  import opened Metadata
  import Tar
  import Archive

  const CMD_CAPACITY := 510     // 512 bytes less the terminator window
  const LINE_CAPACITY := 1022   // 998 + 2 + 24 bytes less the terminator window
  const TEXT_LINE_MAX := 996    // 998 less the line end

  datatype Mode = Cmd | Data | Closed

  datatype Reply =
    | Ok | StartData | LocalError | TooManyRecipients | InvalidCommand | LineTooLong
    | InvalidParameters | NotImplemented | BadSequence | ExceededStorage
    | Hello | ExtendedHello | Goodbye

  datatype Commit = Commit(envelope: Envelope, file: string)

  datatype State = State(
    mode: Mode,
    cmd: string,            // unfinished command line
    line: string,           // unfinished data line
    envelope: Envelope,
    reverseSet: bool,
    begun: bool,
    dataSize: nat,
    dataTooLong: bool,
    lineTooLong: bool,
    dataError: bool,
    disk: Disk,
    replies: seq<Reply>,    // everything sent since the greeting
    commits: seq<Commit>)   // every file kept

  const NO_ENVELOPE := Envelope(ZeroBlocks(), "", "", [])

  const INITIAL := State(Cmd, "", "", NO_ENVELOPE, false, false, 0, false, false, false, Disk("", 0, 0), [], [])

  function Say(st: State, r: Reply): State {
    st.(replies := st.replies + [r])
  }

  function Reset(st: State): State {
    st.(mode := Cmd, envelope := NO_ENVELOPE, reverseSet := false)
  }

  // ----- Commands

  function Greet(st: State, arg: string, r: Reply): State {
    match Domain(arg)
    case None => Say(st, InvalidParameters)
    case Some(d) => Greeted(st, d, r)
  }

  function Greeted(st: State, domain: string, r: Reply): State {
    Say(Reset(st).(envelope := NO_ENVELOPE.(from := domain), begun := true), r)
  }

  /** Drops as many bytes as `keyword` has, without looking at them. */
  function Accept(arg: string, keyword: string): Option<string> {
    if |arg| < |keyword| then None else Some(arg[|keyword|..])
  }

  function Mail(st: State, arg: string): State {
    match Accept(arg, "FROM:")
    case None => Say(st, InvalidParameters)
    case Some(text) =>
      match ReversePath(text)
      case None => Say(st, InvalidParameters)
      case Some(path) => MailFrom(st, path.stored, MailParams(path.rest))
  }

  function MailFrom(st: State, path: string, paramsOk: bool): State {
    if st.reverseSet || !st.begun then Say(st, BadSequence)
    else if !paramsOk then Say(st, InvalidParameters)
    else Say(st.(envelope := st.envelope.(reverse := path, forwards := []), reverseSet := true), Ok)
  }

  function Rcpt(e: Env, st: State, arg: string): State {
    match Accept(arg, "TO:")
    case None => Say(st, InvalidParameters)
    case Some(text) =>
      if !st.begun then Say(st, BadSequence)
      else if |st.envelope.forwards| >= e.maxForwardPaths then Say(st, TooManyRecipients)
      else
        match Path(text)
        case None => Say(st, InvalidParameters)
        case Some(path) => RcptTo(st, path.stored)
  }

  function RcptTo(st: State, path: string): State {
    Say(st.(envelope := st.envelope.(forwards := st.envelope.forwards + [path])), Ok)
  }

  /** The trace text of a message opened at operation `ops`, and the operations of opening it. */
  function TraceText(e: Env, ops: nat): string {
    Concat(e.trace(ops))
  }

  function OpenOps(e: Env, ops: nat): nat {
    2 + |e.trace(ops)|
  }

  /** A fresh file with room for a header and the trace text. */
  function OpenFile(e: Env, d: Disk): (Disk, bool) {
    if !e.ok(d.ops) then (d.(ops := d.ops + 1), false)
    else
      var d1 := Disk("", 0, d.ops + 1);
      WriteAll(e, d1, [Zeros(Tar.BLOCK)] + e.trace(d.ops))
  }

  function StartMessage(e: Env, st: State): State {
    if !st.reverseSet || st.envelope.forwards == [] then Say(st, BadSequence)
    else
      var (d, ok) := OpenFile(e, st.disk);
      if !ok then Say(st.(disk := d), LocalError)
      else Say(st.(disk := d, mode := Data, dataSize := 0, dataTooLong := false, lineTooLong := false), StartData)
  }

  datatype Verb = EHLO | HELO | MAIL | RCPT | DATA | RSET | VRFY | NOOP | QUIT

  /** The command table, searched in order. */
  function Lookup(name: string): Option<Verb> {
    if name == "EHLO" then Some(EHLO)
    else if name == "HELO" then Some(HELO)
    else if name == "MAIL" then Some(MAIL)
    else if name == "RCPT" then Some(RCPT)
    else if name == "DATA" then Some(DATA)
    else if name == "RSET" then Some(RSET)
    else if name == "VRFY" then Some(VRFY)
    else if name == "NOOP" then Some(NOOP)
    else if name == "QUIT" then Some(QUIT)
    else None
  }

  function VerbOf(line: string): Option<Verb> {
    if |line| < 4 then None else Lookup(Upper(line[..4]))
  }

  /** What handlers read as the argument: the text behind the verb and one separator. A line that is only a
      verb has no such text; what is read is the buffer's cells behind it: the last byte of the line end,
      then `stale`, whatever stands there, and the line end in the window. */
  function ArgOf(line: string, stale: string): string {
    if |line| < 5 then "\n" + stale + CRLF else line[5..]
  }

  function Perform(e: Env, st: State, verb: Verb, arg: string): State {
    match verb
    case EHLO => Greet(st, arg, ExtendedHello)
    case HELO => Greet(st, arg, Hello)
    case MAIL => Mail(st, arg)
    case RCPT => Rcpt(e, st, arg)
    case DATA => StartMessage(e, st)
    case RSET => Say(Reset(st), Ok)
    case VRFY => Say(st, NotImplemented)
    case NOOP => Say(st, Ok)
    case QUIT => Say(st, Goodbye).(mode := Closed)
  }

  function CallCommand(e: Env, st: State, line: string, stale: string): State {
    match VerbOf(line)
    case None => Say(st, InvalidCommand)
    case Some(verb) => Perform(e, st, verb, ArgOf(line, stale))
  }

  function CommandLine(e: Env, st: State, line: string, stale: string): State {
    if |line| > CMD_CAPACITY then Say(st, LineTooLong) else CallCommand(e, st, line, stale)
  }

  // ----- Message text

  /** The end of data is recognised by comparing C strings, so a NUL behind the dot counts as the end. */
  predicate IsEnd(line: string) {
    line != "" && line[0] == '.' && (|line| == 1 || line[1] == '\0')
  }

  function Unstuff(line: string): string {
    if |line| >= 2 && line[0] == '.' && line[1] == '.' then line[1..] else line
  }

  /** Counts a line of `n` bytes and its line end. */
  function CountLine(e: Env, st: State, n: nat): State {
    var size := st.dataSize + n + 2;
    st.(dataSize := size,
        lineTooLong := st.lineTooLong || n > TEXT_LINE_MAX,
        dataTooLong := st.dataTooLong || size > e.maxDataSize)
  }

  function WriteLine(e: Env, st: State, text: string): State {
    var (d, ok) := Write(e, st.disk, text + CRLF);
    st.(disk := d, dataError := !ok)
  }

  /** Once anything is wrong with a message, its lines are counted but no longer written. */
  function StoreLine(e: Env, st: State, line: string): State {
    var text := Unstuff(line);
    var counted := CountLine(e, st, |text|);
    if counted.lineTooLong || counted.dataTooLong || counted.dataError then counted else WriteLine(e, counted, text)
  }

  function DataLine(e: Env, st: State, line: string): State {
    if |line| > LINE_CAPACITY then st.(lineTooLong := true)
    else if !IsEnd(line) then StoreLine(e, st, line)
    else EndData(e, st)
  }

  function EndData(e: Env, st: State): State {
    if !st.lineTooLong && !st.dataTooLong then FinishData(e, st) else AbortData(st)
  }

  // ----- End of data

  datatype Work = Work(disk: Disk, error: bool)

  /** Does nothing once something has failed. */
  function Checked(e: Env, w: Work, pieces: seq<string>): (r: Work)
    ensures w.disk.ops <= r.disk.ops && (w.error ==> r.error)
  {
    if w.error then w
    else
      var (d, ok) := WriteAll(e, w.disk, pieces);
      Work(d, !ok)
  }

  function Pad(e: Env, w: Work): (r: Work)
    ensures w.disk.ops <= r.disk.ops && (w.error ==> r.error)
  {
    var d := SeekEnd(w.disk);
    Checked(e, w.(disk := d), [Archive.Padding(d.pos)])
  }

  /** Fills the block reserved at `at`. */
  function FillBlock(e: Env, w: Work, at: nat, block: string): (r: Work)
    ensures w.disk.ops <= r.disk.ops && (w.error ==> r.error)
  {
    Checked(e, w.(disk := SeekTo(w.disk, at)), [block])
  }

  function FinishMessage(e: Env, w: Work): (r: Work)
    ensures w.disk.ops <= r.disk.ops && (w.error ==> r.error)
  {
    var header := Tar.Header(Archive.MESSAGE_NAME, w.disk.pos - Tar.BLOCK, e.clock(w.disk.ops));
    Pad(e, FillBlock(e, w, 0, header))
  }

  datatype Reserved = Reserved(work: Work, start: nat)

  /** Room for a header and the metadata behind it; also where the metadata starts. */
  function Reserve(e: Env, w: Work, m: Envelope): (r: Reserved)
    ensures w.disk.ops <= r.work.disk.ops && (w.error ==> r.work.error)
  {
    var w1 := Checked(e, w, [Zeros(Tar.BLOCK)]);
    Reserved(Checked(e, w1, Pieces(m)), w1.disk.pos)
  }

  /** Fills the reserved header at `at` with the size of what stands behind it. */
  function FillReserved(e: Env, at: nat, r: Reserved): (w: Work)
    ensures r.work.disk.ops <= w.disk.ops && (r.work.error ==> w.error)
  {
    var d := r.work.disk;
    Pad(e, FillBlock(e, r.work, at, Tar.Header(Archive.METADATA_NAME, d.pos - r.start, e.clock(d.ops))))
  }

  function AppendMetadata(e: Env, w: Work, m: Envelope): (r: Work)
    ensures w.disk.ops <= r.disk.ops && (w.error ==> r.error)
  {
    FillReserved(e, w.disk.pos, Reserve(e, w, m))
  }

  /** Everything between asking for the file size and closing the file. */
  function Assemble(e: Env, w: Work, m: Envelope): (r: Work)
    ensures w.disk.ops <= r.disk.ops && (w.error ==> r.error)
  {
    var w1 := FinishMessage(e, w);
    Concluded(e, w1, AppendMetadata(e, w1, m))
  }

  /** The first failure of the two stages, or the outcome of the sync behind them. */
  function Concluded(e: Env, w1: Work, w2: Work): (r: Work)
    ensures (w1.error ==> r.error) && (w1.disk.ops <= w2.disk.ops ==> w1.disk.ops <= r.disk.ops)
  {
    if w1.error then w1 else if w2.error then w2 else Sync(e, w2)
  }

  function Sync(e: Env, w: Work): Work {
    Work(w.disk.(ops := w.disk.ops + 1), !e.ok(w.disk.ops))
  }

  /** Back to commands: the transaction is forgotten and the file slot emptied. */
  function EndMessage(st: State, ops: nat, error: bool, said: seq<Reply>, kept: seq<Commit>): State {
    st.(mode := Cmd, envelope := NO_ENVELOPE, reverseSet := false, dataError := error,
        disk := Disk("", 0, ops), replies := st.replies + said, commits := st.commits + kept)
  }

  /** Why a message is refused; nothing is said if there is no reason on record. */
  function Refusal(st: State, error: bool): seq<Reply> {
    if st.dataTooLong then [ExceededStorage]
    else if st.lineTooLong then [LineTooLong]
    else if error then [LocalError]
    else []
  }

  function AbortData(st: State): State {
    EndMessage(st, st.disk.ops, st.dataError, Refusal(st, st.dataError), [])
  }

  /** What putting the file together comes to, after asking for its size. */
  function FinishWork(e: Env, st: State): (w: Work)
    ensures st.disk.ops <= w.disk.ops && (st.dataError ==> w.error)
  {
    Assemble(e, Work(st.disk.(ops := st.disk.ops + 1), st.dataError), st.envelope)
  }

  /** The file is put together only if its size can be asked for. */
  function FinishData(e: Env, st: State): State {
    Finished(e, st, FinishWork(e, st))
  }

  function Finished(e: Env, st: State, w: Work): State {
    if !e.ok(st.disk.ops) then EndMessage(st, st.disk.ops + 1, st.dataError, Refusal(st, st.dataError), [])
    else if w.error then EndMessage(st, w.disk.ops, true, Refusal(st, true), [])
    else EndMessage(st, w.disk.ops, st.dataError, [Ok], [Commit(st.envelope, w.disk.bytes)])
  }

  // ----- The machine

  /** What the command buffer holds behind a line that is only a verb. It depends on how the bytes arrived,
      which the machine does not see; so it is given, for each command line, by the number of replies before. */
  type Behind = nat -> string

  function Step(e: Env, b: Behind, st: State, c: char): State {
    match st.mode
    case Closed => st
    case Cmd =>
      var p := st.cmd + [c];
      if EndsWith(p, CRLF) then CommandLine(e, st.(cmd := ""), p[..|p| - 2], b(|st.replies|)) else st.(cmd := p)
    case Data =>
      var p := st.line + [c];
      if EndsWith(p, CRLF) then DataLine(e, st.(line := ""), p[..|p| - 2]) else st.(line := p)
  }

  function Run(e: Env, b: Behind, st: State, bytes: string): State
    decreases bytes
  {
    if bytes == "" then st else Run(e, b, Step(e, b, st, bytes[0]), bytes[1..])
  }

  /** Reading bytes in two parts is reading them in one. */
  lemma {:induction false} RunAppend(e: Env, b: Behind, st: State, first: string, second: string)
    ensures Run(e, b, st, first + second) == Run(e, b, Run(e, b, st, first), second)
    decreases first
  {
    if first == "" {
      assert first + second == second;
    } else {
      assert (first + second)[1..] == first[1..] + second;
      RunAppend(e, b, Step(e, b, st, first[0]), first[1..], second);
    }
  }

  lemma {:induction false} RunClosed(e: Env, b: Behind, st: State, bytes: string)
    requires st.mode.Closed?
    ensures Run(e, b, st, bytes) == st
    decreases bytes
  {
    if bytes != "" {
      RunClosed(e, b, st, bytes[1..]);
    }
  }

  /** The machine seen line by line, in the two modes that read. */
  lemma {:induction false} RunCmd(e: Env, b: Behind, st: State, bytes: string)
    requires st.mode.Cmd?
    ensures Run(e, b, st, bytes) ==
      match ScanFrom(CRLF, st.cmd, bytes)
      case More(p) => st.(cmd := p)
      case Piece(line, rest) => Run(e, b, CommandLine(e, st.(cmd := ""), line, b(|st.replies|)), rest)
    decreases bytes
  {
    if bytes != "" {
      var p := st.cmd + [bytes[0]];
      if !EndsWith(p, CRLF) {
        RunCmd(e, b, st.(cmd := p), bytes[1..]);
      }
    }
  }

  lemma {:induction false} RunData(e: Env, b: Behind, st: State, bytes: string)
    requires st.mode.Data?
    ensures Run(e, b, st, bytes) ==
      match ScanFrom(CRLF, st.line, bytes)
      case More(p) => st.(line := p)
      case Piece(line, rest) => Run(e, b, DataLine(e, st.(line := ""), line), rest)
    decreases bytes
  {
    if bytes != "" {
      var p := st.line + [bytes[0]];
      if !EndsWith(p, CRLF) {
        RunData(e, b, st.(line := p), bytes[1..]);
      }
    }
  }
}
