/** A whole DATA phase: what becomes of its lines, and exactly how it ends. */
module MessageText {
  import opened Bytes
  import opened Framing
  import opened Disk
  import opened Machine
  import opened FileLayout
  import Tar

  /** A line that neither breaks in two nor ends the message; one too long for the framer never ends it. */
  ghost predicate IsTextLine(line: string) {
    Terminates(CRLF, line) && (|line| > LINE_CAPACITY || !IsEnd(line))
  }

  ghost predicate AreTextLines(lines: seq<string>) {
    forall i :: 0 <= i < |lines| ==> IsTextLine(lines[i])
  }

  /** Every line fits once its stuffed dot is taken off. */
  ghost predicate Fits(lines: seq<string>) {
    forall i :: 0 <= i < |lines| ==> |Unstuff(lines[i])| <= TEXT_LINE_MAX
  }

  /** What a line adds to the size of the message: lines beyond the framer's capacity are never counted. */
  function Counted(line: string): nat {
    if |line| > LINE_CAPACITY then 0 else |Unstuff(line)| + 2
  }

  function Size(lines: seq<string>): nat {
    if lines == [] then 0 else Counted(lines[0]) + Size(lines[1..])
  }

  /** All that decides over a message, besides the file operations. */
  datatype Summary = Summary(fit: bool, size: nat, count: nat)

  ghost function SummaryOf(lines: seq<string>): Summary {
    Summary(Fits(lines), Size(lines), |lines|)
  }

  function Unstuffed(lines: seq<string>): string {
    if lines == [] then "" else Unstuff(lines[0]) + CRLF + Unstuffed(lines[1..])
  }

  function DataLines(e: Env, st: State, lines: seq<string>): State
    decreases lines
  {
    if lines == [] then st else DataLines(e, DataLine(e, st, lines[0]), lines[1..])
  }

  ghost predicate InMessage(e: Env, st: State) {
    st.mode.Data? && st.line == "" && (st.dataTooLong <==> st.dataSize > e.maxDataSize)
  }

  /** A message just started. */
  ghost predicate AtMessageStart(st: State) {
    && st.mode.Data? && st.line == "" && st.dataSize == 0
    && !st.dataTooLong && !st.lineTooLong
    && AtEnd(st.disk) && |st.disk.bytes| >= Tar.BLOCK
  }

  lemma OneLine(e: Env, b: Behind, st: State, line: string, more: string)
    requires st.mode.Data? && st.line == "" && Terminates(CRLF, line)
    ensures Run(e, b, st, line + CRLF + more) == Run(e, b, DataLine(e, st, line), more)
  {
    var bytes := line + CRLF + more;
    assert "" + bytes == bytes;
    ScanComplete(CRLF, "", bytes, line, more);
    RunData(e, b, st, bytes);
    assert st.(line := "") == st;
  }

  lemma TextLineStays(e: Env, st: State, line: string)
    requires st.mode.Data? && st.line == "" && IsTextLine(line)
    ensures DataLine(e, st, line).mode.Data? && DataLine(e, st, line).line == ""
  {
  }

  /** The bytes of some lines, whatever follows them. */
  lemma {:induction false} RunLines(e: Env, b: Behind, st: State, lines: seq<string>, more: string)
    requires st.mode.Data? && st.line == "" && AreTextLines(lines)
    ensures Run(e, b, st, Unsplit(CRLF, lines) + more) == Run(e, b, DataLines(e, st, lines), more)
    decreases lines
  {
    if lines == [] {
      assert "" + more == more;
    } else {
      var rest := Unsplit(CRLF, lines[1..]) + more;
      Regroup(lines[0] + CRLF, Unsplit(CRLF, lines[1..]), more);
      OneLine(e, b, st, lines[0], rest);
      TextLineStays(e, st, lines[0]);
      RunLines(e, b, DataLine(e, st, lines[0]), lines[1..], more);
    }
  }

  /** What the lines of a message leave alone. */
  ghost predicate SameTransaction(st: State, next: State) {
    && next.mode == st.mode && next.line == st.line && next.cmd == st.cmd
    && next.envelope == st.envelope && next.reverseSet == st.reverseSet && next.begun == st.begun
    && next.replies == st.replies && next.commits == st.commits
  }

  lemma OneLineFlags(e: Env, st: State, line: string)
    requires InMessage(e, st) && IsTextLine(line)
    ensures var next := DataLine(e, st, line);
      && InMessage(e, next) && SameTransaction(st, next)
      && (next.lineTooLong <==> st.lineTooLong || |Unstuff(line)| > TEXT_LINE_MAX)
      && next.dataSize == st.dataSize + Counted(line)
      && (st.dataError ==> next.dataError)
  {
  }

  /** The size and both flags are those of the lines alone. A line is too long wherever it is caught, and
      a message is too large exactly when its counted size is. */
  lemma {:induction false} LinesFlags(e: Env, st: State, lines: seq<string>)
    requires InMessage(e, st) && AreTextLines(lines)
    ensures var next := DataLines(e, st, lines);
      && InMessage(e, next) && SameTransaction(st, next)
      && (next.lineTooLong <==> st.lineTooLong || !Fits(lines))
      && next.dataSize == st.dataSize + Size(lines)
      && (st.dataError ==> next.dataError)
    decreases lines
  {
    if lines != [] {
      OneLineFlags(e, st, lines[0]);
      LinesFlags(e, DataLine(e, st, lines[0]), lines[1..]);
      assert Fits(lines) <==> |Unstuff(lines[0])| <= TEXT_LINE_MAX && Fits(lines[1..]);
    }
  }

  lemma OneLineWritten(e: Env, st: State, line: string)
    requires InMessage(e, st) && IsTextLine(line) && AtEnd(st.disk)
    requires !st.lineTooLong && !st.dataError
    requires |Unstuff(line)| <= TEXT_LINE_MAX && st.dataSize + Counted(line) <= e.maxDataSize
    ensures var next := DataLine(e, st, line);
      var text := Unstuff(line) + CRLF;
      && (!next.dataError <==> e.ok(st.disk.ops))
      && (!next.dataError ==> next.disk == Disk(st.disk.bytes + text, |st.disk.bytes + text|, st.disk.ops + 1))
  {
  }

  /** Lines that fit are all written exactly when every write succeeds. */
  lemma {:induction false} LinesWritten(e: Env, st: State, lines: seq<string>)
    requires InMessage(e, st) && AreTextLines(lines) && AtEnd(st.disk)
    requires !st.lineTooLong && !st.dataError
    requires Fits(lines) && st.dataSize + Size(lines) <= e.maxDataSize
    ensures var next := DataLines(e, st, lines);
      var text := st.disk.bytes + Unstuffed(lines);
      && (!next.dataError <==> AllOk(e, st.disk.ops, |lines|))
      && (!next.dataError ==> next.disk == Disk(text, |text|, st.disk.ops + |lines|))
    decreases lines
  {
    if lines == [] {
      assert st.disk.bytes + "" == st.disk.bytes;
    } else {
      var next := DataLine(e, st, lines[0]);
      OneLineFlags(e, st, lines[0]);
      OneLineWritten(e, st, lines[0]);
      AllOkSplit(e, st.disk.ops, 1, |lines| - 1);
      if next.dataError {
        LinesFlags(e, next, lines[1..]);
      } else {
        LinesWritten(e, next, lines[1..]);
        Regroup(st.disk.bytes, Unstuff(lines[0]) + CRLF, Unstuffed(lines[1..]));
      }
    }
  }

  /** What the lines of a message leave behind: a line is too long wherever it was caught, the message is
      too large exactly when its counted size is, and lines that fit are all written exactly when the error flag
      was clear and every write succeeds. */
  ghost predicate LinesDone(e: Env, st: State, next: State, lines: Summary, text: string) {
    && InMessage(e, next) && SameTransaction(st, next)
    && (next.lineTooLong <==> !lines.fit) && next.dataSize == lines.size
    && (lines.fit && lines.size <= e.maxDataSize ==>
          && (!next.dataError <==> !st.dataError && AllOk(e, st.disk.ops, lines.count))
          && (!next.dataError ==> next.disk == Disk(st.disk.bytes + text, |st.disk.bytes + text|, st.disk.ops + lines.count)))
  }

  lemma LinesOutcome(e: Env, st: State, lines: seq<string>)
    requires AtMessageStart(st) && AreTextLines(lines)
    ensures LinesDone(e, st, DataLines(e, st, lines), SummaryOf(lines), Unstuffed(lines))
  {
    LinesFlags(e, st, lines);
    if Fits(lines) && Size(lines) <= e.maxDataSize && !st.dataError {
      LinesWritten(e, st, lines);
    }
  }
}
