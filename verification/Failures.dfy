/** What sets the error flag, and what it costs. */
module Failures {
  import opened Bytes
  import opened Framing
  import opened Disk
  import opened Machine
  import opened SessionInvariant
  import opened History
  import opened FileLayout
  import opened MessageText
  import opened MessageEnd
  import Tar

  /** A line of text that is still to be written, and cannot be. */
  predicate WriteFails(e: Env, st: State, line: string) {
    && |line| <= LINE_CAPACITY && !IsEnd(line) && !e.ok(st.disk.ops)
    && var counted := CountLine(e, st, |Unstuff(line)|);
       !counted.lineTooLong && !counted.dataTooLong
  }

  /** The end of a message that is refused for nothing, whose size is found, but whose file cannot be finished. */
  ghost predicate FinishFails(e: Env, st: State, line: string) {
    && |line| <= LINE_CAPACITY && IsEnd(line) && !st.lineTooLong && !st.dataTooLong
    && e.ok(st.disk.ops) && !AllOk(e, st.disk.ops + 1, FinishOps(st.envelope))
  }

  lemma StoreError(e: Env, st: State, line: string)
    requires |line| <= LINE_CAPACITY && !IsEnd(line)
    ensures StoreLine(e, st, line).dataError <==> st.dataError || WriteFails(e, st, line)
  {
  }

  lemma FinishedError(e: Env, st: State, w: Work)
    ensures Finished(e, st, w).dataError <==> st.dataError || (e.ok(st.disk.ops) && w.error)
  {
  }

  lemma WorkError(e: Env, st: State)
    requires !st.dataError && AtEnd(st.disk) && |st.disk.bytes| >= Tar.BLOCK
    ensures FinishWork(e, st).error <==> !AllOk(e, st.disk.ops + 1, FinishOps(st.envelope))
  {
    var room, content := st.disk.bytes[..Tar.BLOCK], st.disk.bytes[Tar.BLOCK..];
    Halves(st.disk.bytes, Tar.BLOCK);
    FinishAssembles(e, st, room, content, st.disk.(ops := st.disk.ops + 1));
  }

  lemma EndError(e: Env, st: State, line: string)
    requires |line| <= LINE_CAPACITY && IsEnd(line) && AtEnd(st.disk) && |st.disk.bytes| >= Tar.BLOCK
    ensures EndData(e, st).dataError <==> st.dataError || FinishFails(e, st, line)
  {
    FinishedError(e, st, FinishWork(e, st));
    if !st.dataError {
      WorkError(e, st);
    }
  }

  /** A line of a message leads to the error flag if and only if the flag was set, the line is text still to be
      written and its write fails, or it ends the message and one of the operations behind the size request
      fails. The failed size request itself leaves the flag clear. */
  lemma LineError(e: Env, st: State, line: string)
    requires AtEnd(st.disk) && |st.disk.bytes| >= Tar.BLOCK
    ensures DataLine(e, st, line).dataError <==> st.dataError || WriteFails(e, st, line) || FinishFails(e, st, line)
  {
    if |line| <= LINE_CAPACITY {
      if IsEnd(line) {
        EndError(e, st, line);
      } else {
        StoreError(e, st, line);
      }
    }
  }

  // ----- Over runs

  ghost predicate SetsError(e: Env, st: State, c: char) {
    st.mode.Data? && EndsWith(st.line + [c], CRLF) &&
      var line := (st.line + [c])[..|st.line| - 1];
      WriteFails(e, st, line) || FinishFails(e, st, line)
  }

  /** Some step of the run sets the flag. */
  ghost predicate Fails(e: Env, b: Behind, st: State, bytes: string)
    decreases bytes
  {
    bytes != "" && (SetsError(e, st, bytes[0]) || Fails(e, b, Step(e, b, st, bytes[0]), bytes[1..]))
  }

  lemma CommandError(e: Env, st: State, line: string, stale: string)
    requires st.mode.Cmd?
    ensures CommandLine(e, st, line, stale).dataError == st.dataError
  {
    var said := CommandIs(e, st, line, stale);
  }

  lemma LineStepError(e: Env, b: Behind, st: State, c: char, line: string)
    requires Inv(e, st) && st.mode.Data? && EndsWith(st.line + [c], CRLF) && line == (st.line + [c])[..|st.line| - 1]
    ensures Step(e, b, st, c).dataError <==> st.dataError || SetsError(e, st, c)
  {
    DataStepIs(e, b, st, c, line);
    LineError(e, st.(line := ""), line);
    SameFailures(e, st, line);
  }

  lemma SameFailures(e: Env, st: State, line: string)
    ensures WriteFails(e, st.(line := ""), line) == WriteFails(e, st, line)
    ensures FinishFails(e, st.(line := ""), line) == FinishFails(e, st, line)
  {
  }

  lemma CommandStepError(e: Env, b: Behind, st: State, c: char, line: string)
    requires st.mode.Cmd? && EndsWith(st.cmd + [c], CRLF) && line == (st.cmd + [c])[..|st.cmd| - 1]
    ensures Step(e, b, st, c).dataError == st.dataError
  {
    CommandStepIs(e, b, st, c, line);
    CommandError(e, st.(cmd := ""), line, b(|st.replies|));
  }

  /** Commands never touch the flag, a failed opening included; only the lines of messages set it. */
  lemma StepError(e: Env, b: Behind, st: State, c: char)
    requires Inv(e, st)
    ensures Step(e, b, st, c).dataError <==> st.dataError || SetsError(e, st, c)
  {
    match st.mode
    case Closed =>
    case Cmd =>
      if EndsWith(st.cmd + [c], CRLF) {
        CommandStepError(e, b, st, c, (st.cmd + [c])[..|st.cmd| - 1]);
      }
    case Data =>
      if EndsWith(st.line + [c], CRLF) {
        LineStepError(e, b, st, c, (st.line + [c])[..|st.line| - 1]);
      }
  }

  /** Over every run, the flag is set if and only if it was set or some step sets it. */
  lemma {:induction false} ErrorIff(e: Env, b: Behind, st: State, bytes: string)
    requires Inv(e, st)
    ensures Run(e, b, st, bytes).dataError <==> st.dataError || Fails(e, b, st, bytes)
    decreases bytes
  {
    if bytes != "" {
      StepError(e, b, st, bytes[0]);
      StepKeeps(e, b, st, bytes[0]);
      ErrorIff(e, b, Step(e, b, st, bytes[0]), bytes[1..]);
    }
  }

  /** Once a step has failed in this way, the session keeps nothing any more, whatever it is sent. */
  lemma NothingKeptAfterFailure(e: Env, b: Behind, st: State, first: string, second: string)
    requires Inv(e, st) && Fails(e, b, st, first)
    ensures Run(e, b, st, first + second).commits == Run(e, b, st, first).commits
  {
    ErrorIff(e, b, st, first);
    RunKeeps(e, b, st, first);
    RunAppend(e, b, st, first, second);
    NothingKeptAfterError(e, b, Run(e, b, st, first), second);
  }

  /** Whether a message is kept, in terms of the operations alone: if and only if no step of the session so far
      has failed in this way, its lines fit, its size is within the limit, and all its operations succeed. */
  lemma KeptIffNothingFailed(e: Env, b: Behind, bytes: string, lines: seq<string>, marker: string) returns (st: State, next: State)
    requires AtMessageStart(Run(e, b, INITIAL, bytes)) && AreTextLines(lines) && IsEndMarker(marker)
    ensures st == Run(e, b, INITIAL, bytes) && next == Run(e, b, st, MessageBytes(lines, marker))
    ensures |next.commits| == |st.commits| + 1 <==>
      && !Fails(e, b, INITIAL, bytes)
      && Fits(lines) && Size(lines) <= e.maxDataSize && AllSucceed(e, st.disk.ops, |lines|, st.envelope)
  {
    InitialInv(e);
    ErrorIff(e, b, INITIAL, bytes);
    st := Run(e, b, INITIAL, bytes);
    next := CommitIff(e, b, st, lines, marker);
  }
}
