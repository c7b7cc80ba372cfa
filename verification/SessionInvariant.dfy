/** What every step of every run keeps. */
module SessionInvariant {
  import opened Bytes
  import opened Framing
  import opened Parse
  import opened PathGrammar
  import opened MailParameters
  import opened Disk
  import opened Metadata
  import opened Machine
  import Tar

  ghost predicate EnvelopeFits(e: Env, m: Envelope) {
    IsReadable(m) && |m.forwards| <= e.maxForwardPaths
  }

  ghost predicate Inv(e: Env, st: State) {
    && (st.mode.Data? ==> AtEnd(st.disk) && |st.disk.bytes| >= Tar.BLOCK)
    && (st.mode.Data? ==> st.cmd == "" && st.reverseSet && st.envelope.forwards != [])
    && (!st.mode.Data? ==> st.line == "")
    && (st.mode.Closed? ==> st.cmd == "")
    && Free(CRLF, st.cmd) && Free(CRLF, st.line)
    && (st.reverseSet ==> st.begun)
    && EnvelopeFits(e, st.envelope)
    && CommitsFit(e, st.commits)
  }

  ghost predicate CommitsFit(e: Env, commits: seq<Commit>) {
    forall k :: 0 <= k < |commits| ==> EnvelopeFits(e, commits[k].envelope) && commits[k].envelope.forwards != []
  }

  /** What is never taken back: the greeting, the replies and the kept messages. */
  ghost predicate Follows(st: State, next: State) {
    && (st.begun ==> next.begun)
    && st.replies <= next.replies
    && st.commits <= next.commits
    && (st.mode.Closed? ==> next == st)
    && (st.dataError ==> next.dataError && next.commits == st.commits)
    && st.disk.ops <= next.disk.ops
  }

  /** The states a step from `st` may lead to. */
  ghost function Allowed(e: Env, st: State): iset<State> {
    iset next: State | Inv(e, next) && Follows(st, next)
  }

  lemma InitialInv(e: Env)
    ensures Inv(e, INITIAL)
  {
    FreeEmpty(CRLF);
  }

  lemma SayKeeps(e: Env, st: State, r: Reply)
    requires Inv(e, st) && st.mode.Cmd?
    ensures Say(st, r) in Allowed(e, st)
  {
  }

  lemma GreetedKeeps(e: Env, st: State, d: string, r: Reply)
    requires Inv(e, st) && st.mode.Cmd? && AllPrintable(d)
    ensures Greeted(st, d, r) in Allowed(e, st)
  {
  }

  lemma GreetKeeps(e: Env, st: State, arg: string, r: Reply)
    requires Inv(e, st) && st.mode.Cmd?
    ensures Greet(st, arg, r) in Allowed(e, st)
  {
    SayKeeps(e, st, InvalidParameters);
    if Domain(arg).Some? {
      DomainSound(arg);
      GreetedKeeps(e, st, Domain(arg).value, r);
    }
  }

  lemma MailFromKeeps(e: Env, st: State, path: string, paramsOk: bool)
    requires Inv(e, st) && st.mode.Cmd? && AllPrintable(path)
    ensures MailFrom(st, path, paramsOk) in Allowed(e, st)
  {
  }

  lemma MailKeeps(e: Env, st: State, arg: string)
    requires Inv(e, st) && st.mode.Cmd?
    ensures Mail(st, arg) in Allowed(e, st)
  {
    SayKeeps(e, st, InvalidParameters);
    match Accept(arg, "FROM:")
    case None =>
    case Some(text) =>
      StoredIsPrintable(text);
      match ReversePath(text)
      case None =>
      case Some(path) => MailFromKeeps(e, st, path.stored, MailParams(path.rest));
  }

  lemma RcptToKeeps(e: Env, st: State, path: string)
    requires Inv(e, st) && st.mode.Cmd? && AllPrintable(path)
    requires |st.envelope.forwards| < e.maxForwardPaths
    ensures RcptTo(st, path) in Allowed(e, st)
  {
  }

  lemma RcptKeeps(e: Env, st: State, arg: string)
    requires Inv(e, st) && st.mode.Cmd?
    ensures Rcpt(e, st, arg) in Allowed(e, st)
  {
    SayKeeps(e, st, InvalidParameters);
    SayKeeps(e, st, BadSequence);
    SayKeeps(e, st, TooManyRecipients);
    match Accept(arg, "TO:")
    case None =>
    case Some(text) =>
      if |st.envelope.forwards| < e.maxForwardPaths {
        StoredIsPrintable(text);
        match Path(text)
        case None =>
        case Some(path) => RcptToKeeps(e, st, path.stored);
      }
  }

  lemma OpenFileOutcome(e: Env, d: Disk)
    ensures OpenFile(e, d).1 <==> AllOk(e, d.ops, OpenOps(e, d.ops))
    ensures OpenFile(e, d).1 ==>
      var bytes := Zeros(Tar.BLOCK) + TraceText(e, d.ops);
      OpenFile(e, d).0 == Disk(bytes, |bytes|, d.ops + OpenOps(e, d.ops))
    ensures d.ops <= OpenFile(e, d).0.ops
  {
    if e.ok(d.ops) {
      var room, trace := Zeros(Tar.BLOCK), e.trace(d.ops);
      WriteAllOutcome(e, Disk("", 0, d.ops + 1), [room] + trace);
      assert AllOk(e, d.ops, 2 + |trace|) <==> AllOk(e, d.ops + 1, 1 + |trace|);
      assert ([room] + trace)[1..] == trace;
      assert "" + (room + Concat(trace)) == room + Concat(trace);
    }
  }

  lemma StartKeeps(e: Env, st: State)
    requires Inv(e, st) && st.mode.Cmd? && st.cmd == ""
    ensures StartMessage(e, st) in Allowed(e, st)
  {
    OpenFileOutcome(e, st.disk);
  }

  lemma PerformKeeps(e: Env, st: State, verb: Verb, arg: string)
    requires Inv(e, st) && st.mode.Cmd? && st.cmd == ""
    ensures Perform(e, st, verb, arg) in Allowed(e, st)
  {
    match verb
    case EHLO => GreetKeeps(e, st, arg, ExtendedHello);
    case HELO => GreetKeeps(e, st, arg, Hello);
    case MAIL => MailKeeps(e, st, arg);
    case RCPT => RcptKeeps(e, st, arg);
    case DATA => StartKeeps(e, st);
    case RSET =>
    case VRFY =>
    case NOOP =>
    case QUIT =>
  }

  lemma CommandKeeps(e: Env, st: State, line: string, stale: string)
    requires Inv(e, st) && st.mode.Cmd? && st.cmd == ""
    ensures CommandLine(e, st, line, stale) in Allowed(e, st)
  {
    if VerbOf(line).Some? {
      PerformKeeps(e, st, VerbOf(line).value, ArgOf(line, stale));
    }
  }

  lemma EndKeeps(e: Env, st: State, ops: nat, error: bool, said: seq<Reply>, kept: seq<Commit>)
    requires Inv(e, st) && st.mode.Data? && st.line == ""
    requires st.disk.ops <= ops && (st.dataError ==> error && kept == [])
    requires kept == [] || (|kept| == 1 && kept[0].envelope == st.envelope)
    ensures EndMessage(st, ops, error, said, kept) in Allowed(e, st)
  {
  }

  lemma FinishedKeeps(e: Env, st: State, w: Work)
    requires Inv(e, st) && st.mode.Data? && st.line == ""
    requires st.disk.ops <= w.disk.ops && (st.dataError ==> w.error)
    ensures Finished(e, st, w) in Allowed(e, st)
  {
    if !e.ok(st.disk.ops) {
      EndKeeps(e, st, st.disk.ops + 1, st.dataError, Refusal(st, st.dataError), []);
    } else if w.error {
      EndKeeps(e, st, w.disk.ops, true, Refusal(st, true), []);
    } else {
      EndKeeps(e, st, w.disk.ops, st.dataError, [Ok], [Commit(st.envelope, w.disk.bytes)]);
    }
  }

  lemma FinishDataKeeps(e: Env, st: State)
    requires Inv(e, st) && st.mode.Data? && st.line == ""
    ensures FinishData(e, st) in Allowed(e, st)
  {
    FinishedKeeps(e, st, FinishWork(e, st));
  }

  lemma StoreKeeps(e: Env, st: State, line: string)
    requires Inv(e, st) && st.mode.Data? && st.line == ""
    ensures StoreLine(e, st, line) in Allowed(e, st)
  {
  }

  lemma DataLineKeeps(e: Env, st: State, line: string)
    requires Inv(e, st) && st.mode.Data? && st.line == ""
    ensures DataLine(e, st, line) in Allowed(e, st)
  {
    if |line| > LINE_CAPACITY {
    } else if !IsEnd(line) {
      StoreKeeps(e, st, line);
    } else if !st.lineTooLong && !st.dataTooLong {
      FinishDataKeeps(e, st);
    } else {
      EndKeeps(e, st, st.disk.ops, st.dataError, Refusal(st, st.dataError), []);
    }
  }

  lemma StepKeeps(e: Env, b: Behind, st: State, c: char)
    requires Inv(e, st)
    ensures Step(e, b, st, c) in Allowed(e, st)
  {
    FreeEmpty(CRLF);
    match st.mode
    case Closed =>
    case Cmd =>
      var p := st.cmd + [c];
      FreeSnoc(CRLF, st.cmd, c);
      if EndsWith(p, CRLF) {
        CommandKeeps(e, st.(cmd := ""), p[..|p| - 2], b(|st.replies|));
      }
    case Data =>
      var p := st.line + [c];
      FreeSnoc(CRLF, st.line, c);
      if EndsWith(p, CRLF) {
        DataLineKeeps(e, st.(line := ""), p[..|p| - 2]);
      }
  }

  /** Every reachable state keeps the invariant; greeting, replies and kept messages are never taken back;
      a closed session stays as it is; and with the error flag set it keeps no message ever again, because the
      flag is never cleared. */
  lemma {:induction false} RunKeeps(e: Env, b: Behind, st: State, bytes: string)
    requires Inv(e, st)
    ensures Run(e, b, st, bytes) in Allowed(e, st)
    decreases bytes
  {
    if bytes != "" {
      StepKeeps(e, b, st, bytes[0]);
      RunKeeps(e, b, Step(e, b, st, bytes[0]), bytes[1..]);
    }
  }

  /** The error flag is never cleared: once it is set, a session goes on answering but keeps nothing ever
      again. */
  lemma NothingKeptAfterError(e: Env, b: Behind, st: State, bytes: string)
    requires Inv(e, st) && st.dataError
    ensures Run(e, b, st, bytes).commits == st.commits && Run(e, b, st, bytes).dataError
  {
    RunKeeps(e, b, st, bytes);
  }
}
