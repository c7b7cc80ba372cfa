/** Runs from the start of a session that show what can happen. */
module Witnesses {
  import opened Bytes
  import opened Framing
  import opened Parse
  import opened PathGrammar
  import opened Disk
  import opened Metadata
  import opened Machine
  import opened Commands
  import opened MessageText
  import opened FileLayout
  import opened MessageEnd
  import opened Archive
  import Tar
  import opened Delivery
  import opened Conversation

  lemma ResetTaken(e: Env, b: Behind, was: State, st: State, m: Envelope)
    requires st in Waiting(was, m, false)
    ensures Run(e, b, st, "RSET" + CRLF) in Waiting(was, NO_ENVELOPE, false)
  {
    PrintableTerminates("RSET");
    assert "RSET"[..4] == "RSET" && Upper("RSET") == "RSET";
    Taken(e, b, was, st, "RSET", Say(Reset(st), Ok), NO_ENVELOPE, false);
  }

  /** A greeting and a reset leave a session that waits without a name. */
  lemma NameReset(e: Env, b: Behind, g: Greeting)
    requires IsDomainName(g.name) && |GreetingLine(g)| <= CMD_CAPACITY
    ensures Run(e, b, INITIAL, GreetingLine(g) + CRLF + ("RSET" + CRLF)) in Waiting(INITIAL, NO_ENVELOPE, false)
  {
    var hello := GreetingLine(g) + CRLF;
    GreetingTaken(e, b, INITIAL, g);
    ResetTaken(e, b, INITIAL, Run(e, b, INITIAL, hello), NO_ENVELOPE.(from := g.name));
    RunAppend(e, b, INITIAL, hello, "RSET" + CRLF);
  }

  lemma DataIsCommand()
    ensures IsDataCommand("DATA")
  {
    PrintableTerminates("DATA");
    assert "DATA"[..4] == "DATA" && Upper("DATA") == "DATA";
  }

  lemma NamelessOpened(e: Env, b: Behind, g: Greeting, sender: Sender, recipients: seq<PathForm>)
    requires IsOpening(e, g, sender, recipients)
    ensures Run(e, b, INITIAL, GreetingLine(g) + CRLF + ("RSET" + CRLF) + (MailLine(sender) + CRLF + RcptBytes(recipients)))
         in Waiting(INITIAL, Meant("", sender, recipients), true)
  {
    var hello := GreetingLine(g) + CRLF + ("RSET" + CRLF);
    NameReset(e, b, g);
    TransactionOpened(e, b, INITIAL, Run(e, b, INITIAL, hello), "", sender, recipients);
    Then(e, b, INITIAL, INITIAL, hello, MailLine(sender) + CRLF + RcptBytes(recipients), Meant("", sender, recipients));
  }

  lemma OnceKept(e: Env, st: State, next: State, ops: nat, trace: string, m: Envelope, lines: seq<string>, at: nat)
    requires next in Deliveries(st, DeliveredFiles(e, ops, trace, m, lines)) && st.commits == []
    requires Delivers(e, ops, m, lines) && at == ops + |lines| + 1
    ensures next.commits == [Commit(m, FileOf(e, at, Content(trace, lines), m))]
  {
    DeliveredFileIs(e, ops, trace, m, lines, at);
  }

  /** A session without kept messages that may send its first one. */
  lemma SentTo(e: Env, b: Behind, ready: State, lines: seq<string>) returns (next: State, at: nat)
    requires IsReady(e, ready) && AreLines(lines) && ready.commits == []
    requires Delivers(e, OpenedAt(e, ready), ready.envelope, lines)
    ensures next == Run(e, b, ready, Sent("DATA", lines))
    ensures next.commits == [Commit(ready.envelope, FileOf(e, at, Content(TraceText(e, ready.disk.ops), lines), ready.envelope))]
  {
    DataIsCommand();
    Delivered(e, b, ready, "DATA", lines);
    next, at := Run(e, b, ready, Sent("DATA", lines)), OpenedAt(e, ready) + |lines| + 1;
    OnceKept(e, ready, next, OpenedAt(e, ready), TraceText(e, ready.disk.ops), ready.envelope, lines, at);
  }

  // ----- A client

  /** The null sender. */
  const NOBODY := Sender("<>", "", [])

  function Recipient1(): PathForm {
    PathForm([], DotString("a"), "b")
  }

  lemma ClientOpens(e: Env)
    requires e.maxForwardPaths > 0
    ensures IsOpening(e, Conversation.EHLO("x"), NOBODY, [Recipient1()])
  {
    assert IsDomainName("x") by {
      assert IsLabelChar('x');
    }
    assert IsAtext('a') && IsLabelChar('b');
    assert Recipient1().Valid();
    assert RcptLine(Recipient1()) == "RCPT TO:<a@b>";
    assert MailLine(NOBODY) == "MAIL FROM:<>";
    assert IsReversePath(NOBODY.path, NOBODY.stored);
  }

  lemma OneRecipient()
    ensures StoredPaths([Recipient1()]) != []
  {
  }

  lemma ClientBytes()
    ensures GreetingLine(Conversation.EHLO("x")) == "EHLO x" && MailLine(NOBODY) == "MAIL FROM:<>"
    ensures RcptBytes([Recipient1()]) == "RCPT TO:<a@b>" + CRLF
    ensures Sent("DATA", []) == "DATA" + CRLF + ("." + CRLF)
  {
    assert RcptLine(Recipient1()) == "RCPT TO:<a@b>";
    assert RcptBytes([]) == "" && [Recipient1()][1..] == [];
  }

  /** A client waiting in `st` opens a transaction, with a greeting before it. */
  lemma ClientReady(e: Env, b: Behind, st: State) returns (ready: State)
    requires st.mode.Cmd? && st.cmd == "" && st.line == "" && e.maxForwardPaths > 0
    ensures ready == Run(e, b, st, Opening(Conversation.EHLO("x"), NOBODY, [Recipient1()]))
    ensures ready in Waiting(st, Meant("x", NOBODY, [Recipient1()]), true)
    ensures ready.envelope.forwards != []
  {
    ClientOpens(e);
    Opened(e, b, st, Conversation.EHLO("x"), NOBODY, [Recipient1()]);
    OneRecipient();
    ready := Run(e, b, st, Opening(Conversation.EHLO("x"), NOBODY, [Recipient1()]));
  }

  lemma WaitsReady(e: Env, was: State, st: State, m: Envelope)
    requires st in Waiting(was, m, true) && m.forwards != [] && !was.dataError
    requires AllOk(e, was.disk.ops, OpenOps(e, was.disk.ops))
    ensures IsReady(e, st) && st.envelope == m && st.commits == was.commits && st.disk == was.disk
  {
  }

  // ----- A name that is lost

  /** Greeting with the name `x`, reset, MAIL, RCPT, DATA, and an empty message. */
  function NamelessBytes(): string {
    "EHLO x" + CRLF + ("RSET" + CRLF) + ("MAIL FROM:<>" + CRLF + ("RCPT TO:<a@b>" + CRLF)) + ("DATA" + CRLF + ("." + CRLF))
  }

  lemma NamelessReady(e: Env, b: Behind) returns (ready: State, opening: string)
    requires e.maxForwardPaths > 0
    ensures opening == "EHLO x" + CRLF + ("RSET" + CRLF) + ("MAIL FROM:<>" + CRLF + ("RCPT TO:<a@b>" + CRLF))
    ensures ready == Run(e, b, INITIAL, opening) && ready in Waiting(INITIAL, Meant("", NOBODY, [Recipient1()]), true)
  {
    ClientOpens(e);
    NamelessOpened(e, b, Conversation.EHLO("x"), NOBODY, [Recipient1()]);
    ClientBytes();
    opening := "EHLO x" + CRLF + ("RSET" + CRLF) + ("MAIL FROM:<>" + CRLF + ("RCPT TO:<a@b>" + CRLF));
    ready := Run(e, b, INITIAL, opening);
  }

  lemma EmptyDelivers(e: Env, ops: nat, m: Envelope)
    requires AllSucceed(e, ops, 0, m)
    ensures AreLines([]) && Delivers(e, ops, m, [])
  {
  }

  /** A client gives its name and then resets; its message is kept without the name. */
  lemma NamelessMessage(e: Env, b: Behind) returns (next: State)
    requires e.maxForwardPaths > 0 && forall i: nat :: e.ok(i)
    ensures next == Run(e, b, INITIAL, NamelessBytes())
    ensures |next.commits| == 1 && next.commits[0].envelope == Envelope(ZeroBlocks(), "", "", ["a@b"])
  {
    var m := Meant("", NOBODY, [Recipient1()]);
    var ready, opening := NamelessReady(e, b);
    OneRecipient();
    WaitsReady(e, INITIAL, ready, m);
    EmptyDelivers(e, OpenedAt(e, ready), m);
    var at;
    next, at := SentTo(e, b, ready, []);
    ClientBytes();
    RunAppend(e, b, INITIAL, opening, Sent("DATA", []));
    MeantHere("");
  }

  lemma MeantHere(name: string)
    ensures Meant(name, NOBODY, [Recipient1()]) == Envelope(ZeroBlocks(), name, "", ["a@b"])
  {
    assert Recipient1().Stored() == "a@b";
    assert [Recipient1()][1..] == [] && StoredPaths([]) == [];
  }

  // ----- A message that ends on a block boundary

  /** A line that fills the message up to a block. */
  function Filler(n: nat): string {
    seq((510 + (512 - n % 512)) % 512, i => 'x')
  }

  lemma FillerFills(trace: string, line: string)
    requires line == Filler(|trace|)
    ensures |Content(trace, [line])| % Tar.BLOCK == 0 && |line| < 512
    ensures |Content(trace, [line])| == |trace| + |line| + 2 && |Unsplit(CRLF, [line])| == |line| + 2
  {
    assert Unsplit(CRLF, [line][1..]) == "";
    assert Unsplit(CRLF, [line]) == line + CRLF;
    var n, r := |trace|, |trace| % 512;
    assert n == 512 * (n / 512) + r;
    assert |line| + 2 + r == 512 || |line| + 2 + r == 1024 || |line| + 2 + r == 0;
  }

  lemma FillerDelivers(e: Env, ops: nat, m: Envelope, line: string)
    requires (forall i: nat :: e.ok(i)) && e.maxDataSize >= 513 && |line| < 512 && AllPrintable(line)
    requires |Unsplit(CRLF, [line])| == |line| + 2
    ensures AreLines([line]) && Delivers(e, ops, m, [line])
  {
    PrintableTerminates(line);
  }

  lemma AlignedRead(e: Env, next: State, at: nat, content: string, m: Envelope)
    requires next.commits == [Commit(m, FileOf(e, at, content, m))]
    requires |content| % Tar.BLOCK == 0 && |content| < Tar.SIZE_LIMIT
    ensures |next.commits| == 1 && ReadArchive(next.commits[0].file) == [Member("message.mbox", content)]
  {
    AlignedFileReads(e, at, content, m);
  }

  lemma AlignedSent(e: Env, b: Behind, ready: State, line: string, content: string) returns (next: State)
    requires IsReady(e, ready) && ready.commits == [] && (forall i: nat :: e.ok(i)) && e.maxDataSize >= 513
    requires line == Filler(|TraceText(e, ready.disk.ops)|) && content == Content(TraceText(e, ready.disk.ops), [line])
    requires |TraceText(e, ready.disk.ops)| < Tar.SIZE_LIMIT - 1024
    ensures next == Run(e, b, ready, Sent("DATA", [line]))
    ensures |next.commits| == 1 && ReadArchive(next.commits[0].file) == [Member("message.mbox", content)]
  {
    FillerFills(TraceText(e, ready.disk.ops), line);
    FillerDelivers(e, OpenedAt(e, ready), ready.envelope, line);
    var at;
    next, at := SentTo(e, b, ready, [line]);
    AlignedRead(e, next, at, content, ready.envelope);
  }

  /** A message of one line, behind whatever trace, of which a reader finds no metadata. */
  lemma AlignedMessage(e: Env, b: Behind) returns (line: string, next: State)
    requires e.maxForwardPaths > 0 && e.maxDataSize >= 513 && forall i: nat :: e.ok(i)
    requires |TraceText(e, 0)| < Tar.SIZE_LIMIT - 1024
    ensures next == Run(e, b, INITIAL, Opening(Conversation.EHLO("x"), NOBODY, [Recipient1()]) + Sent("DATA", [line]))
    ensures |next.commits| == 1
    ensures ReadArchive(next.commits[0].file) == [Member("message.mbox", Content(TraceText(e, 0), [line]))]
  {
    var ready := ClientReady(e, b, INITIAL);
    WaitsReady(e, INITIAL, ready, Meant("x", NOBODY, [Recipient1()]));
    line := Filler(|TraceText(e, 0)|);
    next := AlignedSent(e, b, ready, line, Content(TraceText(e, 0), [line]));
    RunAppend(e, b, INITIAL, Opening(Conversation.EHLO("x"), NOBODY, [Recipient1()]), Sent("DATA", [line]));
  }

  // ----- Operations that fail

  lemma LineFails(e: Env, b: Behind, st: State, start: State)
    requires start in Starts(e, st) && e.maxDataSize >= 3 && !e.ok(OpenedAt(e, st))
    ensures Run(e, b, start, "x" + CRLF).dataError
  {
    TerminatesCrlf("x");
    OneLine(e, b, start, "x", "");
    assert "x" + CRLF + "" == "x" + CRLF;
    OneLineWritten(e, start, "x");
  }

  lemma DataThenLine(e: Env, b: Behind, st: State)
    requires IsReady(e, st) && e.maxDataSize >= 3 && !e.ok(OpenedAt(e, st))
    ensures Run(e, b, st, "DATA" + CRLF + ("x" + CRLF)).dataError
  {
    var start := CommandLine(e, st, "DATA", b(|st.replies|));
    DataIsCommand();
    DataCommandStarts(e, st, "DATA", b(|st.replies|));
    OneCommand(e, b, st, "DATA", "x" + CRLF);
    LineFails(e, b, st, start);
  }

  lemma ReadyToFail(e: Env, st: State, m: Envelope)
    requires st in Waiting(INITIAL, m, true) && m.forwards != []
    requires AllOk(e, 0, OpenOps(e, 0)) && !e.ok(OpenOps(e, 0))
    ensures IsReady(e, st) && !e.ok(OpenedAt(e, st))
  {
  }

  /** A run that reaches the error flag, by its first line of text that cannot be written. */
  lemma FailureReached(e: Env, b: Behind) returns (bytes: string)
    requires e.maxForwardPaths > 0 && e.maxDataSize >= 3
    requires AllOk(e, 0, OpenOps(e, 0)) && !e.ok(OpenOps(e, 0))
    ensures Run(e, b, INITIAL, bytes).dataError
  {
    var ready := ClientReady(e, b, INITIAL);
    ReadyToFail(e, ready, Meant("x", NOBODY, [Recipient1()]));
    DataThenLine(e, b, ready);
    bytes := Opening(Conversation.EHLO("x"), NOBODY, [Recipient1()]) + ("DATA" + CRLF + ("x" + CRLF));
    RunAppend(e, b, INITIAL, Opening(Conversation.EHLO("x"), NOBODY, [Recipient1()]), "DATA" + CRLF + ("x" + CRLF));
  }

  // ----- A message that is not answered

  /** Where an unanswered message leads: nothing said since DATA, nothing kept, and the error flag clear. */
  ghost function Unanswered(start: State): iset<State> {
    iset next: State |
      && next.mode.Cmd? && next.cmd == start.cmd && next.line == ""
      && next.replies == start.replies && next.commits == start.commits
      && !next.dataError && next.disk.ops == start.disk.ops + 1
  }

  lemma SilentEnd(e: Env, start: State)
    requires AtMessageStart(start) && !start.dataError && !e.ok(start.disk.ops)
    ensures DataLine(e, start, ".") in Unanswered(start)
  {
  }

  lemma SilentMessage(e: Env, b: Behind, ready: State) returns (start: State)
    requires IsReady(e, ready) && !e.ok(OpenedAt(e, ready))
    ensures start in Starts(e, ready) && Run(e, b, ready, Sent("DATA", [])) in Unanswered(start)
  {
    DataIsCommand();
    var text;
    start, text := CommandSent(e, b, ready, "DATA", []);
    EndMarker();
    MessageTaken(e, b, start, [], ".");
    SilentEnd(e, start);
  }

  lemma SilentState(e: Env, st: State, ready: State, start: State, next: State, m: Envelope)
    requires ready in Waiting(st, m, true) && start in Starts(e, ready) && next in Unanswered(start)
    ensures next.mode.Cmd? && next.cmd == "" && next.line == "" && next.commits == st.commits && !next.dataError
    ensures next.replies == ready.replies + [StartData]
    ensures next.disk.ops == st.disk.ops + OpenOps(e, st.disk.ops) + 1
  {
  }

  /** Greeting, MAIL, RCPT, DATA and an empty message, of which only the size request fails: it is never
      answered. */
  lemma UnansweredMessage(e: Env, b: Behind) returns (ready: State, next: State)
    requires e.maxForwardPaths > 0 && AllOk(e, 0, OpenOps(e, 0)) && !e.ok(OpenOps(e, 0))
    ensures ready == Run(e, b, INITIAL, Opening(Conversation.EHLO("x"), NOBODY, [Recipient1()]))
    ensures next == Run(e, b, ready, Sent("DATA", []))
    ensures next.mode.Cmd? && next.cmd == "" && next.line == "" && next.commits == [] && !next.dataError
    ensures next.replies == ready.replies + [StartData] && next.disk.ops == OpenOps(e, 0) + 1
  {
    var m := Meant("x", NOBODY, [Recipient1()]);
    ready := ClientReady(e, b, INITIAL);
    ReadyToFail(e, ready, m);
    var start := SilentMessage(e, b, ready);
    next := Run(e, b, ready, Sent("DATA", []));
    SilentState(e, INITIAL, ready, start, next, m);
  }

  lemma LaterSucceed(e: Env, failed: nat, ops: nat, n: nat)
    requires failed < ops && forall i: nat :: i != failed ==> e.ok(i)
    ensures AllOk(e, ops, n)
  {
  }

  /** A failed size request costs that message only: the next one is kept. */
  lemma NextIsKept(e: Env, b: Behind) returns (st: State, next: State)
    requires e.maxForwardPaths > 0 && !e.ok(OpenOps(e, 0)) && forall i: nat :: i != OpenOps(e, 0) ==> e.ok(i)
    ensures var opening := Opening(Conversation.EHLO("x"), NOBODY, [Recipient1()]);
      && st == Run(e, b, Run(e, b, INITIAL, opening), Sent("DATA", [])) && st.commits == []
      && next == Run(e, b, Run(e, b, st, opening), Sent("DATA", [])) && |next.commits| == 1
  {
    var m := Meant("x", NOBODY, [Recipient1()]);
    var first;
    first, st := UnansweredMessage(e, b);
    var ready := ClientReady(e, b, st);
    LaterSucceed(e, OpenOps(e, 0), st.disk.ops, OpenOps(e, st.disk.ops));
    WaitsReady(e, st, ready, m);
    LaterSucceed(e, OpenOps(e, 0), OpenedAt(e, ready), 0 + 1 + FileLayout.FinishOps(m));
    EmptyDelivers(e, OpenedAt(e, ready), m);
    var at;
    next, at := SentTo(e, b, ready, []);
  }
}
