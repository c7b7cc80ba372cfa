/** A whole conversation with a client that follows the grammar. */
module Conversation {
  import opened Bytes
  import opened Framing
  import opened Parse
  import opened PathGrammar
  import opened Disk
  import opened Metadata
  import opened Machine
  import opened SessionInvariant
  import opened Commands
  import opened Delivery
  import C = Chunks
  import opened MailParameters

  /** Waiting for a command with this transaction; file and kept messages as in `was`. */
  ghost function Waiting(was: State, m: Envelope, reverseSet: bool): iset<State> {
    iset st: State |
      && st.mode.Cmd? && st.cmd == "" && st.line == "" && st.begun
      && st.envelope == m && st.reverseSet == reverseSet
      && st.dataError == was.dataError && st.disk == was.disk && st.commits == was.commits
  }

  datatype Greeting = EHLO(name: string) | HELO(name: string)

  function GreetingLine(g: Greeting): string {
    (match g case EHLO(_) => "EHLO" case HELO(_) => "HELO") + " " + g.name
  }

  /** A reverse path as it is sent, what is stored of it, and body parameters. */
  datatype Sender = Sender(path: string, stored: string, params: seq<string>)

  ghost predicate IsSender(s: Sender) {
    IsReversePath(s.path, s.stored) && AreBodyParams(s.params)
  }

  function MailLine(s: Sender): string {
    "MAIL FROM:" + (s.path + Concat(s.params))
  }

  function RcptLine(p: PathForm): string {
    "RCPT TO:" + p.Render()
  }

  function RcptBytes(ps: seq<PathForm>): string {
    if ps == [] then "" else RcptLine(ps[0]) + CRLF + RcptBytes(ps[1..])
  }

  function StoredPaths(ps: seq<PathForm>): seq<string> {
    if ps == [] then [] else [ps[0].Stored()] + StoredPaths(ps[1..])
  }

  // ----- Lines

  lemma SenderIsPrintable(s: Sender)
    requires IsSender(s)
    ensures AllPrintable(s.path + Concat(s.params))
  {
    ReversePathIsPrintable(s.path, s.stored);
    ParamsArePrintable(s.params);
  }

  /** A command line: any verb in capitals, an argument, and nothing that breaks the line. */
  lemma LineIs(verb: string, arg: string, line: string)
    requires |verb| == 4 && Upper(verb) == verb && AllPrintable(verb) && AllPrintable(arg)
    requires line == verb + " " + arg
    ensures VerbOf(line) == Lookup(verb) && Terminates(CRLF, line)
    ensures forall stale :: ArgOf(line, stale) == arg
  {
    assert line[..4] == verb && line[5..] == arg;
    PrintableTerminates(line);
  }

  lemma LineTaken(e: Env, b: Behind, st: State, line: string)
    requires st.mode.Cmd? && st.cmd == "" && Terminates(CRLF, line) && |line| <= CMD_CAPACITY
    ensures Run(e, b, st, line + CRLF) == CallCommand(e, st, line, b(|st.replies|))
  {
    OneCommand(e, b, st, line, "");
    assert line + CRLF + "" == line + CRLF;
  }

  /** A line whose command leads to a waiting state. */
  lemma Taken(e: Env, b: Behind, was: State, st: State, line: string, next: State, m: Envelope, reverseSet: bool)
    requires st.mode.Cmd? && st.cmd == "" && Terminates(CRLF, line) && |line| <= CMD_CAPACITY
    requires CallCommand(e, st, line, b(|st.replies|)) == next && next in Waiting(was, m, reverseSet)
    ensures Run(e, b, st, line + CRLF) in Waiting(was, m, reverseSet)
  {
    LineTaken(e, b, st, line);
  }

  // ----- Step by step

  lemma GreetingLineIs(g: Greeting, stale: string)
    requires IsDomainName(g.name)
    ensures Terminates(CRLF, GreetingLine(g)) && Domain(ArgOf(GreetingLine(g), stale)) == Some(g.name)
    ensures VerbOf(GreetingLine(g)) == Some(if g.EHLO? then Machine.EHLO else Machine.HELO)
  {
    LineIs(if g.EHLO? then "EHLO" else "HELO", g.name, GreetingLine(g));
    DomainExact(g.name, "");
    assert g.name + "" == g.name;
  }

  lemma GreetingCalled(e: Env, st: State, g: Greeting, stale: string) returns (r: Reply)
    requires IsDomainName(g.name)
    ensures Terminates(CRLF, GreetingLine(g)) && CallCommand(e, st, GreetingLine(g), stale) == Greeted(st, g.name, r)
  {
    GreetingLineIs(g, stale);
    r := if g.EHLO? then ExtendedHello else Hello;
    NamedGreeting(e, st, GreetingLine(g), stale, g.name, r);
  }

  lemma NamedGreeting(e: Env, st: State, line: string, stale: string, name: string, r: Reply)
    requires Domain(ArgOf(line, stale)) == Some(name)
    requires VerbOf(line) == Some(if r == ExtendedHello then Machine.EHLO else Machine.HELO)
    requires r == ExtendedHello || r == Hello
    ensures CallCommand(e, st, line, stale) == Greeted(st, name, r)
  {
  }

  lemma GreetingTaken(e: Env, b: Behind, st: State, g: Greeting)
    requires st.mode.Cmd? && st.cmd == "" && st.line == ""
    requires IsDomainName(g.name) && |GreetingLine(g)| <= CMD_CAPACITY
    ensures Run(e, b, st, GreetingLine(g) + CRLF) in Waiting(st, NO_ENVELOPE.(from := g.name), false)
  {
    var r := GreetingCalled(e, st, g, b(|st.replies|));
    Taken(e, b, st, st, GreetingLine(g), Greeted(st, g.name, r), NO_ENVELOPE.(from := g.name), false);
  }

  lemma SenderArgument(s: Sender, arg: string)
    requires IsSender(s) && arg == "FROM:" + (s.path + Concat(s.params))
    ensures IsMailArgument(arg, s.stored)
  {
    assert arg[5..] == s.path + Concat(s.params);
  }

  lemma MailLineIs(s: Sender, stale: string)
    requires IsSender(s)
    ensures VerbOf(MailLine(s)) == Some(MAIL) && IsMailArgument(ArgOf(MailLine(s), stale), s.stored)
    ensures Terminates(CRLF, MailLine(s))
  {
    var line, arg := MailLine(s), "FROM:" + (s.path + Concat(s.params));
    SenderIsPrintable(s);
    assert line == "MAIL" + " " + arg;
    LineIs("MAIL", arg, line);
    SenderArgument(s, arg);
  }

  lemma MailCalled(e: Env, st: State, line: string, stale: string, stored: string)
    requires VerbOf(line) == Some(MAIL) && IsMailArgument(ArgOf(line, stale), stored) && st.begun && !st.reverseSet
    ensures CallCommand(e, st, line, stale) == Mailed(st, stored)
  {
    MailExact(st, ArgOf(line, stale), stored);
  }

  lemma MailTaken(e: Env, b: Behind, was: State, st: State, m: Envelope, s: Sender)
    requires st in Waiting(was, m, false) && IsSender(s) && |MailLine(s)| <= CMD_CAPACITY
    ensures Run(e, b, st, MailLine(s) + CRLF) in Waiting(was, m.(reverse := s.stored, forwards := []), true)
  {
    MailLineIs(s, b(|st.replies|));
    MailCalled(e, st, MailLine(s), b(|st.replies|), s.stored);
    Taken(e, b, was, st, MailLine(s), Mailed(st, s.stored), m.(reverse := s.stored, forwards := []), true);
  }

  lemma RecipientArgument(p: PathForm, arg: string)
    requires p.Valid() && arg == "TO:" + p.Render()
    ensures IsRcptArgument(arg, p.Stored())
  {
    assert arg[3..] == p.Render() + "";
    assert IsPath(p.Render(), p.Stored());
  }

  lemma RcptLineIs(p: PathForm, stale: string)
    requires p.Valid()
    ensures VerbOf(RcptLine(p)) == Some(RCPT) && IsRcptArgument(ArgOf(RcptLine(p), stale), p.Stored())
    ensures Terminates(CRLF, RcptLine(p))
  {
    var line, arg := RcptLine(p), "TO:" + p.Render();
    RenderIsPrintable(p);
    assert line == "RCPT" + " " + arg;
    LineIs("RCPT", arg, line);
    RecipientArgument(p, arg);
  }

  lemma RcptCalled(e: Env, st: State, line: string, stale: string, stored: string)
    requires VerbOf(line) == Some(RCPT) && IsRcptArgument(ArgOf(line, stale), stored)
    requires st.begun && |st.envelope.forwards| < e.maxForwardPaths
    ensures CallCommand(e, st, line, stale) == Recipient(st, stored)
  {
    RcptPerformed(e, st, line, stale);
    RcptAccepted(e, st, ArgOf(line, stale), stored, Recipient(st, stored));
  }

  lemma RcptPerformed(e: Env, st: State, line: string, stale: string)
    requires VerbOf(line) == Some(RCPT)
    ensures CallCommand(e, st, line, stale) == Rcpt(e, st, ArgOf(line, stale))
  {
  }

  lemma RcptAccepted(e: Env, st: State, arg: string, stored: string, next: State)
    requires IsRcptArgument(arg, stored) && next == Recipient(st, stored)
    requires st.begun && |st.envelope.forwards| < e.maxForwardPaths
    ensures Rcpt(e, st, arg) == next
  {
    RcptExact(e, st, arg, stored);
  }

  lemma RcptTaken(e: Env, b: Behind, was: State, st: State, m: Envelope, p: PathForm)
    requires st in Waiting(was, m, true) && p.Valid() && |RcptLine(p)| <= CMD_CAPACITY
    requires |m.forwards| < e.maxForwardPaths
    ensures Run(e, b, st, RcptLine(p) + CRLF) in Waiting(was, m.(forwards := m.forwards + [p.Stored()]), true)
  {
    RcptLineIs(p, b(|st.replies|));
    RcptCalled(e, st, RcptLine(p), b(|st.replies|), p.Stored());
    Taken(e, b, was, st, RcptLine(p), Recipient(st, p.Stored()), m.(forwards := m.forwards + [p.Stored()]), true);
  }

  ghost predicate AreRecipients(ps: seq<PathForm>) {
    forall i :: 0 <= i < |ps| ==> ps[i].Valid() && |RcptLine(ps[i])| <= CMD_CAPACITY
  }

  lemma StoredNext(before: seq<string>, ps: seq<PathForm>)
    requires ps != []
    ensures before + [ps[0].Stored()] + StoredPaths(ps[1..]) == before + StoredPaths(ps)
  {
  }

  /** The first recipient and the rest: what is sent, and what it makes of the envelope. */
  lemma FirstRecipient(m: Envelope, ps: seq<PathForm>) returns (more: seq<PathForm>, first: Envelope, all: Envelope)
    requires ps != [] && AreRecipients(ps)
    ensures |more| == |ps| - 1 && AreRecipients(more)
    ensures RcptBytes(ps) == RcptLine(ps[0]) + CRLF + RcptBytes(more)
    ensures first == m.(forwards := m.forwards + [ps[0].Stored()]) && |first.forwards| == |m.forwards| + 1
    ensures all == first.(forwards := first.forwards + StoredPaths(more))
         == m.(forwards := m.forwards + StoredPaths(ps))
  {
    more := ps[1..];
    first := m.(forwards := m.forwards + [ps[0].Stored()]);
    all := first.(forwards := first.forwards + StoredPaths(more));
    StoredNext(m.forwards, ps);
  }

  lemma StoredNone(m: Envelope)
    ensures m.(forwards := m.forwards + StoredPaths([])) == m
  {
    assert m.forwards + [] == m.forwards;
  }

  lemma Then(e: Env, b: Behind, was: State, st: State, first: string, second: string, m: Envelope)
    requires Run(e, b, Run(e, b, st, first), second) in Waiting(was, m, true)
    ensures Run(e, b, st, first + second) in Waiting(was, m, true)
  {
    RunAppend(e, b, st, first, second);
  }

  lemma {:induction false} RcptsTaken(e: Env, b: Behind, was: State, st: State, m: Envelope, ps: seq<PathForm>)
    requires st in Waiting(was, m, true) && AreRecipients(ps) && |m.forwards| + |ps| <= e.maxForwardPaths
    ensures Run(e, b, st, RcptBytes(ps)) in Waiting(was, m.(forwards := m.forwards + StoredPaths(ps)), true)
    decreases |ps|
  {
    if ps == [] {
      StoredNone(m);
    } else {
      var more, first, all := FirstRecipient(m, ps);
      RcptTaken(e, b, was, st, m, ps[0]);
      RcptsTaken(e, b, was, Run(e, b, st, RcptLine(ps[0]) + CRLF), first, more);
      Then(e, b, was, st, RcptLine(ps[0]) + CRLF, RcptBytes(more), all);
    }
  }

  // ----- The whole conversation

  function Opening(g: Greeting, sender: Sender, recipients: seq<PathForm>): string {
    GreetingLine(g) + CRLF + (MailLine(sender) + CRLF + RcptBytes(recipients))
  }

  /** The envelope a client means. */
  function Meant(name: string, sender: Sender, recipients: seq<PathForm>): Envelope {
    Envelope(ZeroBlocks(), name, sender.stored, StoredPaths(recipients))
  }

  ghost predicate IsTransaction(e: Env, sender: Sender, recipients: seq<PathForm>) {
    && IsSender(sender) && |MailLine(sender)| <= CMD_CAPACITY
    && AreRecipients(recipients) && 0 < |recipients| <= e.maxForwardPaths
  }

  ghost predicate IsOpening(e: Env, g: Greeting, sender: Sender, recipients: seq<PathForm>) {
    IsDomainName(g.name) && |GreetingLine(g)| <= CMD_CAPACITY && IsTransaction(e, sender, recipients)
  }

  lemma MeantIs(name: string, sender: Sender, recipients: seq<PathForm>)
    ensures var m := NO_ENVELOPE.(from := name, reverse := sender.stored);
      m.(forwards := m.forwards + StoredPaths(recipients)) == Meant(name, sender, recipients)
  {
    assert [] + StoredPaths(recipients) == StoredPaths(recipients);
  }

  lemma TransactionOpened(e: Env, b: Behind, was: State, st: State, name: string, sender: Sender, recipients: seq<PathForm>)
    requires IsTransaction(e, sender, recipients) && st in Waiting(was, NO_ENVELOPE.(from := name), false)
    ensures Run(e, b, st, MailLine(sender) + CRLF + RcptBytes(recipients))
         in Waiting(was, Meant(name, sender, recipients), true)
  {
    var m := NO_ENVELOPE.(from := name, reverse := sender.stored);
    MailTaken(e, b, was, st, NO_ENVELOPE.(from := name), sender);
    RcptsTaken(e, b, was, Run(e, b, st, MailLine(sender) + CRLF), m, recipients);
    MeantIs(name, sender, recipients);
    Then(e, b, was, st, MailLine(sender) + CRLF, RcptBytes(recipients), Meant(name, sender, recipients));
  }

  lemma Opened(e: Env, b: Behind, st: State, g: Greeting, sender: Sender, recipients: seq<PathForm>)
    requires st.mode.Cmd? && st.cmd == "" && st.line == "" && IsOpening(e, g, sender, recipients)
    ensures Run(e, b, st, Opening(g, sender, recipients)) in Waiting(st, Meant(g.name, sender, recipients), true)
  {
    var greeting := GreetingLine(g) + CRLF;
    GreetingTaken(e, b, st, g);
    TransactionOpened(e, b, st, Run(e, b, st, greeting), g.name, sender, recipients);
    Then(e, b, st, st, greeting, MailLine(sender) + CRLF + RcptBytes(recipients), Meant(g.name, sender, recipients));
  }

  lemma {:induction false} StoredCount(ps: seq<PathForm>)
    ensures |StoredPaths(ps)| == |ps|
  {
    if ps != [] {
      StoredCount(ps[1..]);
    }
  }

  /** The one message kept since `st`, with this envelope, for a reader. */
  ghost function Serving(st: State, content: string, m: Envelope): iset<State> {
    iset next: State |
      && |next.commits| == |st.commits| + 1 && next.commits[..|st.commits|] == st.commits
      && next.commits[|st.commits|].envelope == m
      && next.commits[|st.commits|].file in Recovering(content, m)
  }

  lemma ServedFrom(e: Env, b: Behind, st: State, ready: State, m: Envelope, command: string, lines: seq<string>)
    requires ready in Waiting(st, m, true) && Inv(e, ready) && m.forwards != []
    requires !st.dataError && AllOk(e, st.disk.ops, OpenOps(e, st.disk.ops)) && IsDataCommand(command) && AreLines(lines)
    requires Delivers(e, OpenedAt(e, st), m, lines) && IsReadableSize(Content(TraceText(e, st.disk.ops), lines), m)
    ensures Run(e, b, ready, Sent(command, lines)) in Serving(st, Content(TraceText(e, st.disk.ops), lines), m)
  {
    DeliveryRoundTrip(e, b, ready, command, lines);
  }

  /** A client that greets, names a sender and recipients by the grammar, and sends lines within the limits,
      is served: in whatever state before, exactly one message is kept, and its file gives a reader the trace
      and the lines, the name, and the paths in order. */
  lemma Served(e: Env, b: Behind, st: State, g: Greeting, sender: Sender, recipients: seq<PathForm>, command: string, lines: seq<string>)
    requires Inv(e, st) && st.mode.Cmd? && st.cmd == "" && !st.dataError
    requires IsOpening(e, g, sender, recipients) && IsDataCommand(command) && AreLines(lines)
    requires AllOk(e, st.disk.ops, OpenOps(e, st.disk.ops)) && Delivers(e, OpenedAt(e, st), Meant(g.name, sender, recipients), lines)
    requires IsReadableSize(Content(TraceText(e, st.disk.ops), lines), Meant(g.name, sender, recipients))
    ensures Run(e, b, st, Opening(g, sender, recipients) + Sent(command, lines))
         in Serving(st, Content(TraceText(e, st.disk.ops), lines), Meant(g.name, sender, recipients))
  {
    var opening := Opening(g, sender, recipients);
    Opened(e, b, st, g, sender, recipients);
    RunKeeps(e, b, st, opening);
    StoredCount(recipients);
    ServedFrom(e, b, st, Run(e, b, st, opening), Meant(g.name, sender, recipients), command, lines);
    RunAppend(e, b, st, opening, Sent(command, lines));
  }

  /** The same over the wire: however the bytes are cut and whatever the command buffer holds. */
  lemma ServedInChunks(e: Env, s: C.Buffered, g: Greeting, sender: Sender, recipients: seq<PathForm>, command: string,
                       lines: seq<string>, chunks: seq<string>)
    requires C.IsBuffered(s) && Inv(e, s.st) && s.st.mode.Cmd? && s.st.cmd == "" && !s.st.dataError
    requires IsOpening(e, g, sender, recipients) && IsDataCommand(command) && AreLines(lines)
    requires AllOk(e, s.st.disk.ops, OpenOps(e, s.st.disk.ops))
    requires Delivers(e, OpenedAt(e, s.st), Meant(g.name, sender, recipients), lines)
    requires IsReadableSize(Content(TraceText(e, s.st.disk.ops), lines), Meant(g.name, sender, recipients))
    requires Concat(chunks) == Opening(g, sender, recipients) + Sent(command, lines)
    ensures C.FeedAll(e, s, chunks).st
         in Serving(s.st, Content(TraceText(e, s.st.disk.ops), lines), Meant(g.name, sender, recipients))
  {
    var b := C.FeedAllIsRun(e, s, chunks);
    Served(e, b, s.st, g, sender, recipients, command, lines);
  }

  lemma DeliveredInChunks(e: Env, s: C.Buffered, command: string, lines: seq<string>, chunks: seq<string>)
    requires C.IsBuffered(s) && IsReady(e, s.st) && IsDataCommand(command) && AreLines(lines)
    requires Concat(chunks) == Sent(command, lines)
    ensures C.FeedAll(e, s, chunks).st
         in Deliveries(s.st, DeliveredFiles(e, OpenedAt(e, s.st), TraceText(e, s.st.disk.ops), s.st.envelope, lines))
  {
    var b := C.FeedAllIsRun(e, s, chunks);
    Delivered(e, b, s.st, command, lines);
  }
}
