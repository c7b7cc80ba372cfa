/** Where a cut can be seen. */
module Cuts {
  import opened Bytes
  import opened Framing
  import opened Parse
  import opened Disk
  import opened Metadata
  import opened Machine
  import opened PathGrammar
  import opened Commands
  import opened BareVerbs
  import opened Chunks
  import opened Conversation

  /** A whole line in a chunk, alone or with more behind it. */
  lemma LineFed(e: Env, s: Buffered, line: string, rest: string, src: string)
    requires IsBuffered(s) && s.st.mode.Cmd? && s.st.cmd == "" && Terminates(CRLF, line)
    requires src == line + CRLF + rest
    ensures Feed(e, s, src) == Feed(e, TakeCommand(e, s, line, PutAt(s.cells, 0, src)), rest)
  {
    assert "" + src == src;
    ScanComplete(CRLF, "", src, line, rest);
  }

  lemma ShortLineTerminates(line: string)
    requires AllPrintable(line)
    ensures Terminates(CRLF, line)
  {
    PrintableTerminates(line);
  }

  // ----- A bare verb and what follows in its chunk

  /** What stands behind a bare verb and its line end when `more` came with them in one chunk. */
  function BehindLine(cells: string, more: string): string
    requires |cells| == CMD_CAPACITY && |more| <= 500
  {
    more + cells[6 + |more|..]
  }

  lemma CellsBehind(cells: string, line: string, more: string)
    requires |cells| == CMD_CAPACITY && |line| == 4 && |more| <= 500
    ensures Ended(PutAt(cells, 0, line + CRLF + more), |line|)[6..] == BehindLine(cells, more)
  {
  }

  lemma BareArgBehind(cells: string, more: string)
    requires |cells| == CMD_CAPACITY && |more| <= 500
    ensures |BareArg(BehindLine(cells, more))| == 1 + STALE_CELLS + 2
    ensures BareArg(BehindLine(cells, more)) == "\n" + more + (cells[6 + |more|..] + CRLF)
  {
  }

  lemma FourSkipped(skipped: string, text: string, rest: string)
    requires |skipped| == 4
    ensures ("\n" + (skipped + text) + rest)[5..] == text + rest
  {
  }

  lemma TwoSkipped(skipped: string, text: string, rest: string)
    requires |skipped| == 2
    ensures ("\n" + (skipped + text) + rest)[3..] == text + rest
  {
  }

  lemma MailWithPath(st: State, cells: string, more: string)
    requires |cells| == CMD_CAPACITY && more == "1234" + "<>" && (st.reverseSet || !st.begun)
    ensures Mail(st, BareArg(BehindLine(cells, more))).replies == st.replies + [BadSequence]
  {
    BareArgBehind(cells, more);
    FourSkipped("1234", "<>", cells[6 + |more|..] + CRLF);
    BareMailFindsPath(st, BehindLine(cells, more), "<>", "", cells[6 + |more|..] + CRLF);
  }

  lemma MailWithoutPath(st: State, cells: string, more: string)
    requires |cells| == CMD_CAPACITY && more == "1234" + "x"
    ensures Mail(st, BareArg(BehindLine(cells, more))).replies == st.replies + [InvalidParameters]
  {
    BareArgBehind(cells, more);
    FourSkipped("1234", "x", cells[6 + |more|..] + CRLF);
    assert BareArg(BehindLine(cells, more))[5] == BareArg(BehindLine(cells, more))[5..][0] == 'x';
    BareMailFindsNothing(st, BehindLine(cells, more));
  }

  lemma RcptWithPath(e: Env, st: State, cells: string, skipped: string, path: string, stored: string, more: string)
    requires |cells| == CMD_CAPACITY && st.begun && |st.envelope.forwards| < e.maxForwardPaths
    requires |skipped| == 2 && IsPath(path, stored) && more == skipped + path && |more| <= 7
    ensures Rcpt(e, st, BareArg(BehindLine(cells, more))).replies == st.replies + [Ok]
  {
    BareArgBehind(cells, more);
    TwoSkipped(skipped, path, cells[6 + |more|..] + CRLF);
    BareRcptFindsPath(e, st, BehindLine(cells, more), path, stored, cells[6 + |more|..] + CRLF);
  }

  lemma RcptWithoutPath(e: Env, st: State, cells: string, more: string)
    requires |cells| == CMD_CAPACITY && more == "12" + "xy" && st.begun && |st.envelope.forwards| < e.maxForwardPaths
    ensures Rcpt(e, st, BareArg(BehindLine(cells, more))).replies == st.replies + [InvalidParameters]
  {
    BareArgBehind(cells, more);
    TwoSkipped("12", "xy", cells[6 + |more|..] + CRLF);
    assert BareArg(BehindLine(cells, more))[3] == BareArg(BehindLine(cells, more))[3..][0] == 'x';
    BareRcptFindsNothing(e, st, BehindLine(cells, more));
  }

  /** What may follow a bare verb in its chunk to have it answered with `r`. */
  ghost function Answering(e: Env, st: State, line: string, cells: string, r: Reply): iset<string>
    requires |cells| == CMD_CAPACITY
  {
    iset more: string |
      && |more| <= 7 && AllPrintable(more)
      && CommandLine(e, st, line, BehindLine(cells, more)).replies == st.replies + [r]
  }

  lemma IsAnswered(e: Env, st: State, line: string, cells: string, more: string, verb: Verb, r: Reply)
    requires |cells| == CMD_CAPACITY && |line| == 4 && VerbOf(line) == Some(verb)
    requires |more| <= 7 && AllPrintable(more)
    requires Perform(e, st, verb, BareArg(BehindLine(cells, more))).replies == st.replies + [r]
    ensures more in Answering(e, st, line, cells, r)
  {
    CalledBare(e, st, line, BehindLine(cells, more));
  }

  lemma MailFinds(e: Env, st: State, line: string, cells: string) returns (more: string)
    requires |cells| == CMD_CAPACITY && ReadsBuffer(e, st, line) && VerbOf(line) == Some(MAIL)
    ensures more in Answering(e, st, line, cells, BadSequence)
  {
    more := "1234" + "<>";
    MailWithPath(st, cells, more);
    IsAnswered(e, st, line, cells, more, MAIL, BadSequence);
  }

  lemma MailMisses(e: Env, st: State, line: string, cells: string) returns (more: string)
    requires |cells| == CMD_CAPACITY && ReadsBuffer(e, st, line) && VerbOf(line) == Some(MAIL)
    ensures more in Answering(e, st, line, cells, InvalidParameters)
  {
    more := "1234" + "x";
    MailWithoutPath(st, cells, more);
    IsAnswered(e, st, line, cells, more, MAIL, InvalidParameters);
  }

  lemma RcptFinds(e: Env, st: State, line: string, cells: string, skipped: string, path: string, stored: string)
    returns (more: string)
    requires |cells| == CMD_CAPACITY && ReadsBuffer(e, st, line) && VerbOf(line) == Some(RCPT)
    requires |skipped| == 2 && AllPrintable(skipped) && IsPath(path, stored) && |path| <= 5 && AllPrintable(path)
    ensures more in Answering(e, st, line, cells, Ok)
  {
    more := skipped + path;
    RcptWithPath(e, st, cells, skipped, path, stored, more);
    IsAnswered(e, st, line, cells, more, RCPT, Ok);
  }

  lemma PathToSend() returns (skipped: string, path: string, stored: string)
    ensures |skipped| == 2 && AllPrintable(skipped) && IsPath(path, stored) && |path| <= 5 && AllPrintable(path)
  {
    skipped, path, stored := "12", "<a@b>", "a@b";
    SomePath();
  }

  lemma RcptFindsSome(e: Env, st: State, line: string, cells: string) returns (more: string)
    requires |cells| == CMD_CAPACITY && ReadsBuffer(e, st, line) && VerbOf(line) == Some(RCPT)
    ensures more in Answering(e, st, line, cells, Ok)
  {
    var skipped, path, stored := PathToSend();
    more := RcptFinds(e, st, line, cells, skipped, path, stored);
  }

  lemma RcptMisses(e: Env, st: State, line: string, cells: string) returns (more: string)
    requires |cells| == CMD_CAPACITY && ReadsBuffer(e, st, line) && VerbOf(line) == Some(RCPT)
    ensures more in Answering(e, st, line, cells, InvalidParameters)
  {
    more := "12" + "xy";
    RcptWithoutPath(e, st, cells, more);
    IsAnswered(e, st, line, cells, more, RCPT, InvalidParameters);
  }

  lemma BothAnswers(e: Env, st: State, line: string, cells: string) returns (one: string, r: Reply, other: string, q: Reply)
    requires |cells| == CMD_CAPACITY && ReadsBuffer(e, st, line)
    ensures r != q && one in Answering(e, st, line, cells, r) && other in Answering(e, st, line, cells, q)
  {
    q := InvalidParameters;
    if VerbOf(line) == Some(MAIL) {
      r := BadSequence;
      one := MailFinds(e, st, line, cells);
      other := MailMisses(e, st, line, cells);
    } else {
      r := Ok;
      one := RcptFindsSome(e, st, line, cells);
      other := RcptMisses(e, st, line, cells);
    }
  }

  /** Whatever a bare verb is answered, there is something that could have followed it in its chunk to have it
      answered otherwise. */
  lemma OtherAnswer(e: Env, st: State, line: string, cells: string, said: seq<Reply>) returns (more: string)
    requires |cells| == CMD_CAPACITY && ReadsBuffer(e, st, line)
    ensures |more| <= 7 && AllPrintable(more) && CommandLine(e, st, line, BehindLine(cells, more)).replies != said
  {
    var one, r, other, q := BothAnswers(e, st, line, cells);
    RepliesDiffer(st.replies, r, q);
    more := if said == st.replies + [r] then other else one;
  }

  lemma MailStays(st: State, arg: string)
    ensures Mail(st, arg).mode == st.mode && Mail(st, arg).cmd == st.cmd
  {
  }

  lemma RcptStays(e: Env, st: State, arg: string)
    ensures Rcpt(e, st, arg).mode == st.mode && Rcpt(e, st, arg).cmd == st.cmd
  {
  }

  lemma BareStays(e: Env, st: State, line: string, stale: string)
    requires ReadsBuffer(e, st, line)
    ensures CommandLine(e, st, line, stale).mode == st.mode && CommandLine(e, st, line, stale).cmd == st.cmd
  {
    CalledBare(e, st, line, stale);
    MailStays(st, BareArg(stale));
    RcptStays(e, st, BareArg(stale));
  }

  lemma UnfinishedFed(e: Env, s: Buffered, more: string)
    requires IsBuffered(s) && s.st.mode.Cmd? && s.st.cmd == "" && Free(CRLF, more)
    ensures Feed(e, s, more).st.replies == s.st.replies
  {
    assert "" + more == more;
    ScanFree(CRLF, "", more);
  }

  lemma PrintableIsFree(more: string)
    requires AllPrintable(more)
    ensures Free(CRLF, more)
  {
    PrintableTerminates(more);
    TerminatesCrlf(more);
  }

  lemma BareTaken(e: Env, s: Buffered, line: string, more: string)
    requires IsBuffered(s) && s.st.mode.Cmd? && s.st.cmd == "" && ReadsBuffer(e, s.st, line) && |more| <= 500
    ensures var next := TakeCommand(e, s, line, PutAt(s.cells, 0, line + CRLF + more));
      next.st == CommandLine(e, s.st, line, BehindLine(s.cells, more)) && next.st.mode.Cmd? && next.st.cmd == ""
  {
    CellsBehind(s.cells, line, more);
    assert s.st.(cmd := "") == s.st;
    BareStays(e, s.st, line, BehindLine(s.cells, more));
  }

  /** In one chunk, what follows is already in the buffer. */
  lemma WholeFed(e: Env, s: Buffered, line: string, more: string)
    requires IsBuffered(s) && s.st.mode.Cmd? && s.st.cmd == "" && Terminates(CRLF, line)
    requires ReadsBuffer(e, s.st, line) && |more| <= 500 && AllPrintable(more)
    ensures Feed(e, s, line + CRLF + more).st.replies == CommandLine(e, s.st, line, BehindLine(s.cells, more)).replies
  {
    var src := line + CRLF + more;
    LineFed(e, s, line, more, src);
    BareTaken(e, s, line, more);
    PrintableIsFree(more);
    UnfinishedFed(e, TakeCommand(e, s, line, PutAt(s.cells, 0, src)), more);
  }

  /** Cut behind the line end, it is not. */
  lemma HalvedFed(e: Env, s: Buffered, line: string, more: string)
    requires IsBuffered(s) && s.st.mode.Cmd? && s.st.cmd == "" && Terminates(CRLF, line)
    requires ReadsBuffer(e, s.st, line) && AllPrintable(more)
    ensures Feed(e, Feed(e, s, line + CRLF), more).st.replies
         == CommandLine(e, s.st, line, BehindLine(s.cells, "")).replies
  {
    var src := line + CRLF;
    assert src + "" == src;
    LineFed(e, s, line, "", src);
    BareTaken(e, s, line, "");
    PrintableIsFree(more);
    UnfinishedFed(e, TakeCommand(e, s, line, PutAt(s.cells, 0, src)), more);
  }

  /** Wherever a run stops being clean, a cut can be seen: for every state and every content of the buffer, and
      every command line that depends on it, there are bytes that may follow so that one chunk and two chunks,
      cut behind the line, get different replies. */
  lemma CutShows(e: Env, s: Buffered, line: string) returns (more: string)
    requires IsBuffered(s) && s.st.mode.Cmd? && s.st.cmd == "" && Terminates(CRLF, line)
    requires ReadsBuffer(e, s.st, line)
    ensures AllPrintable(more)
    ensures Feed(e, s, line + CRLF + more).st.replies != Feed(e, Feed(e, s, line + CRLF), more).st.replies
  {
    var said := CommandLine(e, s.st, line, BehindLine(s.cells, "")).replies;
    more := OtherAnswer(e, s.st, line, s.cells, said);
    WholeFed(e, s, line, more);
    HalvedFed(e, s, line, more);
  }

  // ----- From the start of a session

  const HELLO: string := "EHLO x"
  const MAIL_LINE: string := "MAIL FROM:<>"

  lemma LineAlone(e: Env, s: Buffered, line: string) returns (stale: string)
    requires IsBuffered(s) && s.st.mode.Cmd? && s.st.cmd == "" && Terminates(CRLF, line)
    ensures Feed(e, s, line + CRLF).st == CommandLine(e, s.st, line, stale)
    ensures Feed(e, s, line + CRLF).cells == AfterLine(Ended(PutAt(s.cells, 0, line + CRLF), |line|), line)
  {
    assert line + CRLF == line + CRLF + "";
    LineFed(e, s, line, "", line + CRLF);
    stale := Ended(PutAt(s.cells, 0, line + CRLF), |line|)[6..];
    assert s.st.(cmd := "") == s.st;
  }

  lemma HelloTaken(e: Env, s: Buffered) returns (r: Reply)
    requires IsBuffered(s) && s.st.mode.Cmd? && s.st.cmd == ""
    ensures Feed(e, s, HELLO + CRLF).st == Greeted(s.st, "x", r)
  {
    assert IsDomainName("x") by {
      assert IsLabelChar('x');
    }
    assert GreetingLine(Conversation.EHLO("x")) == HELLO;
    ShortLineTerminates(HELLO);
    var stale := LineAlone(e, s, HELLO);
    r := GreetingCalled(e, s.st, Conversation.EHLO("x"), stale);
  }

  lemma MailSent(e: Env, s: Buffered)
    requires IsBuffered(s) && s.st.mode.Cmd? && s.st.cmd == "" && s.st.begun && !s.st.reverseSet
    ensures Feed(e, s, MAIL_LINE + CRLF).st == Mailed(s.st, "")
  {
    var sender := Sender("<>", "", []);
    assert MailLine(sender) == MAIL_LINE;
    ShortLineTerminates(MAIL_LINE);
    var stale := LineAlone(e, s, MAIL_LINE);
    MailLineIs(sender, stale);
    MailCalled(e, s.st, MAIL_LINE, stale, "");
  }

  lemma BareRcpt()
    ensures Terminates(CRLF, "RCPT") && VerbOf("RCPT") == Some(RCPT)
  {
    ShortLineTerminates("RCPT");
    assert "RCPT"[..4] == "RCPT" && Upper("RCPT") == "RCPT";
  }

  /** The state after a greeting and a MAIL in chunks of their own. */
  lemma Prepared(e: Env) returns (s: Buffered)
    requires e.maxForwardPaths > 0
    ensures s == Feed(e, Feed(e, START, HELLO + CRLF), MAIL_LINE + CRLF)
    ensures IsBuffered(s) && s.st.mode.Cmd? && s.st.cmd == "" && ReadsBuffer(e, s.st, "RCPT")
  {
    var r := HelloTaken(e, START);
    var greeted := Feed(e, START, HELLO + CRLF);
    MailSent(e, greeted);
    s := Feed(e, greeted, MAIL_LINE + CRLF);
    BareRcpt();
  }

  lemma FirstFed(e: Env, s: Buffered, first: string, rest: seq<string>, chunks: seq<string>)
    requires IsBuffered(s) && chunks == [first] + rest
    ensures FeedAll(e, s, chunks) == FeedAll(e, Feed(e, s, first), rest)
  {
    assert chunks[1..] == rest;
  }

  lemma TwoFed(e: Env, s: Buffered, a: string, b: string, rest: seq<string>, chunks: seq<string>)
    requires IsBuffered(s) && chunks == [a, b] + rest
    ensures FeedAll(e, s, chunks) == FeedAll(e, Feed(e, Feed(e, s, a), b), rest)
  {
    assert chunks == [a] + ([b] + rest);
    FirstFed(e, s, a, [b] + rest, chunks);
    FirstFed(e, Feed(e, s, a), b, rest, [b] + rest);
  }

  lemma OneMore(e: Env, s: Buffered, c: string)
    requires IsBuffered(s)
    ensures FeedAll(e, s, [c]) == Feed(e, s, c)
  {
    FirstFed(e, s, c, [], [c]);
  }

  lemma TwoMore(e: Env, s: Buffered, c: string, d: string)
    requires IsBuffered(s)
    ensures FeedAll(e, s, [c, d]) == Feed(e, Feed(e, s, c), d)
  {
    TwoFed(e, s, c, d, [], [c, d]);
  }

  lemma SameBytes(a: string, b: string, c: string, d: string)
    ensures Concat([a, b, c + d]) == Concat([a, b, c, d])
  {
    ConcatAppend([a, b], [c + d]);
    ConcatAppend([a, b], [c, d]);
    ConcatOne(c + d);
    ConcatTwo(c, d);
    assert [a, b] + [c + d] == [a, b, c + d] && [a, b] + [c, d] == [a, b, c, d];
  }

  /** The same bytes from the start of a session, cut in two ways, get different replies. */
  lemma CutsMatter(e: Env) returns (one: seq<string>, other: seq<string>)
    requires e.maxForwardPaths > 0
    ensures Concat(one) == Concat(other)
    ensures FeedAll(e, START, one).st.replies != FeedAll(e, START, other).st.replies
  {
    var s := Prepared(e);
    BareRcpt();
    var bare := "RCPT" + CRLF;
    var more := CutShows(e, s, "RCPT");
    one := [HELLO + CRLF, MAIL_LINE + CRLF, bare + more];
    other := [HELLO + CRLF, MAIL_LINE + CRLF, bare, more];
    SameBytes(HELLO + CRLF, MAIL_LINE + CRLF, bare, more);
    TwoFed(e, START, HELLO + CRLF, MAIL_LINE + CRLF, [bare + more], one);
    TwoFed(e, START, HELLO + CRLF, MAIL_LINE + CRLF, [bare, more], other);
    OneMore(e, s, bare + more);
    TwoMore(e, s, bare, more);
  }

  // ----- What a line leaves behind

  /** Behind a MAIL or RCPT line the buffer holds the keyword, whatever the line said in its place. */
  lemma KeywordLeft(e: Env, s: Buffered, line: string)
    requires IsBuffered(s) && s.st.mode.Cmd? && s.st.cmd == "" && Terminates(CRLF, line) && |line| <= 510
    ensures VerbOf(line) == Some(MAIL) && (|line| == 4 || |line| >= 10) ==>
      Feed(e, s, line + CRLF).cells[5..10] == "FROM:"
    ensures VerbOf(line) == Some(RCPT) && (|line| == 4 || |line| >= 8) ==>
      Feed(e, s, line + CRLF).cells[5..8] == "TO:"
  {
    var stale := LineAlone(e, s, line);
    KeywordCells(Ended(PutAt(s.cells, 0, line + CRLF), |line|), line);
  }

  lemma KeywordCells(cells: string, line: string)
    requires |cells| == CMD_CAPACITY && |line| <= 510
    ensures VerbOf(line) == Some(MAIL) && (|line| == 4 || |line| >= 10) ==> AfterLine(cells, line)[5..10] == "FROM:"
    ensures VerbOf(line) == Some(RCPT) && (|line| == 4 || |line| >= 8) ==> AfterLine(cells, line)[5..8] == "TO:"
  {
  }

  /** A bare RCPT in a chunk of its own, behind a MAIL line in one, finds the `M` of its keyword and is refused,
      although the client may have put a path in the keyword's place. */
  lemma BareRcptBehindMail(e: Env, s: Buffered, line: string)
    requires IsBuffered(s) && s.st.mode.Cmd? && s.st.cmd == "" && Terminates(CRLF, line) && 10 <= |line| <= 510
    requires VerbOf(line) == Some(MAIL) && s.st.begun && |s.st.envelope.forwards| < e.maxForwardPaths
    ensures var t := Feed(e, s, line + CRLF);
      Feed(e, t, "RCPT" + CRLF).st == Say(t.st, InvalidParameters)
  {
    var t := MailFed(e, s, line);
    BareRcptRefused(e, t);
  }

  lemma MailFed(e: Env, s: Buffered, line: string) returns (t: Buffered)
    requires IsBuffered(s) && s.st.mode.Cmd? && s.st.cmd == "" && Terminates(CRLF, line) && 10 <= |line| <= 510
    requires VerbOf(line) == Some(MAIL) && s.st.begun && |s.st.envelope.forwards| < e.maxForwardPaths
    ensures t == Feed(e, s, line + CRLF) && IsBuffered(t) && t.cells[8] == 'M'
    ensures t.st.mode.Cmd? && t.st.cmd == "" && t.st.begun && |t.st.envelope.forwards| < e.maxForwardPaths
  {
    t := Feed(e, s, line + CRLF);
    var stale := LineAlone(e, s, line);
    MailLeaves(e, s.st, line, stale);
    KeywordLeft(e, s, line);
    FourthOf(t.cells);
  }

  lemma FourthOf(cells: string)
    requires |cells| >= 10 && cells[5..10] == "FROM:"
    ensures cells[8] == 'M'
  {
    assert cells[8] == cells[5..10][3];
  }

  lemma MailLeaves(e: Env, st: State, line: string, stale: string)
    requires VerbOf(line) == Some(MAIL) && |line| <= 510 && st.begun && |st.envelope.forwards| < e.maxForwardPaths
    ensures var next := CommandLine(e, st, line, stale);
      next.mode == st.mode && next.cmd == st.cmd && next.begun && |next.envelope.forwards| < e.maxForwardPaths
  {
    MailStays(st, ArgOf(line, stale));
    MailForwards(st, ArgOf(line, stale));
  }

  lemma MailForwards(st: State, arg: string)
    ensures Mail(st, arg).begun == st.begun && |Mail(st, arg).envelope.forwards| <= |st.envelope.forwards|
  {
  }

  lemma BareRcptRefused(e: Env, t: Buffered)
    requires IsBuffered(t) && t.st.mode.Cmd? && t.st.cmd == "" && t.cells[8] == 'M'
    requires t.st.begun && |t.st.envelope.forwards| < e.maxForwardPaths
    ensures Feed(e, t, "RCPT" + CRLF).st == Say(t.st, InvalidParameters)
  {
    BareRcpt();
    FourthBehind(t.cells);
    BareRcptMisses(e, t.st, "RCPT", BehindLine(t.cells, ""));
    BareFed(e, t, "RCPT");
  }

  lemma FourthBehind(cells: string)
    requires |cells| == CMD_CAPACITY
    ensures |BareArg(BehindLine(cells, ""))| > 3 && BareArg(BehindLine(cells, ""))[3] == cells[8]
  {
  }

  lemma BareRcptMisses(e: Env, st: State, line: string, stale: string)
    requires |line| == 4 && VerbOf(line) == Some(RCPT) && st.begun && |st.envelope.forwards| < e.maxForwardPaths
    requires |BareArg(stale)| > 3 && BareArg(stale)[3] != '<'
    ensures CommandLine(e, st, line, stale) == Say(st, InvalidParameters)
  {
    BareRcptFindsNothing(e, st, stale);
    CalledBare(e, st, line, stale);
  }

  lemma BareFed(e: Env, s: Buffered, line: string)
    requires IsBuffered(s) && s.st.mode.Cmd? && s.st.cmd == "" && Terminates(CRLF, line) && ReadsBuffer(e, s.st, line)
    ensures Feed(e, s, line + CRLF).st == CommandLine(e, s.st, line, BehindLine(s.cells, ""))
  {
    var src := line + CRLF;
    assert src + "" == src;
    LineFed(e, s, line, "", src);
    BareTaken(e, s, line, "");
  }
}
