/** What each command line does and how it is answered, spelled out. */
module Answers {
  import opened Bytes
  import opened Framing
  import opened Parse
  import opened PathGrammar
  import opened MailParameters
  import opened Disk
  import opened Metadata
  import opened Machine
  import opened SessionInvariant
  import opened History
  import opened Commands
  import opened BareVerbs
  import opened Chunks
  import opened Delivery
  import opened Tables

  // ----- The command table

  /** The first four letters, each in either case. */
  predicate Names(line: string, small: string, capital: string) {
    |line| >= 4 && Spelled(line[..4], small, capital)
  }

  lemma NameFound(word: string, small: string, capital: string)
    requires |word| == |small| == |capital| == 4
    requires forall i :: 0 <= i < 4 ==> 'A' <= capital[i] <= 'Z' && small[i] as int == capital[i] as int + 32
    ensures Upper(word) == capital <==> Spelled(word, small, capital)
  {
    forall i | 0 <= i < 4 ensures ToUpper(word[i]) == capital[i] <==> word[i] == small[i] || word[i] == capital[i] {
      assert 'A' <= capital[i] <= 'Z';
    }
    if Spelled(word, small, capital) {
      forall i | 0 <= i < 4 ensures Upper(word)[i] == capital[i] {
        assert word[i] == small[i] || word[i] == capital[i];
      }
    }
    if Upper(word) == capital {
      forall i | 0 <= i < 4 ensures word[i] == small[i] || word[i] == capital[i] {
        assert Upper(word)[i] == capital[i];
      }
    }
  }

  lemma GreetingsFound(word: string)
    requires |word| == 4
    ensures Upper(word) == "EHLO" <==> Spelled(word, "ehlo", "EHLO")
    ensures Upper(word) == "HELO" <==> Spelled(word, "helo", "HELO")
  {
    NameFound(word, "ehlo", "EHLO");
    NameFound(word, "helo", "HELO");
  }

  lemma TransactionsFound(word: string)
    requires |word| == 4
    ensures Upper(word) == "MAIL" <==> Spelled(word, "mail", "MAIL")
    ensures Upper(word) == "RCPT" <==> Spelled(word, "rcpt", "RCPT")
    ensures Upper(word) == "DATA" <==> Spelled(word, "data", "DATA")
  {
    NameFound(word, "mail", "MAIL");
    NameFound(word, "rcpt", "RCPT");
    NameFound(word, "data", "DATA");
  }

  lemma OthersFound(word: string)
    requires |word| == 4
    ensures Upper(word) == "RSET" <==> Spelled(word, "rset", "RSET")
    ensures Upper(word) == "VRFY" <==> Spelled(word, "vrfy", "VRFY")
    ensures Upper(word) == "NOOP" <==> Spelled(word, "noop", "NOOP")
    ensures Upper(word) == "QUIT" <==> Spelled(word, "quit", "QUIT")
  {
    NameFound(word, "rset", "RSET");
    NameFound(word, "vrfy", "VRFY");
    NameFound(word, "noop", "NOOP");
    NameFound(word, "quit", "QUIT");
  }

  lemma LookupIs(word: string)
    requires |word| == 4
    ensures Lookup(Upper(word)) ==
      if Spelled(word, "ehlo", "EHLO") then Some(EHLO)
      else if Spelled(word, "helo", "HELO") then Some(HELO)
      else if Spelled(word, "mail", "MAIL") then Some(MAIL)
      else if Spelled(word, "rcpt", "RCPT") then Some(RCPT)
      else if Spelled(word, "data", "DATA") then Some(DATA)
      else if Spelled(word, "rset", "RSET") then Some(RSET)
      else if Spelled(word, "vrfy", "VRFY") then Some(VRFY)
      else if Spelled(word, "noop", "NOOP") then Some(NOOP)
      else if Spelled(word, "quit", "QUIT") then Some(QUIT)
      else None
  {
    GreetingsFound(word);
    TransactionsFound(word);
    OthersFound(word);
  }

  /** The nine verbs, in any mixture of capitals and small letters, whatever follows them; nothing else is one. */
  lemma TableIs(line: string)
    ensures VerbOf(line) == Some(EHLO) <==> Names(line, "ehlo", "EHLO")
    ensures VerbOf(line) == Some(HELO) <==> Names(line, "helo", "HELO")
    ensures VerbOf(line) == Some(MAIL) <==> Names(line, "mail", "MAIL")
    ensures VerbOf(line) == Some(RCPT) <==> Names(line, "rcpt", "RCPT")
    ensures VerbOf(line) == Some(DATA) <==> Names(line, "data", "DATA")
    ensures VerbOf(line) == Some(RSET) <==> Names(line, "rset", "RSET")
    ensures VerbOf(line) == Some(VRFY) <==> Names(line, "vrfy", "VRFY")
    ensures VerbOf(line) == Some(NOOP) <==> Names(line, "noop", "NOOP")
    ensures VerbOf(line) == Some(QUIT) <==> Names(line, "quit", "QUIT")
  {
    if |line| >= 4 {
      var word := line[..4];
      LookupIs(word);
      FirstsDiffer(word);
    }
  }

  /** No word is spelled as two verbs. */
  lemma FirstsDiffer(word: string)
    requires |word| == 4
    ensures Spelled(word, "ehlo", "EHLO") ==> word[0] == 'e' || word[0] == 'E'
    ensures Spelled(word, "helo", "HELO") ==> word[0] == 'h' || word[0] == 'H'
    ensures Spelled(word, "mail", "MAIL") ==> word[0] == 'm' || word[0] == 'M'
    ensures Spelled(word, "rcpt", "RCPT") ==> (word[0] == 'r' || word[0] == 'R') && (word[1] == 'c' || word[1] == 'C')
    ensures Spelled(word, "data", "DATA") ==> word[0] == 'd' || word[0] == 'D'
    ensures Spelled(word, "rset", "RSET") ==> (word[0] == 'r' || word[0] == 'R') && (word[1] == 's' || word[1] == 'S')
    ensures Spelled(word, "vrfy", "VRFY") ==> word[0] == 'v' || word[0] == 'V'
    ensures Spelled(word, "noop", "NOOP") ==> word[0] == 'n' || word[0] == 'N'
    ensures Spelled(word, "quit", "QUIT") ==> word[0] == 'q' || word[0] == 'Q'
  {
  }

  // ----- Commands that look at nothing

  lemma Called(e: Env, st: State, line: string, stale: string, verb: Verb)
    requires |line| <= 510 && VerbOf(line) == Some(verb)
    ensures CommandLine(e, st, line, stale) == Perform(e, st, verb, ArgOf(line, stale))
  {
  }

  lemma ResetIs(e: Env, st: State, arg: string)
    ensures Perform(e, st, RSET, arg)
         == st.(mode := Cmd, envelope := Envelope(ZeroBlocks(), "", "", []), reverseSet := false,
                replies := st.replies + [Ok])
  {
  }

  lemma ConstantsAre(e: Env, st: State, arg: string)
    ensures Perform(e, st, VRFY, arg) == st.(replies := st.replies + [NotImplemented])
    ensures Perform(e, st, NOOP, arg) == st.(replies := st.replies + [Ok])
    ensures Perform(e, st, QUIT, arg) == st.(mode := Closed, replies := st.replies + [Goodbye])
  {
  }

  /** NOOP, VRFY and RSET, whatever follows them. */
  lemma PlainAnswers(e: Env, st: State, line: string, stale: string)
    requires |line| <= 510
    ensures Names(line, "noop", "NOOP") ==> CommandLine(e, st, line, stale) == st.(replies := st.replies + [Ok])
    ensures Names(line, "vrfy", "VRFY") ==>
      CommandLine(e, st, line, stale) == st.(replies := st.replies + [NotImplemented])
    ensures Names(line, "rset", "RSET") ==>
      CommandLine(e, st, line, stale)
      == st.(mode := Cmd, envelope := Envelope(ZeroBlocks(), "", "", []), reverseSet := false,
             replies := st.replies + [Ok])
  {
    TableIs(line);
    ConstantsAre(e, st, ArgOf(line, stale));
    ResetIs(e, st, ArgOf(line, stale));
    if VerbOf(line).Some? {
      Called(e, st, line, stale, VerbOf(line).value);
    }
  }

  predicate NamesNothing(line: string) {
    && !Names(line, "ehlo", "EHLO") && !Names(line, "helo", "HELO") && !Names(line, "mail", "MAIL")
    && !Names(line, "rcpt", "RCPT") && !Names(line, "data", "DATA") && !Names(line, "rset", "RSET")
    && !Names(line, "vrfy", "VRFY") && !Names(line, "noop", "NOOP") && !Names(line, "quit", "QUIT")
  }

  /** A line that names no command, and a line that is too long for one. */
  lemma NoCommand(e: Env, st: State, line: string, stale: string)
    ensures |line| > 510 ==> CommandLine(e, st, line, stale) == st.(replies := st.replies + [LineTooLong])
    ensures |line| <= 510 && NamesNothing(line) ==>
      CommandLine(e, st, line, stale) == st.(replies := st.replies + [InvalidCommand])
  {
    TableIs(line);
  }

  // ----- QUIT

  /** QUIT in any spelling and with anything behind it closes the session with one answer, and nothing that
      follows is read. */
  lemma QuitCloses(e: Env, b: Behind, st: State, line: string, more: string)
    requires st.mode.Cmd? && st.cmd == "" && Terminates(CRLF, line) && |line| <= 510 && Names(line, "quit", "QUIT")
    ensures Run(e, b, st, line + CRLF + more) == st.(mode := Closed, replies := st.replies + [Goodbye])
  {
    var next := CommandLine(e, st, line, b(|st.replies|));
    QuitIs(e, st, line, b(|st.replies|));
    OneCommand(e, b, st, line, more);
    RunClosed(e, b, next, more);
  }

  lemma QuitIs(e: Env, st: State, line: string, stale: string)
    requires |line| <= 510 && Names(line, "quit", "QUIT")
    ensures CommandLine(e, st, line, stale) == st.(mode := Closed, replies := st.replies + [Goodbye])
  {
    TableIs(line);
    ConstantsAre(e, st, ArgOf(line, stale));
    Called(e, st, line, stale, QUIT);
  }

  /** No other command closes a session. */
  lemma OnlyQuitSaysGoodbye(e: Env, st: State, line: string, stale: string)
    requires st.mode.Cmd?
    ensures CommandLine(e, st, line, stale).mode.Closed? <==> |line| <= 510 && Names(line, "quit", "QUIT")
  {
    TableIs(line);
    if |line| <= 510 && Names(line, "quit", "QUIT") {
      QuitIs(e, st, line, stale);
    } else {
      var said := CommandIs(e, st, line, stale);
    }
  }

  /** A byte closes a session if and only if it completes a QUIT. */
  lemma OnlyQuitCloses(e: Env, b: Behind, st: State, c: char)
    requires !st.mode.Closed?
    ensures Step(e, b, st, c).mode.Closed? <==>
      TakesLine(st, c) && |LineOf(st, c)| <= 510 && Names(LineOf(st, c), "quit", "QUIT")
  {
    if TakesLine(st, c) {
      StepOf(e, b, st, c);
      OnlyQuitSaysGoodbye(e, st.(cmd := ""), LineOf(st, c), b(|st.replies|));
    } else if st.mode.Data? && EndsWith(st.line + [c], CRLF) {
      var line := (st.line + [c])[..|st.line| - 1];
      DataStepIs(e, b, st, c, line);
      var said := DataLineIs(e, st.(line := ""), line);
    }
  }

  // ----- DATA

  /** DATA is out of sequence without sender or recipient, fails if the file cannot be opened, and starts the
      message otherwise; the three answers in exactly these cases. */
  lemma DataAnswers(e: Env, st: State)
    requires st.mode.Cmd?
    ensures !st.reverseSet || st.envelope.forwards == [] ==>
      StartMessage(e, st) == st.(replies := st.replies + [BadSequence])
    ensures st.reverseSet && st.envelope.forwards != [] && !AllOk(e, st.disk.ops, OpenOps(e, st.disk.ops)) ==>
      StartMessage(e, st) == st.(disk := StartMessage(e, st).disk, replies := st.replies + [LocalError])
    ensures st.reverseSet && st.envelope.forwards != [] && AllOk(e, st.disk.ops, OpenOps(e, st.disk.ops)) ==>
      StartMessage(e, st)
      == st.(mode := Data, dataSize := 0, dataTooLong := false, lineTooLong := false,
             disk := StartMessage(e, st).disk, replies := st.replies + [StartData])
  {
    OpenFileOutcome(e, st.disk);
  }

  lemma DataCalled(e: Env, st: State, line: string, stale: string)
    requires |line| <= 510 && Names(line, "data", "DATA")
    ensures CommandLine(e, st, line, stale) == StartMessage(e, st)
  {
    TableIs(line);
    Called(e, st, line, stale, DATA);
  }

  // ----- Greetings

  /** A greeting with a name: EHLO has its own answer, and both forget any transaction. Without a name it is
      refused as malformed. */
  lemma GreetAnswers(e: Env, st: State, line: string, stale: string, name: string)
    requires 5 <= |line| <= 510
    requires Names(line, "ehlo", "EHLO") || Names(line, "helo", "HELO")
    ensures IsNameArgument(line[5..], name) ==>
      CommandLine(e, st, line, stale)
      == st.(mode := Cmd, envelope := Envelope(ZeroBlocks(), name, "", []), reverseSet := false, begun := true,
             replies := st.replies + [if Names(line, "ehlo", "EHLO") then ExtendedHello else Hello])
    ensures (forall any :: !IsNameArgument(line[5..], any)) ==>
      CommandLine(e, st, line, stale) == st.(replies := st.replies + [InvalidParameters])
  {
    var verb, r := if Names(line, "ehlo", "EHLO") then EHLO else HELO,
                   if Names(line, "ehlo", "EHLO") then ExtendedHello else Hello;
    TableIs(line);
    Called(e, st, line, stale, verb);
    GreetIs(e, st, verb, line[5..], r);
    GreetExact(st, line[5..], name, r);
    GreetRefused(st, line[5..], r);
  }

  lemma GreetIs(e: Env, st: State, verb: Verb, arg: string, r: Reply)
    requires (verb == EHLO && r == ExtendedHello) || (verb == HELO && r == Hello)
    ensures Perform(e, st, verb, arg) == Greet(st, arg, r)
  {
  }

  lemma GreetRefused(st: State, arg: string, r: Reply)
    ensures (forall any :: !IsNameArgument(arg, any)) ==> Greet(st, arg, r) == st.(replies := st.replies + [InvalidParameters])
  {
    if Domain(arg).Some? {
      NameArgumentExact(arg, Domain(arg).value);
    }
  }

  // ----- MAIL

  /** A reverse path behind the first five bytes, whatever follows it. */
  ghost predicate HasReversePath(arg: string) {
    |arg| >= 5 && exists path: string, stored: string, rest: string ::
      IsReversePath(path, stored) && arg[5..] == path + rest
  }

  lemma HasReversePathIs(arg: string)
    ensures HasReversePath(arg) <==> |arg| >= 5 && ReversePath(arg[5..]).Some?
  {
    if |arg| >= 5 && ReversePath(arg[5..]).Some? {
      var path := ReversePathParsed(arg[5..]);
    }
    if HasReversePath(arg) {
      var path: string, stored: string, rest: string :| IsReversePath(path, stored) && arg[5..] == path + rest;
      ReversePathParses(path, stored, rest);
    }
  }

  lemma MailCases(st: State, arg: string, path: Option<MailboxResult>)
    requires |arg| >= 5 && path == ReversePath(arg[5..])
    ensures Mail(st, arg).replies == st.replies +
      [if path.None? then InvalidParameters
       else if st.reverseSet || !st.begun then BadSequence
       else if MailParams(path.value.rest) then Ok else InvalidParameters]
  {
  }

  /** MAIL: without a path it is malformed, with one out of sequence it is told so, and in sequence it is
      malformed again if anything but parameters follows the path. */
  lemma MailAnswers(st: State, arg: string)
    ensures Mail(st, arg).replies == st.replies +
      [if !HasReversePath(arg) then InvalidParameters
       else if st.reverseSet || !st.begun then BadSequence
       else if exists stored :: IsMailArgument(arg, stored) then Ok else InvalidParameters]
  {
    HasReversePathIs(arg);
    if |arg| >= 5 {
      MailCases(st, arg, ReversePath(arg[5..]));
      ArgumentExists(arg);
    }
  }

  lemma ArgumentExists(arg: string)
    requires |arg| >= 5
    ensures (exists stored :: IsMailArgument(arg, stored)) <==>
      ReversePath(arg[5..]).Some? && MailParams(ReversePath(arg[5..]).value.rest)
  {
    if ReversePath(arg[5..]).Some? {
      MailArgumentExact(arg, ReversePath(arg[5..]).value.stored);
    }
    forall stored | IsMailArgument(arg, stored)
      ensures ReversePath(arg[5..]).Some? && MailParams(ReversePath(arg[5..]).value.rest)
    {
      MailArgumentExact(arg, stored);
    }
  }

  // ----- RCPT

  /** RCPT: too short an argument is malformed; before a greeting it is out of sequence; beyond the limit there
      are too many; and without a path it is malformed again. */
  lemma RcptAnswers(e: Env, st: State, arg: string)
    ensures Rcpt(e, st, arg).replies == st.replies +
      [if |arg| < 3 then InvalidParameters
       else if !st.begun then BadSequence
       else if |st.envelope.forwards| >= e.maxForwardPaths then TooManyRecipients
       else if exists stored :: IsRcptArgument(arg, stored) then Ok else InvalidParameters]
  {
    if |arg| >= 3 {
      RcptCases(e, st, arg, Path(arg[3..]));
      RcptExists(arg);
    }
  }

  lemma RcptExists(arg: string)
    requires |arg| >= 3
    ensures (exists stored :: IsRcptArgument(arg, stored)) <==> Path(arg[3..]).Some?
  {
    if Path(arg[3..]).Some? {
      RcptArgumentExact(arg, Path(arg[3..]).value.stored);
    }
    forall stored | IsRcptArgument(arg, stored) ensures Path(arg[3..]).Some? {
      RcptArgumentExact(arg, stored);
    }
  }

  /** A MAIL or RCPT line with an argument is that command with that argument. */
  lemma TransactionCalled(e: Env, st: State, line: string, stale: string)
    requires 5 <= |line| <= 510
    ensures Names(line, "mail", "MAIL") ==> CommandLine(e, st, line, stale) == Mail(st, line[5..])
    ensures Names(line, "rcpt", "RCPT") ==> CommandLine(e, st, line, stale) == Rcpt(e, st, line[5..])
  {
    TableIs(line);
    if VerbOf(line).Some? {
      Called(e, st, line, stale, VerbOf(line).value);
    }
  }
}
