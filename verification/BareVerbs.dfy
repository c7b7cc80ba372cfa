/** Command lines that are only a verb: their handlers read what the command buffer happens to hold. */
module BareVerbs {
  import opened Bytes
  import opened Parse
  import opened PathGrammar
  import opened MailParameters
  import opened Disk
  import opened Machine
  import opened Commands

  /** The commands whose outcome depends on the buffer: a bare MAIL where it is out of sequence, because a
      path in the buffer decides which refusal it gets, and a bare RCPT where it is not. */
  predicate ReadsBuffer(e: Env, st: State, line: string) {
    |line| == 4 &&
    match VerbOf(line)
    case Some(MAIL) => st.reverseSet || !st.begun
    case Some(RCPT) => st.begun && |st.envelope.forwards| < e.maxForwardPaths
    case _ => false
  }

  /** The cells that lie between a bare verb with its line end and the window. */
  const STALE_CELLS := 504

  /** What a bare verb's handler reads. */
  function BareArg(stale: string): string {
    "\n" + stale + CRLF
  }

  lemma BareArgEnds(stale: string)
    ensures var arg := BareArg(stale); |arg| >= 3 && arg[0] == '\n' && arg[|arg| - 1] == '\n'
  {
  }

  /** The cell behind a bare greeting holds the end of its own line, which is no name. */
  lemma BareGreeting(st: State, stale: string, r: Reply)
    ensures Greet(st, BareArg(stale), r) == Say(st, InvalidParameters)
  {
    var arg := BareArg(stale);
    BareArgEnds(stale);
    SpanIs(arg, IsDomainChar, 0);
    assert arg[..0] == "";
  }

  lemma ArgumentEnds(arg: string, stored: string)
    requires IsMailArgument(arg, stored)
    ensures |arg| > 5 && IsPrintable(arg[|arg| - 1])
  {
    var path: string, ps: seq<string> :|
      IsReversePath(path, stored) && AreBodyParams(ps) && arg[5..] == path + Concat(ps);
    ReversePathIsPrintable(path, stored);
    ParamsArePrintable(ps);
    var text := path + Concat(ps);
    assert IsPrintable(text[|text| - 1]) && text[|text| - 1] == arg[|arg| - 1];
  }

  lemma BareMailHasNoArgument(stale: string, stored: string)
    ensures !IsMailArgument(BareArg(stale), stored)
  {
    BareArgEnds(stale);
    if IsMailArgument(BareArg(stale), stored) {
      ArgumentEnds(BareArg(stale), stored);
    }
  }

  /** A bare MAIL in sequence reads up to the line end in the window and is always refused the same way. */
  lemma BareMail(st: State, stale: string)
    requires st.begun && !st.reverseSet
    ensures Mail(st, BareArg(stale)) == Say(st, InvalidParameters)
  {
    var arg := BareArg(stale);
    MailReadsPath(st, arg);
    if |arg| >= 5 && ReversePath(arg[5..]).Some? {
      BareMailHasNoArgument(stale, ReversePath(arg[5..]).value.stored);
      MailArgumentExact(arg, ReversePath(arg[5..]).value.stored);
    }
  }

  lemma MailReadsPath(st: State, arg: string)
    requires st.begun && !st.reverseSet
    ensures |arg| < 5 || ReversePath(arg[5..]).None? || !MailParams(ReversePath(arg[5..]).value.rest) ==>
      Mail(st, arg) == Say(st, InvalidParameters)
  {
  }

  lemma BareRcpt(e: Env, st: State, stale: string)
    requires !st.begun || |st.envelope.forwards| >= e.maxForwardPaths
    ensures Rcpt(e, st, BareArg(stale)) == Say(st, if !st.begun then BadSequence else TooManyRecipients)
  {
    BareArgEnds(stale);
  }

  // ----- Reading stops at the window

  predicate EndsLine(s: string) {
    s != "" && s[|s| - 1] == '\n'
  }

  lemma PrintableIsShorter(a: string, s: string, whole: string)
    requires AllPrintable(a) && EndsLine(s) && a <= whole && s <= whole
    ensures |a| < |s|
  {
    assert whole[|s| - 1] == '\n';
    assert forall i :: 0 <= i < |a| ==> whole[i] == a[i];
  }

  /** What is printable at the start of a text ends before the first line end. */
  lemma EndsBefore(a: string, rest: string, s: string, t: string) returns (more: string)
    requires AllPrintable(a) && EndsLine(s) && s + t == a + rest
    ensures s == a + more && rest == more + t && EndsLine(more)
  {
    PrintableIsShorter(a, s, s + t);
    more := s[|a|..];
    assert a == (a + rest)[..|a|] == s[..|a|];
    assert rest == (a + rest)[|a|..] == more + t;
  }

  /** More text behind an accepted path only lengthens the rest. */
  lemma ReversePathExtends(s: string, t: string)
    requires ReversePath(s).Some?
    ensures ReversePath(s + t).Some? && ReversePath(s + t).value.stored == ReversePath(s).value.stored
    ensures ReversePath(s + t).value.rest == ReversePath(s).value.rest + t
  {
    var path := ReversePathParsed(s);
    var rest := ReversePath(s).value.rest;
    Regroup(path, rest, t);
    ReversePathParses(path, ReversePath(s).value.stored, rest + t);
  }

  lemma ReversePathShrinks(s: string, t: string)
    requires EndsLine(s) && ReversePath(s + t).Some?
    ensures ReversePath(s).Some?
  {
    var path := ReversePathParsed(s + t);
    var stored := ReversePath(s + t).value.stored;
    ReversePathIsPrintable(path, stored);
    var more := EndsBefore(path, ReversePath(s + t).value.rest, s, t);
    ReversePathParses(path, stored, more);
  }

  lemma ReversePathRest(s: string)
    requires EndsLine(s) && ReversePath(s).Some?
    ensures EndsLine(ReversePath(s).value.rest)
  {
    var path := ReversePathParsed(s);
    ReversePathIsPrintable(path, ReversePath(s).value.stored);
    assert s + "" == s;
    var more := EndsBefore(path, ReversePath(s).value.rest, s, "");
    assert more + "" == more;
  }

  lemma PathExtends(s: string, t: string)
    requires Path(s).Some?
    ensures Path(s + t).Some? && Path(s + t).value.stored == Path(s).value.stored
  {
    var p := PathSound(s);
    assert IsPath(p.Render(), p.Stored());
    Regroup(p.Render(), Path(s).value.rest, t);
    PathParses(p.Render(), p.Stored(), Path(s).value.rest + t);
  }

  lemma PathShrinks(s: string, t: string)
    requires EndsLine(s) && Path(s + t).Some?
    ensures Path(s).Some?
  {
    var p := PathSound(s + t);
    RenderIsPrintable(p);
    var more := EndsBefore(p.Render(), Path(s + t).value.rest, s, t);
    assert IsPath(p.Render(), p.Stored());
    PathParses(p.Render(), p.Stored(), more);
  }

  /** No list of parameters goes on behind a line end. */
  lemma ParamsStop(s: string, t: string)
    requires EndsLine(s)
    ensures !MailParams(s + t) && !MailParams(s)
  {
    assert (s + t)[|s| - 1] == '\n';
    if MailParams(s + t) {
      var ps := MailParamsSound(s + t);
      ParamsArePrintable(ps);
    }
    if MailParams(s) {
      var ps := MailParamsSound(s);
      ParamsArePrintable(ps);
    }
  }

  lemma PathReads(s: string, t: string)
    requires EndsLine(s)
    ensures ReversePath(s).Some? <==> ReversePath(s + t).Some?
    ensures ReversePath(s).Some? ==>
      && ReversePath(s + t).value.stored == ReversePath(s).value.stored
      && !MailParams(ReversePath(s).value.rest) && !MailParams(ReversePath(s + t).value.rest)
  {
    if ReversePath(s + t).Some? {
      ReversePathShrinks(s, t);
    }
    if ReversePath(s).Some? {
      ReversePathExtends(s, t);
      ReversePathRest(s);
      ParamsStop(ReversePath(s).value.rest, t);
    }
  }

  lemma MailRefuses(st: State, arg: string)
    requires |arg| >= 5 && (ReversePath(arg[5..]).Some? ==> !MailParams(ReversePath(arg[5..]).value.rest))
    ensures Mail(st, arg) == Say(st, if ReversePath(arg[5..]).Some? && (st.reverseSet || !st.begun) then BadSequence
                                    else InvalidParameters)
  {
  }

  lemma MailStops(st: State, arg: string, t: string)
    requires |arg| > 5 && EndsLine(arg)
    ensures Mail(st, arg + t) == Mail(st, arg)
  {
    assert (arg + t)[5..] == arg[5..] + t;
    PathReads(arg[5..], t);
    MailRefuses(st, arg);
    MailRefuses(st, arg + t);
  }

  lemma RcptStops(e: Env, st: State, arg: string, t: string)
    requires |arg| > 3 && EndsLine(arg)
    ensures Rcpt(e, st, arg + t) == Rcpt(e, st, arg)
  {
    var s := arg[3..];
    assert (arg + t)[3..] == s + t;
    if Path(s + t).Some? {
      PathShrinks(s, t);
    }
    if Path(s).Some? {
      PathExtends(s, t);
    }
    RcptCases(e, st, arg, Path(s));
    RcptCases(e, st, arg + t, Path(s + t));
  }

  lemma GreetStops(st: State, stale: string, t: string, r: Reply)
    ensures Greet(st, BareArg(stale) + t, r) == Greet(st, BareArg(stale), r)
  {
    var arg := BareArg(stale);
    BareArgEnds(stale);
    BareGreeting(st, stale, r);
    SpanIs(arg + t, IsDomainChar, 0);
    assert (arg + t)[..0] == "";
  }

  /** The argument of a bare verb is a span without end; but nothing that lies behind the window is ever looked
      at, so the cells up to it are all there is to know. */
  lemma NothingBehindWindow(e: Env, st: State, verb: Verb, stale: string, t: string)
    requires |stale| == STALE_CELLS
    ensures Perform(e, st, verb, BareArg(stale) + t) == Perform(e, st, verb, BareArg(stale))
  {
    BareArgEnds(stale);
    match verb
    case EHLO => GreetStops(st, stale, t, ExtendedHello);
    case HELO => GreetStops(st, stale, t, Hello);
    case MAIL => MailStops(st, BareArg(stale), t);
    case RCPT => RcptStops(e, st, BareArg(stale), t);
    case _ =>
  }

  // ----- When the buffer matters

  lemma CalledBare(e: Env, st: State, line: string, stale: string)
    requires |line| == 4
    ensures CommandLine(e, st, line, stale) ==
      match VerbOf(line) case None => Say(st, InvalidCommand) case Some(verb) => Perform(e, st, verb, BareArg(stale))
  {
  }

  lemma BareIsFixed(e: Env, st: State, verb: Verb, s: string, t: string)
    requires verb == MAIL ==> st.begun && !st.reverseSet
    requires verb == RCPT ==> !st.begun || |st.envelope.forwards| >= e.maxForwardPaths
    ensures Perform(e, st, verb, BareArg(s)) == Perform(e, st, verb, BareArg(t))
  {
    match verb
    case EHLO =>
      BareGreeting(st, s, ExtendedHello);
      BareGreeting(st, t, ExtendedHello);
    case HELO =>
      BareGreeting(st, s, Hello);
      BareGreeting(st, t, Hello);
    case MAIL =>
      BareMail(st, s);
      BareMail(st, t);
    case RCPT =>
      BareRcpt(e, st, s);
      BareRcpt(e, st, t);
    case _ =>
  }

  /** Buffer contents of which a bare MAIL or RCPT reads `text`, and nothing but zeros behind it. */
  function Leftover(skipped: nat, text: string): string {
    Zeros(skipped) + text + Zeros(if skipped + |text| < STALE_CELLS then STALE_CELLS - skipped - |text| else 0)
  }

  lemma LeftoverBehind(skipped: nat, n: nat, text: string) returns (rest: string)
    requires n == 1 + skipped
    ensures BareArg(Leftover(skipped, text))[n..] == text + rest
  {
    rest := BareArg(Leftover(skipped, text))[n + |text|..];
  }

  /** With a path where a bare MAIL looks, it is told that it is out of sequence, whatever surrounds the path. */
  lemma BareMailFindsPath(st: State, stale: string, path: string, stored: string, rest: string)
    requires (st.reverseSet || !st.begun) && IsReversePath(path, stored)
    requires |BareArg(stale)| >= 5 && BareArg(stale)[5..] == path + rest
    ensures Mail(st, BareArg(stale)) == Say(st, BadSequence)
  {
    ReversePathParses(path, stored, rest);
    BareMailHasNoArgument(stale, stored);
    MailArgumentExact(BareArg(stale), stored);
    MailRefuses(st, BareArg(stale));
  }

  /** Without one, it is told that it is malformed. */
  lemma BareMailFindsNothing(st: State, stale: string)
    requires |BareArg(stale)| > 5 && BareArg(stale)[5] != '<'
    ensures Mail(st, BareArg(stale)) == Say(st, InvalidParameters)
  {
    MailRefuses(st, BareArg(stale));
  }

  lemma SomePath()
    ensures IsPath("<a@b>", "a@b")
  {
    var p := PathForm([], DotString("a"), "b");
    assert IsAtext('a') && IsLabelChar('b');
    assert p.Valid() && p.Render() == "<a@b>" && p.Stored() == "a@b";
  }

  /** With a path where a bare RCPT looks, it adds it, whatever surrounds the path. */
  lemma BareRcptFindsPath(e: Env, st: State, stale: string, path: string, stored: string, rest: string)
    requires st.begun && |st.envelope.forwards| < e.maxForwardPaths && IsPath(path, stored)
    requires BareArg(stale)[3..] == path + rest
    ensures Rcpt(e, st, BareArg(stale)) == Recipient(st, stored)
  {
    PathParses(path, stored, rest);
    RcptCases(e, st, BareArg(stale), Path(BareArg(stale)[3..]));
  }

  /** Without one, it is told that it is malformed. */
  lemma BareRcptFindsNothing(e: Env, st: State, stale: string)
    requires st.begun && |st.envelope.forwards| < e.maxForwardPaths
    requires |BareArg(stale)| > 3 && BareArg(stale)[3] != '<'
    ensures Rcpt(e, st, BareArg(stale)) == Say(st, InvalidParameters)
  {
    RcptCases(e, st, BareArg(stale), Path(BareArg(stale)[3..]));
  }

  lemma NoLeftover(skipped: nat, n: nat, stale: string)
    requires n == 1 + skipped && skipped < STALE_CELLS && stale == Leftover(skipped, "")
    ensures |BareArg(stale)| > n && BareArg(stale)[n] == '\0'
  {
  }

  lemma MailMatters(st: State, s: string, t: string)
    requires st.reverseSet || !st.begun
    requires s == Leftover(4, "<>") && t == Leftover(4, "")
    ensures Mail(st, BareArg(s)) == Say(st, BadSequence) && Mail(st, BareArg(t)) == Say(st, InvalidParameters)
  {
    var rest := LeftoverBehind(4, 5, "<>");
    BareMailFindsPath(st, s, "<>", "", rest);
    NoLeftover(4, 5, t);
    BareMailFindsNothing(st, t);
  }

  lemma LeftoverRcpt(e: Env, st: State, path: string, stored: string, s: string)
    requires st.begun && |st.envelope.forwards| < e.maxForwardPaths && IsPath(path, stored) && s == Leftover(2, path)
    ensures Rcpt(e, st, BareArg(s)) == Recipient(st, stored)
  {
    var rest := LeftoverBehind(2, 3, path);
    BareRcptFindsPath(e, st, s, path, stored, rest);
  }

  lemma RcptMatters(e: Env, st: State, s: string, t: string)
    requires st.begun && |st.envelope.forwards| < e.maxForwardPaths
    requires s == Leftover(2, "<a@b>") && t == Leftover(2, "")
    ensures Rcpt(e, st, BareArg(s)) == Recipient(st, "a@b") && Rcpt(e, st, BareArg(t)) == Say(st, InvalidParameters)
  {
    SomePath();
    LeftoverRcpt(e, st, "<a@b>", "a@b", s);
    NoLeftover(2, 3, t);
    BareRcptFindsNothing(e, st, t);
  }

  lemma RepliesDiffer(replies: seq<Reply>, r: Reply, q: Reply)
    requires r != q
    ensures replies + [r] != replies + [q]
  {
    assert (replies + [r])[|replies|] == r && (replies + [q])[|replies|] == q;
  }

  /** A command line's outcome depends on what the buffer holds behind it exactly if it is such a bare MAIL or
      RCPT: then two contents of the buffer lead to different replies. */
  lemma BufferMatters(e: Env, st: State, line: string) returns (s: string, t: string)
    ensures !ReadsBuffer(e, st, line) ==>
      forall x: string, y: string :: CommandLine(e, st, line, x) == CommandLine(e, st, line, y)
    ensures ReadsBuffer(e, st, line) ==>
      |s| == |t| == STALE_CELLS && CommandLine(e, st, line, s).replies != CommandLine(e, st, line, t).replies
  {
    s, t := "", "";
    if ReadsBuffer(e, st, line) {
      if VerbOf(line) == Some(MAIL) {
        s, t := Leftover(4, "<>"), Leftover(4, "");
        MailMatters(st, s, t);
        RepliesDiffer(st.replies, InvalidParameters, BadSequence);
      } else {
        s, t := Leftover(2, "<a@b>"), Leftover(2, "");
        RcptMatters(e, st, s, t);
        RepliesDiffer(st.replies, InvalidParameters, Ok);
      }
      CalledBare(e, st, line, s);
      CalledBare(e, st, line, t);
    } else {
      forall x: string, y: string ensures CommandLine(e, st, line, x) == CommandLine(e, st, line, y) {
        OutcomeFixed(e, st, line, x, y);
      }
    }
  }

  lemma OutcomeFixed(e: Env, st: State, line: string, s: string, t: string)
    requires !ReadsBuffer(e, st, line)
    ensures CommandLine(e, st, line, s) == CommandLine(e, st, line, t)
  {
    if |line| == 4 {
      CalledBare(e, st, line, s);
      CalledBare(e, st, line, t);
      if VerbOf(line).Some? {
        BareIsFixed(e, st, VerbOf(line).value, s, t);
      }
    }
  }
}
