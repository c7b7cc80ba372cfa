/** Which commands are accepted, in terms of the grammar and of the session. */
module Commands {
  import opened Bytes
  import opened Parse
  import opened PathGrammar
  import opened MailParameters
  import opened Disk
  import opened Metadata
  import opened Machine
  import opened SessionInvariant

  /** A path in angle brackets and what is stored of it: local part and domain, without the route. */
  ghost predicate IsPath(text: string, stored: string) {
    exists p: PathForm :: p.Valid() && text == p.Render() && stored == p.Stored()
  }

  ghost predicate IsReversePath(text: string, stored: string) {
    (text == "<>" && stored == "") || IsPath(text, stored)
  }

  ghost predicate AreBodyParams(ps: seq<string>) {
    forall i :: 0 <= i < |ps| ==> IsBodyParam(ps[i])
  }

  /** Five bytes that are not looked at, a path, and parameters. */
  ghost predicate IsMailArgument(arg: string, stored: string) {
    |arg| >= 5 && exists path: string, ps: seq<string> ::
      IsReversePath(path, stored) && AreBodyParams(ps) && arg[5..] == path + Concat(ps)
  }

  /** Three bytes that are not looked at, a path, and anything at all. */
  ghost predicate IsRcptArgument(arg: string, stored: string) {
    |arg| >= 3 && exists path: string, rest: string :: IsPath(path, stored) && arg[3..] == path + rest
  }

  lemma PathParses(path: string, stored: string, rest: string)
    requires IsPath(path, stored)
    ensures Path(path + rest).Some?
    ensures Path(path + rest).value.stored == stored && Path(path + rest).value.rest == rest
  {
    var p: PathForm :| p.Valid() && path == p.Render() && stored == p.Stored();
    PathComplete(p, rest);
  }

  lemma ReversePathParses(path: string, stored: string, rest: string)
    requires IsReversePath(path, stored)
    ensures ReversePath(path + rest).Some?
    ensures ReversePath(path + rest).value.stored == stored && ReversePath(path + rest).value.rest == rest
  {
    if path == "<>" && stored == "" {
      Parts("<>", rest);
    } else {
      var p: PathForm :| p.Valid() && path == p.Render() && stored == p.Stored();
      PathComplete(p, rest);
    }
  }

  lemma ReversePathParsed(text: string) returns (path: string)
    requires ReversePath(text).Some?
    ensures IsReversePath(path, ReversePath(text).value.stored) && text == path + ReversePath(text).value.rest
  {
    var p := ReversePathSound(text);
    path := if p.Valid() && text == p.Render() + ReversePath(text).value.rest
               && ReversePath(text).value == p.Parsed(ReversePath(text).value.rest)
            then p.Render() else "<>";
  }

  lemma ReversePathIsPrintable(path: string, stored: string)
    requires IsReversePath(path, stored)
    ensures path != "" && AllPrintable(path)
  {
    if path != "<>" {
      var p: PathForm :| p.Valid() && path == p.Render() && stored == p.Stored();
      RenderIsPrintable(p);
    }
  }

  /** The argument's reading is the only one: there is one path, followed by parameters. */
  lemma MailArgumentExact(arg: string, stored: string)
    ensures IsMailArgument(arg, stored) <==>
      && |arg| >= 5 && ReversePath(arg[5..]).Some?
      && ReversePath(arg[5..]).value.stored == stored && MailParams(ReversePath(arg[5..]).value.rest)
  {
    if |arg| >= 5 {
      if ReversePath(arg[5..]).Some? && MailParams(ReversePath(arg[5..]).value.rest) {
        var path := ReversePathParsed(arg[5..]);
        var ps := MailParamsSound(ReversePath(arg[5..]).value.rest);
      }
      forall path: string, ps: seq<string> |
        IsReversePath(path, stored) && AreBodyParams(ps) && arg[5..] == path + Concat(ps)
        ensures ReversePath(arg[5..]).Some? && ReversePath(arg[5..]).value.stored == stored
             && MailParams(ReversePath(arg[5..]).value.rest)
      {
        ReversePathParses(path, stored, Concat(ps));
        MailParamsComplete(ps);
      }
    }
  }

  lemma RcptArgumentExact(arg: string, stored: string)
    ensures IsRcptArgument(arg, stored) <==>
      |arg| >= 3 && Path(arg[3..]).Some? && Path(arg[3..]).value.stored == stored
  {
    if |arg| >= 3 {
      if Path(arg[3..]).Some? {
        var p := PathSound(arg[3..]);
        assert IsPath(p.Render(), p.Stored());
      }
      forall path: string, rest: string | IsPath(path, stored) && arg[3..] == path + rest
        ensures Path(arg[3..]).Some? && Path(arg[3..]).value.stored == stored
      {
        PathParses(path, stored, rest);
      }
    }
  }

  // ----- Acceptance

  /** A MAIL that is accepted has exactly this effect; any other leaves all but the replies as it was. */
  ghost function Mailed(st: State, stored: string): State {
    st.(envelope := st.envelope.(reverse := stored, forwards := []), reverseSet := true, replies := st.replies + [Ok])
  }

  ghost function Recipient(st: State, stored: string): State {
    st.(envelope := st.envelope.(forwards := st.envelope.forwards + [stored]), replies := st.replies + [Ok])
  }

  ghost predicate Refused(st: State, next: State) {
    exists r: Reply :: r != Ok && next == Say(st, r)
  }

  lemma SayRefuses(st: State, r: Reply)
    requires r != Ok
    ensures Refused(st, Say(st, r))
  {
  }

  lemma MailFromExact(st: State, path: string, paramsOk: bool)
    ensures if st.begun && !st.reverseSet && paramsOk then MailFrom(st, path, paramsOk) == Mailed(st, path)
            else Refused(st, MailFrom(st, path, paramsOk))
  {
    SayRefuses(st, InvalidParameters);
    SayRefuses(st, BadSequence);
  }

  /** MAIL by what its argument parses to. */
  lemma MailParsed(st: State, arg: string)
    ensures if |arg| < 5 || ReversePath(arg[5..]).None? then Refused(st, Mail(st, arg))
            else var path := ReversePath(arg[5..]).value;
                 if st.begun && !st.reverseSet && MailParams(path.rest) then Mail(st, arg) == Mailed(st, path.stored)
                 else Refused(st, Mail(st, arg))
  {
    SayRefuses(st, InvalidParameters);
    if |arg| >= 5 && ReversePath(arg[5..]).Some? {
      var path := ReversePath(arg[5..]).value;
      MailFromExact(st, path.stored, MailParams(path.rest));
    }
  }

  /** MAIL is accepted if and only if there has been a greeting, no transaction is open, and the argument
      is a reverse path followed by body parameters; the path is then the sender. */
  lemma MailExact(st: State, arg: string, stored: string)
    ensures st.begun && !st.reverseSet && IsMailArgument(arg, stored) ==> Mail(st, arg) == Mailed(st, stored)
    ensures !st.begun || st.reverseSet || (forall any :: !IsMailArgument(arg, any)) ==> Refused(st, Mail(st, arg))
  {
    MailParsed(st, arg);
    MailArgumentExact(arg, stored);
    if |arg| >= 5 && ReversePath(arg[5..]).Some? {
      MailArgumentExact(arg, ReversePath(arg[5..]).value.stored);
    }
  }

  /** RCPT by what its argument parses to. */
  lemma RcptCases(e: Env, st: State, arg: string, path: Option<MailboxResult>)
    requires |arg| >= 3 && path == Path(arg[3..])
    ensures Rcpt(e, st, arg) ==
      if !st.begun then Say(st, BadSequence)
      else if |st.envelope.forwards| >= e.maxForwardPaths then Say(st, TooManyRecipients)
      else match path case None => Say(st, InvalidParameters) case Some(p) => Recipient(st, p.stored)
  {
  }

  lemma RcptParsed(e: Env, st: State, arg: string)
    ensures if |arg| < 3 || !st.begun || |st.envelope.forwards| >= e.maxForwardPaths || Path(arg[3..]).None?
            then Refused(st, Rcpt(e, st, arg))
            else Rcpt(e, st, arg) == Recipient(st, Path(arg[3..]).value.stored)
  {
    SayRefuses(st, InvalidParameters);
    SayRefuses(st, BadSequence);
    SayRefuses(st, TooManyRecipients);
    if |arg| >= 3 {
      RcptCases(e, st, arg, Path(arg[3..]));
    }
  }

  /** RCPT is accepted if and only if there has been a greeting, there is room, and a path follows the
      first three bytes; what stands behind the path is not looked at. */
  lemma RcptExact(e: Env, st: State, arg: string, stored: string)
    ensures st.begun && |st.envelope.forwards| < e.maxForwardPaths && IsRcptArgument(arg, stored) ==>
      Rcpt(e, st, arg) == Recipient(st, stored)
    ensures !st.begun || |st.envelope.forwards| >= e.maxForwardPaths || (forall any :: !IsRcptArgument(arg, any)) ==>
      Refused(st, Rcpt(e, st, arg))
  {
    RcptParsed(e, st, arg);
    RcptArgumentExact(arg, stored);
    if |arg| >= 3 && Path(arg[3..]).Some? {
      RcptArgumentExact(arg, Path(arg[3..]).value.stored);
    }
  }

  /** The name in a greeting: a domain name that ends before some other character, or the whole argument,
      whose last label may be missing. */
  ghost predicate IsNameArgument(arg: string, name: string) {
    && name <= arg && |name| <= DOMAIN_MAX && (forall i :: 0 <= i < |name| ==> IsDomainChar(name[i]))
    && if |name| < |arg| then IsDomainName(name) && !IsDomainChar(arg[|name|]) else DottedOpen(name)
  }

  lemma NameArgumentExact(arg: string, name: string)
    ensures IsNameArgument(arg, name) <==> Domain(arg) == Some(name)
  {
    if Domain(arg) == Some(name) {
      DomainSound(arg);
    }
    if IsNameArgument(arg, name) {
      assert forall i :: 0 <= i < |name| ==> arg[i] == name[i];
      assert arg[..|name|] == name;
      SpanIs(arg, IsDomainChar, |name|);
    }
  }

  /** A greeting is accepted if and only if its argument starts with a name; it then forgets any
      transaction. What stands behind the name is not looked at. */
  lemma GreetExact(st: State, arg: string, name: string, r: Reply)
    ensures IsNameArgument(arg, name) ==>
      Greet(st, arg, r) == st.(mode := Cmd, envelope := Envelope(ZeroBlocks(), name, "", []), reverseSet := false,
                               begun := true, replies := st.replies + [r])
    ensures (forall any :: !IsNameArgument(arg, any)) ==> Refused(st, Greet(st, arg, r))
  {
    NameArgumentExact(arg, name);
    SayRefuses(st, InvalidParameters);
    if Domain(arg).Some? {
      NameArgumentExact(arg, Domain(arg).value);
    }
  }

  /** DATA starts a message if and only if there are a sender and a recipient and the file can be opened;
      otherwise nothing but the file and the replies changes. */
  lemma DataExact(e: Env, st: State)
    requires st.mode.Cmd?
    ensures StartMessage(e, st).mode.Data? <==>
      st.reverseSet && st.envelope.forwards != [] && AllOk(e, st.disk.ops, OpenOps(e, st.disk.ops))
    ensures !StartMessage(e, st).mode.Data? ==>
      Refused(st.(disk := StartMessage(e, st).disk), StartMessage(e, st))
  {
    OpenFileOutcome(e, st.disk);
    SayRefuses(st.(disk := StartMessage(e, st).disk), LocalError);
    SayRefuses(st, BadSequence);
  }

  // ----- Letter case

  lemma SameUpper(a: string, b: string)
    requires EqualsIgnoringCase(a, b)
    ensures Upper(a) == Upper(b)
  {
    forall i | 0 <= i < |a| ensures Upper(a)[i] == Upper(b)[i] {
      assert ToLower(a[i]) == ToLower(b[i]);
    }
  }

  /** The letter case of the verb and the byte behind it do not matter. */
  lemma VerbInAnyCase(e: Env, st: State, a: string, b: string, stale: string)
    requires |a| == |b| >= 4 && EqualsIgnoringCase(a[..4], b[..4]) && (|a| >= 5 ==> a[5..] == b[5..])
    ensures CommandLine(e, st, a, stale) == CommandLine(e, st, b, stale)
  {
    SameUpper(a[..4], b[..4]);
  }
}
