/** What a session has done, read off its transcript alone: the lines it was sent and its answers. */
module History {
  import opened Bytes
  import opened Framing
  import opened Parse
  import opened MailParameters
  import opened Disk
  import opened Metadata
  import opened Machine

  /** A command line, or the line that ended a message, what the buffer held behind it, and what was said. */
  datatype Entry = Entry(line: string, stale: string, ofData: bool, said: seq<Reply>)

  /** The entry that reading `c` completes, if any. Lines of message text get no answer and no entry. */
  function Heard(e: Env, b: Behind, st: State, c: char): seq<Entry> {
    var p := (if st.mode.Data? then st.line else st.cmd) + [c];
    if st.mode.Closed? || !EndsWith(p, CRLF) then [] else Completed(st, p[..|p| - 2], b(|st.replies|), Step(e, b, st, c))
  }

  function Completed(st: State, line: string, stale: string, next: State): seq<Entry> {
    if st.mode.Data? && next.mode.Data? then []
    else [Entry(line, stale, st.mode.Data?, if |st.replies| <= |next.replies| then next.replies[|st.replies|..] else [])]
  }

  function Transcript(e: Env, b: Behind, st: State, bytes: string): seq<Entry>
    decreases bytes
  {
    if bytes == "" then [] else Heard(e, b, st, bytes[0]) + Transcript(e, b, Step(e, b, st, bytes[0]), bytes[1..])
  }

  // ----- What an entry means, by its line and its answer

  datatype Effect = Nothing | Begins(name: string) | Mails(path: string) | Adds(path: string) | Forgets

  function NameIn(arg: string): Option<string> {
    Domain(arg)
  }

  function SenderIn(arg: string): Option<string> {
    match Accept(arg, "FROM:")
    case None => None
    case Some(text) => (match ReversePath(text) case None => None case Some(path) => Some(path.stored))
  }

  function RecipientIn(arg: string): Option<string> {
    match Accept(arg, "TO:")
    case None => None
    case Some(text) => (match Path(text) case None => None case Some(path) => Some(path.stored))
  }

  function EffectOf(entry: Entry): Effect {
    if entry.ofData then Forgets
    else match VerbOf(entry.line)
      case None => Nothing
      case Some(verb) => EffectOfVerb(verb, ArgOf(entry.line, entry.stale), entry.said)
  }

  function EffectOfVerb(verb: Verb, arg: string, said: seq<Reply>): Effect {
    match verb
    case EHLO => if said == [ExtendedHello] && NameIn(arg).Some? then Begins(NameIn(arg).value) else Nothing
    case HELO => if said == [Hello] && NameIn(arg).Some? then Begins(NameIn(arg).value) else Nothing
    case MAIL => if said == [Ok] && SenderIn(arg).Some? then Mails(SenderIn(arg).value) else Nothing
    case RCPT => if said == [Ok] && RecipientIn(arg).Some? then Adds(RecipientIn(arg).value) else Nothing
    case RSET => if said == [Ok] then Forgets else Nothing
    case _ => Nothing
  }

  function Effects(t: seq<Entry>): seq<Effect> {
    seq(|t|, i requires 0 <= i < |t| => EffectOf(t[i]))
  }

  // ----- What the effects come to

  /** The path of the last MAIL accepted since the last greeting, reset or message. */
  function Sender(effects: seq<Effect>): Option<string> {
    if effects == [] then None
    else match effects[|effects| - 1]
      case Mails(path) => Some(path)
      case Begins(_) => None
      case Forgets => None
      case _ => Sender(effects[..|effects| - 1])
  }

  /** The paths of the RCPTs accepted since the last MAIL, greeting, reset or message, in order. */
  function Recipients(effects: seq<Effect>): seq<string> {
    if effects == [] then []
    else match effects[|effects| - 1]
      case Mails(_) => []
      case Begins(_) => []
      case Forgets => []
      case Adds(path) => Recipients(effects[..|effects| - 1]) + [path]
      case Nothing => Recipients(effects[..|effects| - 1])
  }

  /** The name of the last greeting, unless there has been a reset or a message since. */
  function Name(effects: seq<Effect>): string {
    if effects == [] then ""
    else match effects[|effects| - 1]
      case Begins(name) => name
      case Forgets => ""
      case _ => Name(effects[..|effects| - 1])
  }

  function EnvelopeOf(effects: seq<Effect>): Envelope {
    Envelope(ZeroBlocks(), Name(effects), (match Sender(effects) case Some(path) => path case None => ""),
             Recipients(effects))
  }

  /** The envelopes at the ends of data that were answered with success. */
  function KeptEnvelopes(t: seq<Entry>): seq<Envelope> {
    if t == [] then []
    else
      var before, last := t[..|t| - 1], t[|t| - 1];
      KeptEnvelopes(before) + (if last.ofData && last.said == [Ok] then [EnvelopeOf(Effects(before))] else [])
  }

  function Said(t: seq<Entry>): seq<Reply> {
    if t == [] then [] else Said(t[..|t| - 1]) + t[|t| - 1].said
  }

  function Envelopes(commits: seq<Commit>): seq<Envelope> {
    seq(|commits|, i requires 0 <= i < |commits| => commits[i].envelope)
  }

  /** Every message had a sender and recipients when its end was read. */
  predicate HadSenders(t: seq<Entry>) {
    t == [] ||
      var before, last := t[..|t| - 1], t[|t| - 1];
      HadSenders(before) && (last.ofData ==> HasSender(Effects(before)))
  }

  predicate HasSender(effects: seq<Effect>) {
    Sender(effects).Some? && Recipients(effects) != []
  }

  ghost predicate HasBegun(effects: seq<Effect>) {
    exists k :: 0 <= k < |effects| && effects[k].Begins?
  }

  /** The session knows what its transcript says, no more and no less. */
  ghost predicate Agrees(st: State, t: seq<Entry>) {
    && AgreesWith(st, Effects(t))
    && Envelopes(st.commits) == KeptEnvelopes(t)
    && st.replies == Said(t)
    && HadSenders(t)
  }

  ghost predicate AgreesWith(st: State, effects: seq<Effect>) {
    && st.envelope == EnvelopeOf(effects)
    && (st.reverseSet <==> Sender(effects).Some?)
    && (st.begun <==> HasBegun(effects))
    && (st.mode.Data? ==> HasSender(effects))
  }

  ghost function Told(t: seq<Entry>): iset<State> {
    iset st: State | Agrees(st, t)
  }

  // ----- One line

  function Changed(m: Envelope, effect: Effect): Envelope {
    match effect
    case Nothing => m
    case Begins(name) => NO_ENVELOPE.(from := name)
    case Mails(path) => m.(reverse := path, forwards := [])
    case Adds(path) => m.(forwards := m.forwards + [path])
    case Forgets => NO_ENVELOPE
  }

  function StillSet(reverseSet: bool, effect: Effect): bool {
    match effect
    case Mails(_) => true
    case Begins(_) => false
    case Forgets => false
    case _ => reverseSet
  }

  /** Where a command may lead that is answered with `said` and has this effect. */
  ghost function After(st: State, said: seq<Reply>, effect: Effect): iset<State> {
    iset next: State |
      && next.replies == st.replies + said && next.commits == st.commits
      && next.envelope == Changed(st.envelope, effect)
      && next.reverseSet == StillSet(st.reverseSet, effect)
      && (next.begun <==> st.begun || effect.Begins?) && next.dataError == st.dataError
      && (next.mode.Closed? ==> said == [Goodbye])
      && (next.mode.Data? ==> next.reverseSet && next.envelope.forwards != [])
  }

  lemma SayIs(st: State, r: Reply)
    requires st.mode.Cmd?
    ensures Say(st, r) in After(st, [r], Nothing)
  {
  }

  lemma GreetIs(st: State, verb: Verb, arg: string, r: Reply) returns (said: Reply)
    requires st.mode.Cmd?
    requires (verb == EHLO && r == ExtendedHello) || (verb == HELO && r == Hello)
    ensures Greet(st, arg, r) in After(st, [said], EffectOfVerb(verb, arg, [said])) && said != Goodbye
  {
    if Domain(arg).Some? {
      return r;
    }
    SayIs(st, InvalidParameters);
    return InvalidParameters;
  }

  lemma MailFromIs(st: State, path: string, paramsOk: bool) returns (said: Reply)
    requires st.mode.Cmd?
    ensures MailFrom(st, path, paramsOk) in After(st, [said], if said == Ok then Mails(path) else Nothing)
    ensures said != Goodbye
  {
    said := if st.reverseSet || !st.begun then BadSequence else if !paramsOk then InvalidParameters else Ok;
  }

  lemma MailIs(st: State, arg: string) returns (said: Reply)
    requires st.mode.Cmd?
    ensures Mail(st, arg) in After(st, [said], EffectOfVerb(MAIL, arg, [said])) && said != Goodbye
  {
    SayIs(st, InvalidParameters);
    said := InvalidParameters;
    match Accept(arg, "FROM:")
    case None =>
    case Some(text) =>
      match ReversePath(text)
      case None =>
      case Some(path) => said := MailFromIs(st, path.stored, MailParams(path.rest));
  }

  lemma RcptToIs(st: State, path: string)
    requires st.mode.Cmd?
    ensures RcptTo(st, path) in After(st, [Ok], Adds(path))
  {
  }

  lemma RcptIs(e: Env, st: State, arg: string) returns (said: Reply)
    requires st.mode.Cmd?
    ensures Rcpt(e, st, arg) in After(st, [said], EffectOfVerb(RCPT, arg, [said])) && said != Goodbye
  {
    said := InvalidParameters;
    SayIs(st, InvalidParameters);
    SayIs(st, BadSequence);
    SayIs(st, TooManyRecipients);
    match Accept(arg, "TO:")
    case None =>
    case Some(text) =>
      if !st.begun {
        said := BadSequence;
      } else if |st.envelope.forwards| >= e.maxForwardPaths {
        said := TooManyRecipients;
      } else if Path(text).Some? {
        RcptToIs(st, Path(text).value.stored);
        said := Ok;
      }
  }

  lemma StartIs(e: Env, st: State) returns (said: Reply)
    requires st.mode.Cmd?
    ensures StartMessage(e, st) in After(st, [said], Nothing) && said != Goodbye
  {
    said := if !st.reverseSet || st.envelope.forwards == [] then BadSequence
            else if OpenFile(e, st.disk).1 then StartData else LocalError;
  }

  lemma PerformIs(e: Env, st: State, verb: Verb, arg: string) returns (said: Reply)
    requires st.mode.Cmd?
    ensures Perform(e, st, verb, arg) in After(st, [said], EffectOfVerb(verb, arg, [said]))
    ensures said == Goodbye ==> verb == QUIT
  {
    match verb
    case EHLO => said := GreetIs(st, EHLO, arg, ExtendedHello);
    case HELO => said := GreetIs(st, HELO, arg, Hello);
    case MAIL => said := MailIs(st, arg);
    case RCPT => said := RcptIs(e, st, arg);
    case DATA => said := StartIs(e, st);
    case RSET => said := Ok;
    case VRFY => said := NotImplemented;
    case NOOP => said := Ok;
    case QUIT => said := Goodbye;
  }

  lemma CommandIs(e: Env, st: State, line: string, stale: string) returns (said: Reply)
    requires st.mode.Cmd?
    ensures CommandLine(e, st, line, stale) in After(st, [said], EffectOf(Entry(line, stale, false, [said])))
    ensures said == Goodbye ==> VerbOf(line) == Some(QUIT) && |line| <= CMD_CAPACITY
  {
    if |line| > CMD_CAPACITY {
      SayIs(st, LineTooLong);
      said := LineTooLong;
    } else {
      match VerbOf(line)
      case None =>
        SayIs(st, InvalidCommand);
        said := InvalidCommand;
      case Some(verb) => said := PerformIs(e, st, verb, ArgOf(line, stale));
    }
  }

  /** Where the end of a message may lead that is answered with `said`. */
  ghost function AfterEnd(st: State, said: seq<Reply>): iset<State> {
    iset next: State |
      && next.mode.Cmd? && next.replies == st.replies + said
      && Envelopes(next.commits) == Envelopes(st.commits) + (if said == [Ok] then [st.envelope] else [])
      && next.envelope == NO_ENVELOPE && !next.reverseSet && (next.begun <==> st.begun)
  }

  lemma EndMessageIs(st: State, ops: nat, error: bool, said: seq<Reply>, kept: seq<Commit>)
    requires |kept| == if said == [Ok] then 1 else 0
    requires forall k :: 0 <= k < |kept| ==> kept[k].envelope == st.envelope
    ensures EndMessage(st, ops, error, said, kept) in AfterEnd(st, said)
  {
    var next := EndMessage(st, ops, error, said, kept);
    assert Envelopes(next.commits) == Envelopes(st.commits) + Envelopes(kept);
    assert Envelopes(kept) == if said == [Ok] then [st.envelope] else [];
  }

  /** The end of a message with which nothing is wrong, when the size of its file cannot be asked for. */
  predicate IsSilentLine(e: Env, st: State, line: string) {
    && |line| <= LINE_CAPACITY && IsEnd(line)
    && !st.lineTooLong && !st.dataTooLong && !st.dataError && !e.ok(st.disk.ops)
  }

  lemma AbortIs(e: Env, st: State) returns (said: Reply)
    requires st.lineTooLong || st.dataTooLong
    ensures AbortData(st) in AfterEnd(st, [said])
  {
    said := Refusal(st, st.dataError)[0];
    EndMessageIs(st, st.disk.ops, st.dataError, [said], []);
  }

  lemma FinishedIs(e: Env, st: State, w: Work) returns (said: seq<Reply>)
    requires (st.dataError ==> w.error) && !st.lineTooLong && !st.dataTooLong
    ensures Finished(e, st, w) in AfterEnd(st, said)
    ensures |said| == if !st.dataError && !e.ok(st.disk.ops) then 0 else 1
  {
    if !e.ok(st.disk.ops) {
      said := Refusal(st, st.dataError);
      EndMessageIs(st, st.disk.ops + 1, st.dataError, said, []);
    } else if w.error {
      said := Refusal(st, true);
      EndMessageIs(st, w.disk.ops, true, said, []);
    } else {
      said := [Ok];
      EndMessageIs(st, w.disk.ops, st.dataError, said, [Commit(st.envelope, w.disk.bytes)]);
    }
  }

  /** Within a message nothing is said, kept or changed in the transaction. */
  ghost function Same(st: State): iset<State> {
    iset next: State |
      && next.mode == st.mode && next.replies == st.replies && next.commits == st.commits
      && next.envelope == st.envelope && next.reverseSet == st.reverseSet && next.begun == st.begun
  }

  lemma StoreIs(e: Env, st: State, line: string)
    ensures StoreLine(e, st, line) in Same(st)
  {
  }

  lemma FinishIs(e: Env, st: State) returns (said: seq<Reply>)
    requires !st.lineTooLong && !st.dataTooLong
    ensures FinishData(e, st) in AfterEnd(st, said)
    ensures |said| == if !st.dataError && !e.ok(st.disk.ops) then 0 else 1
  {
    said := FinishedIs(e, st, FinishWork(e, st));
  }

  lemma EndIs(e: Env, st: State) returns (said: seq<Reply>)
    ensures EndData(e, st) in AfterEnd(st, said)
    ensures |said| == if !st.lineTooLong && !st.dataTooLong && !st.dataError && !e.ok(st.disk.ops) then 0 else 1
  {
    if !st.lineTooLong && !st.dataTooLong {
      said := FinishIs(e, st);
    } else {
      var refused := AbortIs(e, st);
      said := [refused];
    }
  }

  lemma EndLeaves(st: State, said: seq<Reply>, next: State)
    requires next in AfterEnd(st, said)
    ensures !next.mode.Data?
  {
  }

  lemma TextIs(e: Env, st: State, line: string)
    requires |line| > LINE_CAPACITY || !IsEnd(line)
    ensures DataLine(e, st, line) in Same(st)
  {
    if |line| <= LINE_CAPACITY {
      StoreIs(e, st, line);
    }
  }

  /** A line of text changes nothing in the transaction; the end of a message closes it, with one answer, or
      with none exactly if it is silent. */
  lemma DataLineIs(e: Env, st: State, line: string) returns (said: seq<Reply>)
    requires st.mode.Data?
    ensures if DataLine(e, st, line).mode.Data? then DataLine(e, st, line) in Same(st) && !IsSilentLine(e, st, line)
            else DataLine(e, st, line) in AfterEnd(st, said) && |said| == if IsSilentLine(e, st, line) then 0 else 1
  {
    if |line| > LINE_CAPACITY || !IsEnd(line) {
      TextIs(e, st, line);
      said := [];
    } else {
      said := EndIs(e, st);
      EndLeaves(st, said, EndData(e, st));
    }
  }

  // ----- The transcript grows with the session

  lemma Grow(t: seq<Entry>, entry: Entry)
    ensures (t + [entry])[..|t|] == t && (t + [entry])[|t|] == entry
    ensures Effects(t + [entry]) == Effects(t) + [EffectOf(entry)]
  {
  }

  lemma EffectGrows(effects: seq<Effect>, effect: Effect)
    ensures EnvelopeOf(effects + [effect]) == Changed(EnvelopeOf(effects), effect)
    ensures Sender(effects + [effect]).Some? == StillSet(Sender(effects).Some?, effect)
    ensures HasBegun(effects + [effect]) <==> HasBegun(effects) || effect.Begins?
  {
    var all := effects + [effect];
    assert all[..|effects|] == effects && all[|effects|] == effect;
    assert forall k :: 0 <= k < |effects| ==> all[k] == effects[k];
  }

  lemma AgreesAfter(st: State, next: State, t: seq<Entry>, entry: Entry)
    requires st in Told(t) && !entry.ofData && next in After(st, entry.said, EffectOf(entry))
    ensures next in Told(t + [entry])
  {
    Grow(t, entry);
    EffectGrows(Effects(t), EffectOf(entry));
  }

  lemma AgreesAfterEnd(st: State, next: State, t: seq<Entry>, entry: Entry)
    requires st in Told(t) && entry.ofData && st.mode.Data? && next in AfterEnd(st, entry.said)
    ensures next in Told(t + [entry])
  {
    Grow(t, entry);
    EffectGrows(Effects(t), Forgets);
  }

  lemma AgreesSame(st: State, next: State, t: seq<Entry>)
    requires st in Told(t) && next in Same(st)
    ensures next in Told(t)
  {
  }

  lemma CompletedIs(st: State, line: string, stale: string, next: State, said: seq<Reply>)
    requires next.replies == st.replies + said && !(st.mode.Data? && next.mode.Data?)
    ensures Completed(st, line, stale, next) == [Entry(line, stale, st.mode.Data?, said)]
  {
  }

  lemma CommandHeard(e: Env, st: State, t: seq<Entry>, line: string, stale: string)
    requires st in Told(t) && st.mode.Cmd?
    ensures var next := CommandLine(e, st.(cmd := ""), line, stale);
      next in Told(t + Completed(st, line, stale, next))
  {
    var quiet := st.(cmd := "");
    AgreesSame(st, quiet, t);
    var said := CommandIs(e, quiet, line, stale);
    AgreesAfter(quiet, CommandLine(e, quiet, line, stale), t, Entry(line, stale, false, [said]));
    CompletedIs(st, line, stale, CommandLine(e, quiet, line, stale), [said]);
  }

  lemma DataLineHeard(e: Env, st: State, t: seq<Entry>, line: string, stale: string)
    requires st in Told(t) && st.mode.Data?
    ensures var next := DataLine(e, st.(line := ""), line);
      next in Told(t + Completed(st, line, stale, next))
  {
    var quiet := st.(line := "");
    AgreesSame(st, quiet, t);
    var said := DataLineIs(e, quiet, line);
    var next := DataLine(e, quiet, line);
    if next.mode.Data? {
      AgreesSame(quiet, next, t);
      assert t + [] == t;
    } else {
      AgreesAfterEnd(quiet, next, t, Entry(line, stale, true, said));
      CompletedIs(st, line, stale, next, said);
    }
  }

  lemma LineGrows(e: Env, b: Behind, st: State, t: seq<Entry>, c: char)
    requires st in Told(t) && !st.mode.Closed?
    requires !EndsWith((if st.mode.Data? then st.line else st.cmd) + [c], CRLF)
    ensures Step(e, b, st, c) in Told(t + Heard(e, b, st, c)) && Heard(e, b, st, c) == []
  {
    AgreesSame(st, if st.mode.Data? then st.(line := st.line + [c]) else st.(cmd := st.cmd + [c]), t);
    assert t + [] == t;
  }

  lemma CommandStepIs(e: Env, b: Behind, st: State, c: char, line: string)
    requires st.mode.Cmd? && EndsWith(st.cmd + [c], CRLF) && line == (st.cmd + [c])[..|st.cmd| - 1]
    ensures var next := CommandLine(e, st.(cmd := ""), line, b(|st.replies|));
      Step(e, b, st, c) == next && Heard(e, b, st, c) == Completed(st, line, b(|st.replies|), next)
  {
  }

  lemma CommandEnds(e: Env, b: Behind, st: State, t: seq<Entry>, c: char)
    requires st in Told(t) && st.mode.Cmd? && EndsWith(st.cmd + [c], CRLF)
    ensures Step(e, b, st, c) in Told(t + Heard(e, b, st, c))
  {
    var line := (st.cmd + [c])[..|st.cmd| - 1];
    CommandStepIs(e, b, st, c, line);
    CommandHeard(e, st, t, line, b(|st.replies|));
  }

  lemma DataLineEnds(e: Env, b: Behind, st: State, t: seq<Entry>, c: char)
    requires st in Told(t) && st.mode.Data? && EndsWith(st.line + [c], CRLF)
    ensures Step(e, b, st, c) in Told(t + Heard(e, b, st, c))
  {
    DataLineHeard(e, st, t, (st.line + [c])[..|st.line| - 1], b(|st.replies|));
  }

  lemma StepAgrees(e: Env, b: Behind, st: State, t: seq<Entry>, c: char)
    requires st in Told(t)
    ensures Step(e, b, st, c) in Told(t + Heard(e, b, st, c))
  {
    match st.mode
    case Closed => assert t + [] == t;
    case Cmd => if EndsWith(st.cmd + [c], CRLF) { CommandEnds(e, b, st, t, c); } else { LineGrows(e, b, st, t, c); }
    case Data => if EndsWith(st.line + [c], CRLF) { DataLineEnds(e, b, st, t, c); } else { LineGrows(e, b, st, t, c); }
  }

  lemma {:induction false} RunAgrees(e: Env, b: Behind, st: State, t: seq<Entry>, bytes: string)
    requires st in Told(t)
    ensures Run(e, b, st, bytes) in Told(t + Transcript(e, b, st, bytes))
    decreases bytes
  {
    if bytes == "" {
      assert t + [] == t;
    } else {
      var heard, next, more := Heard(e, b, st, bytes[0]), Step(e, b, st, bytes[0]), bytes[1..];
      StepAgrees(e, b, st, t, bytes[0]);
      RunAgrees(e, b, next, t + heard, more);
      Join(t, heard, Transcript(e, b, next, more));
    }
  }

  lemma Join(a: seq<Entry>, b: seq<Entry>, c: seq<Entry>)
    ensures a + b + c == a + (b + c)
  {
  }

  /** Over every run: the envelope, the greeting and every kept message are those the transcript tells,
      and the replies are its answers in order. */
  lemma History(e: Env, b: Behind, bytes: string)
    ensures Agrees(Run(e, b, INITIAL, bytes), Transcript(e, b, INITIAL, bytes))
  {
    assert Envelopes([]) == [];
    RunAgrees(e, b, INITIAL, [], bytes);
    assert [] + Transcript(e, b, INITIAL, bytes) == Transcript(e, b, INITIAL, bytes);
  }

  // ----- Conservation of replies

  predicate IsSilent(e: Env, st: State, c: char) {
    st.mode.Data? && EndsWith(st.line + [c], CRLF) && IsSilentLine(e, st, (st.line + [c])[..|st.line| - 1])
  }

  /** The silent ends of messages in a run. */
  function Silences(e: Env, b: Behind, st: State, bytes: string): nat
    decreases bytes
  {
    if bytes == "" then 0
    else (if IsSilent(e, st, bytes[0]) then 1 else 0) + Silences(e, b, Step(e, b, st, bytes[0]), bytes[1..])
  }

  lemma CommandConserves(e: Env, st: State, line: string, stale: string)
    requires st.mode.Cmd?
    ensures var next := CommandLine(e, st.(cmd := ""), line, stale);
      && |next.replies| == |st.replies| + 1
      && |Completed(st, line, stale, next)| == 1 && |Completed(st, line, stale, next)[0].said| == 1
  {
    var said := CommandIs(e, st.(cmd := ""), line, stale);
    CompletedIs(st, line, stale, CommandLine(e, st.(cmd := ""), line, stale), [said]);
  }

  lemma DataConserves(e: Env, st: State, line: string, stale: string)
    requires st.mode.Data?
    ensures var next := DataLine(e, st.(line := ""), line);
      var heard := Completed(st, line, stale, next);
      && |next.replies| + (if IsSilentLine(e, st, line) then 1 else 0) == |st.replies| + |heard|
      && |heard| <= 1 && (heard != [] ==> (heard[0].said == [] <==> IsSilentLine(e, st, line)))
      && (IsSilentLine(e, st, line) ==> heard != [])
  {
    var quiet := st.(line := "");
    var said := DataLineIs(e, quiet, line);
    var next := DataLine(e, quiet, line);
    if !next.mode.Data? {
      CompletedIs(st, line, stale, next, said);
    }
  }

  lemma NothingEnds(e: Env, b: Behind, st: State, c: char)
    requires st.mode.Closed? || !EndsWith((if st.mode.Data? then st.line else st.cmd) + [c], CRLF)
    ensures Step(e, b, st, c).replies == st.replies && Heard(e, b, st, c) == [] && !IsSilent(e, st, c)
  {
  }

  lemma CommandStepConserves(e: Env, b: Behind, st: State, c: char)
    requires st.mode.Cmd? && EndsWith(st.cmd + [c], CRLF)
    ensures |Step(e, b, st, c).replies| == |st.replies| + 1
    ensures |Heard(e, b, st, c)| == 1 && |Heard(e, b, st, c)[0].said| == 1
  {
    var line := (st.cmd + [c])[..|st.cmd| - 1];
    CommandStepIs(e, b, st, c, line);
    CommandConserves(e, st, line, b(|st.replies|));
  }

  lemma DataStepIs(e: Env, b: Behind, st: State, c: char, line: string)
    requires st.mode.Data? && EndsWith(st.line + [c], CRLF) && line == (st.line + [c])[..|st.line| - 1]
    ensures Step(e, b, st, c) == DataLine(e, st.(line := ""), line)
    ensures Heard(e, b, st, c) == Completed(st, line, b(|st.replies|), DataLine(e, st.(line := ""), line))
    ensures IsSilent(e, st, c) == IsSilentLine(e, st, line)
  {
  }

  lemma DataStepConserves(e: Env, b: Behind, st: State, c: char)
    requires st.mode.Data? && EndsWith(st.line + [c], CRLF)
    ensures |Step(e, b, st, c).replies| + (if IsSilent(e, st, c) then 1 else 0) == |st.replies| + |Heard(e, b, st, c)|
    ensures |Heard(e, b, st, c)| <= 1 && (IsSilent(e, st, c) ==> Heard(e, b, st, c) != [])
    ensures Heard(e, b, st, c) != [] ==> (Heard(e, b, st, c)[0].said == [] <==> IsSilent(e, st, c))
  {
    var line := (st.line + [c])[..|st.line| - 1];
    DataStepIs(e, b, st, c, line);
    DataConserves(e, st, line, b(|st.replies|));
  }

  /** Every entry has one answer, but for a silent end, which has none: an entry is unanswered if and only if
      its step is silent. */
  lemma StepConserves(e: Env, b: Behind, st: State, c: char)
    ensures |Step(e, b, st, c).replies| + (if IsSilent(e, st, c) then 1 else 0) == |st.replies| + |Heard(e, b, st, c)|
    ensures |Heard(e, b, st, c)| <= 1 && (IsSilent(e, st, c) ==> Heard(e, b, st, c) != [])
    ensures Heard(e, b, st, c) != [] ==> (Heard(e, b, st, c)[0].said == [] <==> IsSilent(e, st, c))
  {
    if st.mode.Closed? || !EndsWith((if st.mode.Data? then st.line else st.cmd) + [c], CRLF) {
      NothingEnds(e, b, st, c);
    } else if st.mode.Cmd? {
      CommandStepConserves(e, b, st, c);
    } else {
      DataStepConserves(e, b, st, c);
    }
  }

  /** Over every run, from every state: as many replies as lines that ask for one, less the silent ends. */
  lemma {:induction false} RepliesConserved(e: Env, b: Behind, st: State, bytes: string)
    ensures |Run(e, b, st, bytes).replies| + Silences(e, b, st, bytes) == |st.replies| + |Transcript(e, b, st, bytes)|
    decreases bytes
  {
    if bytes != "" {
      StepConserves(e, b, st, bytes[0]);
      RepliesConserved(e, b, Step(e, b, st, bytes[0]), bytes[1..]);
    }
  }

  // ----- A kept message and its history

  /** Nothing that starts or ends a transaction. */
  ghost predicate Quiet(effects: seq<Effect>) {
    forall k :: 0 <= k < |effects| ==> effects[k].Nothing? || effects[k].Adds?
  }

  /** The paths of all RCPTs accepted. */
  function Added(effects: seq<Effect>): seq<string> {
    if effects == [] then []
    else Added(effects[..|effects| - 1]) + (match effects[|effects| - 1] case Adds(path) => [path] case _ => [])
  }

  lemma LastOf(effects: seq<Effect>, m: nat)
    requires m < |effects|
    ensures var s := effects[m..]; s[..|s| - 1] == effects[..|effects| - 1][m..] && s[|s| - 1] == effects[|effects| - 1]
  {
  }

  /** Sender and recipients, without recursion: there is a last MAIL, nothing ends its transaction, and the
      recipients are exactly those accepted after it. */
  lemma {:induction false} SenderIs(effects: seq<Effect>) returns (m: nat)
    requires Sender(effects).Some?
    ensures m < |effects| && effects[m] == Mails(Sender(effects).value)
    ensures Quiet(effects[m + 1..]) && Recipients(effects) == Added(effects[m + 1..])
  {
    var n := |effects| - 1;
    if effects[n].Mails? {
      m := n;
    } else {
      m := SenderIs(effects[..n]);
      LastOf(effects, m + 1);
    }
  }

  /** The last greeting, if no reset or message lies behind it. */
  ghost predicate GreetsAt(effects: seq<Effect>, j: int) {
    && 0 <= j < |effects| && effects[j].Begins?
    && forall i :: j < i < |effects| ==> !effects[i].Begins? && !effects[i].Forgets?
  }

  /** The name is that of such a greeting, and empty exactly as there is none (or its name is empty). */
  ghost predicate IsNameIn(effects: seq<Effect>, name: string) {
    && (forall j :: GreetsAt(effects, j) ==> name == effects[j].name)
    && ((forall j :: !GreetsAt(effects, j)) ==> name == "")
  }

  lemma {:induction false} NameIs(effects: seq<Effect>)
    ensures IsNameIn(effects, Name(effects))
  {
    if effects != [] {
      var n := |effects| - 1;
      NameIs(effects[..n]);
      forall j | GreetsAt(effects, j) ensures Name(effects) == effects[j].name {
        assert j < n ==> GreetsAt(effects[..n], j);
      }
      if forall j :: !GreetsAt(effects, j) {
        assert !GreetsAt(effects, n);
        if !effects[n].Forgets? {
          forall j ensures !GreetsAt(effects[..n], j) {
            assert !GreetsAt(effects, j);
          }
        }
      }
    }
  }

  /** The end of the message that is kept as the `k`th one. */
  lemma {:induction false} KeptAt(t: seq<Entry>, k: nat) returns (n: nat)
    requires k < |KeptEnvelopes(t)| && HadSenders(t)
    ensures n < |t| && t[n].ofData && t[n].said == [Ok] && |KeptEnvelopes(t[..n])| == k
    ensures KeptEnvelopes(t)[k] == EnvelopeOf(Effects(t)[..n]) && HasSender(Effects(t)[..n])
  {
    n := |t| - 1;
    assert Effects(t)[..n] == Effects(t[..n]);
    if k < |KeptEnvelopes(t[..n])| {
      var last := n;
      n := KeptAt(t[..last], k);
      assert t[..last][..n] == t[..n];
      assert Effects(t)[..n] == Effects(t[..last])[..n];
    }
  }

  /** Over every run: the `k`th message kept ended at the line `n` that was answered with success as the `k`th
      one; it carries the path of the MAIL at `m`, the last one accepted before `n` with no greeting, reset or
      other message in between, the paths of exactly the RCPTs accepted since, in order, at least one, and the
      name of the last greeting, but only if no reset or message lies between it and `n`. */
  lemma KeptHistory(e: Env, b: Behind, bytes: string, k: nat) returns (m: nat, n: nat)
    requires k < |Run(e, b, INITIAL, bytes).commits|
    ensures var t, envelope := Transcript(e, b, INITIAL, bytes), Run(e, b, INITIAL, bytes).commits[k].envelope;
      var effects := Effects(t);
      && m < n < |t| && t[n].ofData && t[n].said == [Ok] && |KeptEnvelopes(t[..n])| == k
      && effects[m] == Mails(envelope.reverse) && Quiet(effects[m + 1..n])
      && envelope.forwards == Added(effects[m + 1..n]) && envelope.forwards != []
      && IsNameIn(effects[..n], envelope.from)
  {
    History(e, b, bytes);
    var t, st := Transcript(e, b, INITIAL, bytes), Run(e, b, INITIAL, bytes);
    assert Envelopes(st.commits)[k] == st.commits[k].envelope;
    n := KeptAt(t, k);
    m := SenderIs(Effects(t)[..n]);
    NameIs(Effects(t)[..n]);
    assert Effects(t)[..n][m + 1..] == Effects(t)[m + 1..n];
  }
}
