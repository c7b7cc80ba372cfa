/** The session as it meets its bytes, chunk by chunk, with the command buffer's cells; and when the cuts
    between the chunks can be seen. */
module Chunks {
  import opened Bytes
  import opened Framing
  import opened Disk
  import opened Machine
  import opened History
  import opened BareVerbs

  // ----- What a run takes from the buffer

  /** Whether reading `c` completes a command line, and which. */
  predicate TakesLine(st: State, c: char) {
    st.mode.Cmd? && EndsWith(st.cmd + [c], CRLF)
  }

  function LineOf(st: State, c: char): string
    requires TakesLine(st, c)
  {
    (st.cmd + [c])[..|st.cmd| - 1]
  }

  lemma StepOf(e: Env, b: Behind, st: State, c: char)
    ensures TakesLine(st, c) ==> Step(e, b, st, c) == CommandLine(e, st.(cmd := ""), LineOf(st, c), b(|st.replies|))
    ensures !TakesLine(st, c) ==> forall other: Behind :: Step(e, b, st, c) == Step(e, other, st, c)
  {
  }

  lemma CommandReplies(e: Env, st: State, line: string, stale: string)
    requires st.mode.Cmd?
    ensures |CommandLine(e, st, line, stale).replies| == |st.replies| + 1
    ensures st.replies <= CommandLine(e, st, line, stale).replies
  {
    var said := CommandIs(e, st, line, stale);
  }

  lemma DataReplies(e: Env, st: State, line: string)
    requires st.mode.Data?
    ensures st.replies <= DataLine(e, st, line).replies
  {
    var said := DataLineIs(e, st, line);
  }

  lemma StepReplies(e: Env, b: Behind, st: State, c: char)
    ensures st.replies <= Step(e, b, st, c).replies
    ensures TakesLine(st, c) ==> |Step(e, b, st, c).replies| == |st.replies| + 1
  {
    if TakesLine(st, c) {
      CommandReplies(e, st.(cmd := ""), LineOf(st, c), b(|st.replies|));
    } else if st.mode.Data? && EndsWith(st.line + [c], CRLF) {
      DataReplies(e, st.(line := ""), (st.line + [c])[..|st.line| - 1]);
    }
  }

  lemma {:induction false} RunReplies(e: Env, b: Behind, st: State, bytes: string)
    ensures st.replies <= Run(e, b, st, bytes).replies
    decreases bytes
  {
    if bytes != "" {
      StepReplies(e, b, st, bytes[0]);
      RunReplies(e, b, Step(e, b, st, bytes[0]), bytes[1..]);
    }
  }

  /** Two contents of the buffer that agree at all commands of a run. */
  predicate Agree(b: Behind, other: Behind, from: nat, to: nat) {
    forall n :: from <= n < to ==> b(n) == other(n)
  }

  /** A run looks at the buffer only where its own command lines end. */
  lemma {:induction false} SameRun(e: Env, b: Behind, other: Behind, st: State, bytes: string)
    requires Agree(b, other, |st.replies|, |Run(e, b, st, bytes).replies|)
    ensures Run(e, other, st, bytes) == Run(e, b, st, bytes)
    decreases bytes
  {
    if bytes != "" {
      var next := Step(e, b, st, bytes[0]);
      StepOf(e, b, st, bytes[0]);
      StepOf(e, other, st, bytes[0]);
      StepReplies(e, b, st, bytes[0]);
      RunReplies(e, b, next, bytes[1..]);
      SameRun(e, b, other, next, bytes[1..]);
    }
  }

  /** No command line of the run is a bare MAIL or RCPT that depends on the buffer. */
  predicate Clean(e: Env, b: Behind, st: State, bytes: string)
    decreases bytes
  {
    bytes == "" ||
      (!(TakesLine(st, bytes[0]) && ReadsBuffer(e, st, LineOf(st, bytes[0])))
       && Clean(e, b, Step(e, b, st, bytes[0]), bytes[1..]))
  }

  /** A clean run is the same whatever the buffer holds. */
  lemma {:induction false} CleanRun(e: Env, b: Behind, other: Behind, st: State, bytes: string)
    requires Clean(e, b, st, bytes)
    ensures Run(e, other, st, bytes) == Run(e, b, st, bytes)
    decreases bytes
  {
    if bytes != "" {
      CleanStep(e, b, other, st, bytes[0]);
      CleanRun(e, b, other, Step(e, b, st, bytes[0]), bytes[1..]);
    }
  }

  lemma CleanStep(e: Env, b: Behind, other: Behind, st: State, c: char)
    requires !(TakesLine(st, c) && ReadsBuffer(e, st, LineOf(st, c)))
    ensures Step(e, other, st, c) == Step(e, b, st, c)
  {
    StepOf(e, b, st, c);
    StepOf(e, other, st, c);
    if TakesLine(st, c) {
      OutcomeFixed(e, st.(cmd := ""), LineOf(st, c), b(|st.replies|), other(|st.replies|));
    }
  }

  /** What the oracle must be for a first command that finds `stale`, and later ones as in `b`. */
  function FirstFinds(b: Behind, n: nat, stale: string): Behind {
    (k: nat) => if k == n then stale else b(k)
  }

  lemma StaysDifferent(a: seq<Reply>, b: seq<Reply>, x: seq<Reply>, y: seq<Reply>)
    requires a <= x && b <= y && |a| == |b| && a != b
    ensures x != y
  {
    assert x[..|a|] == a && y[..|b|] == b;
  }

  /** The command line at which a run meets the buffer, answered in another way. */
  lemma UncleanStep(e: Env, b: Behind, st: State, c: char) returns (other: Behind)
    requires TakesLine(st, c) && ReadsBuffer(e, st, LineOf(st, c))
    ensures Step(e, other, st, c).replies != Step(e, b, st, c).replies
    ensures |Step(e, other, st, c).replies| == |Step(e, b, st, c).replies|
  {
    var n, line, quiet := |st.replies|, LineOf(st, c), st.(cmd := "");
    var x, y := BufferMatters(e, quiet, line);
    var found := if CommandLine(e, quiet, line, x).replies != CommandLine(e, quiet, line, b(n)).replies then x else y;
    other := FirstFinds(b, n, found);
    StepOf(e, b, st, c);
    StepOf(e, other, st, c);
    StepReplies(e, b, st, c);
    StepReplies(e, other, st, c);
  }

  /** A run that is not clean can be told from another one by its replies. */
  lemma {:induction false} UncleanRun(e: Env, b: Behind, st: State, bytes: string) returns (other: Behind)
    requires !Clean(e, b, st, bytes)
    ensures Run(e, other, st, bytes).replies != Run(e, b, st, bytes).replies
    decreases bytes
  {
    var c, more := bytes[0], bytes[1..];
    if TakesLine(st, c) && ReadsBuffer(e, st, LineOf(st, c)) {
      other := UncleanStep(e, b, st, c);
      RunReplies(e, b, Step(e, b, st, c), more);
      RunReplies(e, other, Step(e, other, st, c), more);
      StaysDifferent(Step(e, other, st, c).replies, Step(e, b, st, c).replies,
                     Run(e, other, Step(e, other, st, c), more).replies, Run(e, b, Step(e, b, st, c), more).replies);
    } else {
      other := UncleanRun(e, b, Step(e, b, st, c), more);
      CleanStep(e, b, other, st, c);
    }
  }

  /** A run does not depend on what the buffer holds if and only if it is clean. */
  lemma CleanIff(e: Env, b: Behind, st: State, bytes: string)
    ensures Clean(e, b, st, bytes) <==> forall other: Behind :: Run(e, other, st, bytes) == Run(e, b, st, bytes)
  {
    if Clean(e, b, st, bytes) {
      forall other: Behind ensures Run(e, other, st, bytes) == Run(e, b, st, bytes) {
        CleanRun(e, b, other, st, bytes);
      }
    } else {
      var other := UncleanRun(e, b, st, bytes);
    }
  }

  // ----- The buffer

  /** The machine's state and the cells of the command buffer in front of the window. */
  datatype Buffered = Buffered(st: State, cells: string)

  ghost predicate IsBuffered(s: Buffered) {
    |s.cells| == CMD_CAPACITY
  }

  function KeywordOf(verb: Option<Verb>): string {
    match verb
    case Some(MAIL) => "FROM:"
    case Some(RCPT) => "TO:"
    case _ => ""
  }

  /** The cells a handler may read as its argument: those of the line, or for a bare verb all up to the end of
      the buffer. */
  function ArgLength(line: string): nat
    requires |line| >= 4
  {
    if |line| == 4 then 1 + STALE_CELLS + 2 else |line| - 5
  }

  /** The verb in capitals and the NUL behind it. */
  function WithVerb(cells: string, line: string): (r: string)
    requires |line| >= 4
    ensures |r| == |cells|
  {
    PutAt(cells, 0, Upper(line[..4]) + "\0")
  }

  /** The keyword over an argument of `n` cells that is long enough for it. */
  function WithKeyword(cells: string, n: nat, verb: Option<Verb>): (r: string)
    ensures |r| == |cells|
  {
    if n >= |KeywordOf(verb)| then PutAt(cells, 5, KeywordOf(verb)) else cells
  }

  /** What a command line leaves in the buffer. */
  function AfterLine(cells: string, line: string): (r: string)
    ensures |r| == |cells|
  {
    if |line| < 4 || |line| > CMD_CAPACITY then cells
    else WithKeyword(WithVerb(cells, line), ArgLength(line), VerbOf(line))
  }

  /** Takes a line that stands in front of `cells`. Behind a bare verb and its line end stand the other cells. */
  function TakeCommand(e: Env, s: Buffered, line: string, cells: string): (r: Buffered)
    requires |cells| == CMD_CAPACITY
    ensures |r.cells| == CMD_CAPACITY
  {
    var ended := Ended(cells, |line|);
    Buffered(CommandLine(e, s.st.(cmd := ""), line, ended[6..]), AfterLine(ended, line))
  }

  /** A chunk: all of it that fits is copied behind an unfinished command line before the line is taken, and
      stays there for whoever reads it. */
  function Feed(e: Env, s: Buffered, src: string): (r: Buffered)
    requires |s.cells| == CMD_CAPACITY
    ensures |r.cells| == CMD_CAPACITY
    decreases |src|
  {
    if src == "" then s
    else
      match s.st.mode
      case Closed => s
      case Cmd =>
        (var cells := PutAt(s.cells, |s.st.cmd|, src);
         match ScanFrom(CRLF, s.st.cmd, src)
         case More(p) => Buffered(s.st.(cmd := p), cells)
         case Piece(line, rest) => Feed(e, TakeCommand(e, s, line, cells), rest))
      case Data =>
        match ScanFrom(CRLF, s.st.line, src)
        case More(p) => s.(st := s.st.(line := p))
        case Piece(line, rest) => Feed(e, s.(st := DataLine(e, s.st.(line := ""), line)), rest)
  }

  function FeedAll(e: Env, s: Buffered, chunks: seq<string>): (r: Buffered)
    requires |s.cells| == CMD_CAPACITY
    ensures |r.cells| == CMD_CAPACITY
    decreases chunks
  {
    if chunks == [] then s else FeedAll(e, Feed(e, s, chunks[0]), chunks[1..])
  }

  const START := Buffered(INITIAL, Zeros(CMD_CAPACITY))

  // ----- Every way of cutting is a run

  function Merge(b: Behind, later: Behind, n: nat): Behind {
    (k: nat) => if k < n then b(k) else later(k)
  }

  lemma TakenIsRun(e: Env, b: Behind, st: State, src: string, line: string, rest: string, stale: string, next: State)
    requires st.mode.Cmd? && ScanFrom(CRLF, st.cmd, src) == Piece(line, rest)
    requires next == CommandLine(e, st.(cmd := ""), line, stale)
    ensures Run(e, FirstFinds(b, |st.replies|, stale), st, src) == Run(e, b, next, rest)
  {
    var first := FirstFinds(b, |st.replies|, stale);
    RunCmd(e, first, st, src);
    CommandReplies(e, st.(cmd := ""), line, stale);
    SameRun(e, b, first, next, rest);
  }

  lemma {:induction false} FeedIsRun(e: Env, s: Buffered, src: string) returns (b: Behind)
    requires IsBuffered(s)
    ensures Run(e, b, s.st, src) == Feed(e, s, src).st
    decreases |src|
  {
    b := _ => "";
    if src != "" {
      match s.st.mode
      case Closed => RunClosed(e, b, s.st, src);
      case Cmd =>
        match ScanFrom(CRLF, s.st.cmd, src) {
        case More(p) => RunCmd(e, b, s.st, src);
        case Piece(line, rest) =>
          var cells := PutAt(s.cells, |s.st.cmd|, src);
          var next := TakeCommand(e, s, line, cells);
          b := FeedIsRun(e, next, rest);
          TakenIsRun(e, b, s.st, src, line, rest, Ended(cells, |line|)[6..], next.st);
          b := FirstFinds(b, |s.st.replies|, Ended(cells, |line|)[6..]);
        }
      case Data =>
        RunData(e, b, s.st, src);
        match ScanFrom(CRLF, s.st.line, src)
        case More(p) =>
        case Piece(line, rest) =>
          b := FeedIsRun(e, s.(st := DataLine(e, s.st.(line := ""), line)), rest);
          RunData(e, b, s.st, src);
    }
  }

  lemma MergedRun(e: Env, b: Behind, later: Behind, st: State, first: string, second: string)
    ensures var n := |Run(e, b, st, first).replies|;
      Run(e, Merge(b, later, n), st, first + second) == Run(e, later, Run(e, b, st, first), second)
  {
    var n := |Run(e, b, st, first).replies|;
    var merged := Merge(b, later, n);
    SameRun(e, b, merged, st, first);
    SameRun(e, later, merged, Run(e, b, st, first), second);
    RunAppend(e, merged, st, first, second);
  }

  /** However the bytes were cut, the session does what the machine does with all of them for some contents of
      the buffer; so whatever holds of every run of the machine holds of every session. */
  lemma {:induction false} FeedAllIsRun(e: Env, s: Buffered, chunks: seq<string>) returns (b: Behind)
    requires IsBuffered(s)
    ensures Run(e, b, s.st, Concat(chunks)) == FeedAll(e, s, chunks).st
    decreases chunks
  {
    if chunks == [] {
      b := _ => "";
    } else {
      b := FeedIsRun(e, s, chunks[0]);
      var later := FeedAllIsRun(e, Feed(e, s, chunks[0]), chunks[1..]);
      MergedRun(e, b, later, s.st, chunks[0], Concat(chunks[1..]));
      b := Merge(b, later, |Run(e, b, s.st, chunks[0]).replies|);
    }
  }

  /** Cuts cannot be seen in a clean run: the session ends as the machine does with the bytes one at a time,
      whatever its buffer holds and wherever the bytes were cut. */
  lemma CutsDoNotMatter(e: Env, b: Behind, s: Buffered, chunks: seq<string>)
    requires IsBuffered(s) && Clean(e, b, s.st, Concat(chunks))
    ensures FeedAll(e, s, chunks).st == Run(e, b, s.st, Concat(chunks))
  {
    var found := FeedAllIsRun(e, s, chunks);
    CleanRun(e, b, found, s.st, Concat(chunks));
  }

  /** A closed session takes no more chunks. */
  lemma {:induction false} FeedAllClosed(e: Env, s: Buffered, chunks: seq<string>)
    requires IsBuffered(s) && s.st.mode.Closed?
    ensures FeedAll(e, s, chunks) == s
    decreases chunks
  {
    if chunks != [] {
      FeedAllClosed(e, s, chunks[1..]);
    }
  }
}
