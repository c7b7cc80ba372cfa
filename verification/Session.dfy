/** The session as it runs: two framers, the transaction fields and a file, updated in place. */
module Session {
  import opened Bytes
  import opened Framing
  import opened Framer
  import opened Parse
  import opened ParseLoops
  import opened MailParameters
  import opened Disk
  import opened Metadata
  import MetadataWriter
  import Tar
  import TarWriter
  import Archive
  import FileLayout
  import M = Machine
  import C = Chunks

  lemma FinishUnsized(e: Env, st: M.State)
    requires !e.ok(st.disk.ops)
    ensures M.FinishData(e, st) == M.EndMessage(st, st.disk.ops + 1, st.dataError, M.Refusal(st, st.dataError), [])
  {
  }

  lemma FinishIs(e: Env, st: M.State, w: M.Work, next: M.Work)
    requires w == M.Work(st.disk.(ops := st.disk.ops + 1), st.dataError) && next == M.Assemble(e, w, st.envelope)
    ensures M.FinishData(e, st) == M.Finished(e, st, next)
  {
  }

  /** A framer for lines, over a buffer of zeros. */
  method NewFramer(n: nat) returns (f: Framer)
    requires n >= 2
    ensures f.Valid() && fresh(f) && fresh(f.buffer) && f.buffer.Length == n
    ensures f.terminator == CRLF && f.pending == "" && f.buffer[..n - 2] == Zeros(n - 2)
  {
    var buffer := new char[n](_ => '\0');
    CrlfIsBorderFree();
    ZerosAreNeutral();
    assert buffer[n - 2..] == Zeros(2) && buffer[..n - 2] == Zeros(n - 2);
    f := new Framer(buffer, CRLF);
  }

  lemma LineCases(e: Env, st: M.State, text: string)
    requires |text| <= M.LINE_CAPACITY && st.mode.Data?
    ensures M.IsEnd(text) ==> M.DataLine(e, st, text) == M.EndData(e, st)
    ensures !M.IsEnd(text) ==> M.DataLine(e, st, text) == M.StoreLine(e, st, text) && M.StoreLine(e, st, text).mode.Data?
  {
  }

  class Session {
    const env: Env
    const cmd: Framer
    const line: Framer
    const file: File
    var mode: M.Mode
    var envelope: Envelope
    var reverseSet: bool
    var begun: bool
    var dataSize: nat
    var dataTooLong: bool
    var lineTooLong: bool
    var dataError: bool
    var replies: seq<M.Reply>
    var commits: seq<M.Commit>

    /** The machine's state that the fields stand for. */
    ghost function Abs(): M.State
      reads this, cmd, line, file
    {
      M.State(mode, cmd.pending, line.pending, envelope, reverseSet, begun, dataSize, dataTooLong, lineTooLong,
              dataError, file.State(), replies, commits)
    }

    ghost predicate Wired() {
      && cmd != line && cmd.buffer != line.buffer
      && cmd.buffer.Length == 512 && line.buffer.Length == 1024
      && cmd.terminator == CRLF && line.terminator == CRLF
      && file.env == env
    }

    ghost predicate Valid()
      reads cmd, cmd.buffer, line, line.buffer
    {
      Wired() && cmd.Valid() && line.Valid()
    }

    constructor (env: Env)
      ensures Valid() && this.env == env && Buffered() == C.START
      ensures fresh(cmd) && fresh(cmd.buffer) && fresh(line) && fresh(line.buffer) && fresh(file)
    {
      var first := NewFramer(512);
      var second := NewFramer(1024);
      this.env, cmd, line := env, first, second;
      file := new File(env);
      mode, envelope, reverseSet, begun := M.Cmd, M.NO_ENVELOPE, false, false;
      dataSize, dataTooLong, lineTooLong, dataError := 0, false, false, false;
      replies, commits := [], [];
    }

    method Reply(r: M.Reply)
      modifies `replies
      ensures Abs() == M.Say(old(Abs()), r)
    {
      replies := replies + [r];
    }

    method Reset()
      modifies `mode, `envelope, `reverseSet
      ensures Abs() == M.Reset(old(Abs()))
    {
      mode, envelope, reverseSet := M.Cmd, M.NO_ENVELOPE, false;
    }

    /** The cells of the command buffer in front of the window. */
    ghost function Cells(): string
      requires cmd.buffer.Length == 512
      reads cmd.buffer
    {
      cmd.buffer[..510]
    }

    ghost function Buffered(): C.Buffered
      requires cmd.buffer.Length == 512
      reads this, cmd, cmd.buffer, line, file
    {
      C.Buffered(Abs(), Cells())
    }

    // ----- Commands

    /** The argument of a command: the cells of the command buffer from `lo` to `hi`. */
    ghost function Arg(lo: nat, hi: nat): string
      requires lo <= hi <= cmd.buffer.Length
      reads cmd.buffer
    {
      cmd.buffer[lo..hi]
    }

    method Greet(hi: nat, r: M.Reply)
      requires Wired() && 5 <= hi <= 512
      modifies this
      ensures Abs() == M.Greet(old(Abs()), Arg(5, hi), r)
    {
      var buffer := new char[DOMAIN_MAX + 1];
      var domain := ScanDomain(cmd.buffer[5..hi], buffer);
      if domain.None? {
        Reply(M.InvalidParameters);
        return;
      }
      Greeted(domain.value, r);
    }

    method Greeted(domain: string, r: M.Reply)
      modifies this
      ensures Abs() == M.Greeted(old(Abs()), domain, r)
    {
      Reset();
      envelope, begun := envelope.(from := domain), true;
      Reply(r);
    }

    /** Writes `keyword` over the beginning of the argument before comparing, so that only the length of
        the argument decides. */
    method Accept(hi: nat, keyword: string) returns (ok: bool, at: nat)
      requires Valid() && cmd.pending == "" && 5 <= hi <= 512 && |keyword| <= 5 && Upper(keyword) == keyword
      modifies cmd.buffer
      ensures Valid()
      ensures ok == M.Accept(old(Arg(5, hi)), keyword).Some?
      ensures ok ==> 5 <= at <= hi && M.Accept(old(Arg(5, hi)), keyword) == Some(Arg(at, hi))
      ensures Cells() == if hi - 5 >= |keyword| then PutAt(old(Cells()), 5, keyword) else old(Cells())
    {
      if hi - 5 < |keyword| {
        return false, 5;
      }
      for i := 0 to |keyword|
        invariant Valid()
        invariant forall k :: 0 <= k < i ==> cmd.buffer[5 + k] == ToUpper(keyword[k])
        invariant forall k :: 0 <= k < 5 ==> cmd.buffer[k] == old(cmd.buffer[k])
        invariant forall k :: 5 + i <= k < 512 ==> cmd.buffer[k] == old(cmd.buffer[k])
      {
        cmd.Set(5 + i, ToUpper(keyword[i]));
      }
      at := 5 + |keyword|;
      KeywordPut(old(cmd.buffer[..]), cmd.buffer[..], keyword, hi);
      ok := cmd.buffer[5..at] == keyword;
    }

    lemma KeywordPut(was: string, now: string, keyword: string, hi: nat)
      requires |was| == |now| == 512 && 5 + |keyword| <= hi <= 512 && |keyword| <= 5 && Upper(keyword) == keyword
      requires forall k :: 0 <= k < 5 ==> now[k] == was[k]
      requires forall k :: 5 + |keyword| <= k < 512 ==> now[k] == was[k]
      requires forall k :: 0 <= k < |keyword| ==> now[5 + k] == ToUpper(keyword[k])
      ensures now[..510] == PutAt(was[..510], 5, keyword)
      ensures now[5..5 + |keyword|] == keyword && now[5 + |keyword|..hi] == was[5..hi][|keyword|..]
    {
      assert forall k :: 0 <= k < |keyword| ==> Upper(keyword)[k] == ToUpper(keyword[k]);
      assert now[5..5 + |keyword|] == keyword;
      assert was[5..hi][|keyword|..] == was[5 + |keyword|..hi];
    }

    method Mail(hi: nat)
      requires Valid() && cmd.pending == "" && 5 <= hi <= 512
      modifies this, cmd.buffer
      ensures Valid() && Abs() == M.Mail(old(Abs()), old(Arg(5, hi)))
      ensures Cells() == C.WithKeyword(old(Cells()), hi - 5, Some(M.MAIL))
    {
      var ok, at := Accept(hi, "FROM:");
      if !ok {
        Reply(M.InvalidParameters);
        return;
      }
      var reverse := ScanReversePath(cmd.buffer[at..hi]);
      if reverse.None? {
        Reply(M.InvalidParameters);
        return;
      }
      MailFrom(reverse.value.stored, reverse.value.rest);
    }

    method MailFrom(path: string, rest: string)
      modifies this
      ensures Abs() == M.MailFrom(old(Abs()), path, MailParams(rest))
    {
      if reverseSet || !begun {
        Reply(M.BadSequence);
        return;
      }
      var known := AreKnownParams(rest);
      if !known {
        Reply(M.InvalidParameters);
        return;
      }
      envelope, reverseSet := envelope.(reverse := path, forwards := []), true;
      Reply(M.Ok);
    }

    method AreKnownParams(rest: string) returns (known: bool)
      ensures known == MailParams(rest)
    {
      var left := rest;
      while |left| > 0
        invariant MailParams(left) == MailParams(rest)
        decreases |left|
      {
        if left[0] != ' ' {
          return false;
        }
        var param := ScanParam(left[1..]);
        if param.None? {
          return false;
        }
        known := IsKnownParam(param.value);
        if !known {
          return false;
        }
        left := param.value.rest;
      }
      return true;
    }

    method IsKnownParam(p: Param) returns (known: bool)
      ensures known == MailParam(p)
    {
      known := CompareInsensitive(p.key, "BODY");
      return known && (p.value == "7BIT" || p.value == "8BITMIME");
    }

    method Rcpt(hi: nat)
      requires Valid() && cmd.pending == "" && 5 <= hi <= 512
      modifies this, cmd.buffer
      ensures Valid() && Abs() == M.Rcpt(env, old(Abs()), old(Arg(5, hi)))
      ensures Cells() == C.WithKeyword(old(Cells()), hi - 5, Some(M.RCPT))
    {
      var ok, at := Accept(hi, "TO:");
      if !ok {
        Reply(M.InvalidParameters);
        return;
      }
      if !begun {
        Reply(M.BadSequence);
        return;
      }
      if |envelope.forwards| >= env.maxForwardPaths {
        Reply(M.TooManyRecipients);
        return;
      }
      var path := ScanPath(cmd.buffer[at..hi]);
      if path.None? {
        Reply(M.InvalidParameters);
        return;
      }
      envelope := envelope.(forwards := envelope.forwards + [path.value.stored]);
      Reply(M.Ok);
    }

    method StartMessage()
      requires Wired()
      modifies this, file
      ensures Abs() == M.StartMessage(env, old(Abs()))
    {
      if !reverseSet || envelope.forwards == [] {
        Reply(M.BadSequence);
        return;
      }
      var ok := OpenFile();
      if !ok {
        Reply(M.LocalError);
        return;
      }
      mode, dataSize, dataTooLong, lineTooLong := M.Data, 0, false, false;
      Reply(M.StartData);
    }

    /** A fresh file, room for a header, and the trace. */
    method OpenFile() returns (ok: bool)
      requires Wired()
      modifies file
      ensures (file.State(), ok) == M.OpenFile(env, old(file.State()))
    {
      var pieces := [Zeros(Tar.BLOCK)] + env.trace(file.ops);
      ok := file.Try();
      if !ok {
        return;
      }
      file.Clear();
      ok := MetadataWriter.PutHead(file, pieces, pieces);
      assert pieces[|pieces|..] == [];
    }

    method Rset()
      modifies this
      ensures Abs() == M.Say(M.Reset(old(Abs())), M.Ok)
    {
      Reset();
      Reply(M.Ok);
    }

    method Quit()
      modifies this
      ensures Abs() == M.Say(old(Abs()), M.Goodbye).(mode := M.Closed)
    {
      Reply(M.Goodbye);
      mode := M.Closed;
    }

    /** The handler of `verb`, with the argument in the cells from 5 to `hi`. */
    method Perform(verb: M.Verb, hi: nat)
      requires Valid() && cmd.pending == "" && 5 <= hi <= 512
      modifies this, cmd.buffer, file
      ensures Valid() && Abs() == M.Perform(env, old(Abs()), verb, old(Arg(5, hi)))
      ensures Cells() == C.WithKeyword(old(Cells()), hi - 5, Some(verb))
    {
      NothingPut(Cells());
      match verb
      case EHLO => Greet(hi, M.ExtendedHello);
      case HELO => Greet(hi, M.Hello);
      case MAIL => Mail(hi);
      case RCPT => Rcpt(hi);
      case DATA => StartMessage();
      case RSET => Rset();
      case VRFY => Reply(M.NotImplemented);
      case NOOP => Reply(M.Ok);
      case QUIT => Quit();
    }

    lemma NothingPut(cells: string)
      ensures PutAt(cells, 5, "") == cells
    {
    }

    /** The verb is put in upper case and ended with a NUL in place. */
    method PutVerbInUpperCase()
      requires Valid() && cmd.pending == ""
      modifies cmd.buffer
      ensures Valid() && Cells() == PutAt(old(Cells()), 0, old(Upper(cmd.buffer[..4])) + "\0")
      ensures cmd.buffer[5..] == old(cmd.buffer[5..])
    {
      for i := 0 to 4
        invariant Valid()
        invariant forall k :: 0 <= k < i ==> cmd.buffer[k] == old(ToUpper(cmd.buffer[k]))
        invariant forall k :: i <= k < 512 ==> cmd.buffer[k] == old(cmd.buffer[k])
      {
        cmd.Set(i, ToUpper(cmd.buffer[i]));
      }
      cmd.Set(4, '\0');
      VerbPut(old(cmd.buffer[..]), cmd.buffer[..]);
    }

    lemma VerbPut(was: string, now: string)
      requires |was| == |now| == 512 && now[4] == '\0' && forall k :: 5 <= k < 512 ==> now[k] == was[k]
      requires forall k :: 0 <= k < 4 ==> now[k] == ToUpper(was[k])
      ensures now[..510] == PutAt(was[..510], 0, Upper(was[..4]) + "\0")
    {
    }

    /** A bare verb: its line end's last byte and what else stands between it and the window. */
    ghost predicate IsFramed(len: nat)
      requires cmd.buffer.Length == 512
      reads cmd.buffer
    {
      len == 4 ==> cmd.buffer[5] == '\n' && cmd.buffer[510..] == CRLF
    }

    /** The verb of a line and where its argument ends. A line that is only a verb has no end in front of its
        beginning, so its argument runs to the end of the buffer. */
    method ReadVerb(len: nat) returns (verb: Option<M.Verb>, hi: nat)
      requires Valid() && cmd.pending == "" && 4 <= len <= M.CMD_CAPACITY && IsFramed(len)
      modifies cmd.buffer
      ensures Valid() && verb == M.VerbOf(old(Arg(0, len)))
      ensures 5 <= hi <= 512 && hi - 5 == C.ArgLength(old(Arg(0, len)))
      ensures Arg(5, hi) == M.ArgOf(old(Arg(0, len)), old(Cells()[6..]))
      ensures Cells() == C.WithVerb(old(Cells()), old(Arg(0, len)))
    {
      ghost var text, was := Arg(0, len), cmd.buffer[..];
      assert text[..4] == cmd.buffer[..4];
      PutVerbInUpperCase();
      assert cmd.buffer[..4] == Cells()[..4] == Upper(text[..4]);
      verb := M.Lookup(cmd.buffer[..4]);
      hi := if len < 5 then 512 else len;
      ArgRead(was, cmd.buffer[..], len, hi);
    }

    lemma ArgRead(was: string, now: string, len: nat, hi: nat)
      requires |was| == |now| == 512 && now[5..] == was[5..] && 4 <= len <= 510
      requires hi == if len < 5 then 512 else len
      requires len == 4 ==> was[5] == '\n' && was[510..] == CRLF
      ensures now[5..hi] == M.ArgOf(was[0..len], was[..510][6..])
    {
      SliceBehind(now, was, 5, 5, hi);
      if len == 4 {
        BareCells(was);
      }
    }

    lemma BareCells(was: string)
      requires |was| == 512 && was[5] == '\n' && was[510..] == CRLF
      ensures was[5..512] == "\n" + was[..510][6..] + CRLF
    {
    }

    method CallCommand(len: nat)
      requires Valid() && cmd.pending == "" && len <= M.CMD_CAPACITY && IsFramed(len)
      modifies this, cmd.buffer, file
      ensures Valid() && Abs() == M.CallCommand(env, old(Abs()), old(Arg(0, len)), old(Cells()[6..]))
      ensures Cells() == C.AfterLine(old(Cells()), old(Arg(0, len)))
    {
      if len < 4 {
        Reply(M.InvalidCommand);
        return;
      }
      var verb, hi := ReadVerb(len);
      NothingPut(Cells());
      if verb.None? {
        Reply(M.InvalidCommand);
        return;
      }
      Perform(verb.value, hi);
    }

    // ----- End of data

    ghost function Pending(): M.Work
      reads this, file
    {
      M.Work(file.State(), dataError)
    }

    /** Does nothing once something has failed. */
    method CheckedPut(s: string)
      requires Wired()
      modifies `dataError, file
      ensures Pending() == M.Checked(env, old(Pending()), [s])
    {
      FileLayout.OneWrite(env, file.State(), s);
      if !dataError {
        var ok := file.Put(s);
        dataError := !ok;
      }
    }

    method CheckedMetadata()
      requires Wired()
      modifies `dataError, file
      ensures Pending() == M.Checked(env, old(Pending()), Pieces(envelope))
    {
      if !dataError {
        var ok := MetadataWriter.WriteTo(file, envelope);
        dataError := !ok;
      }
    }

    method PadData()
      requires Wired()
      modifies `dataError, file
      ensures Pending() == M.Pad(env, old(Pending()))
    {
      file.SeekToEnd();
      CheckedPut(Archive.Padding(file.pos));
    }

    method WriteHeader(at: nat, name: string, size: int)
      requires Wired()
      modifies `dataError, file
      ensures Pending() == M.FillBlock(env, old(Pending()), at, Tar.Header(name, size, env.clock(old(file.ops))))
    {
      file.Seek(at);
      var header := TarWriter.Filled(name, size, env.clock(file.ops));
      CheckedPut(header[..]);
    }

    method FinishMessage()
      requires Wired()
      modifies `dataError, file
      ensures Pending() == M.FinishMessage(env, old(Pending()))
    {
      WriteHeader(0, Archive.MESSAGE_NAME, file.pos - Tar.BLOCK);
      PadData();
    }

    /** Room for a header, then the metadata; returns where the metadata starts. */
    method Reserve() returns (start: nat)
      requires Wired()
      modifies `dataError, file
      ensures M.Reserved(Pending(), start) == M.Reserve(env, old(Pending()), envelope)
    {
      CheckedPut(Zeros(Tar.BLOCK));
      start := file.pos;
      CheckedMetadata();
    }

    /** Back to the reserved header, and then to the end again. */
    method FillReserved(at: nat, start: nat)
      requires Wired()
      modifies `dataError, file
      ensures Pending() == M.FillReserved(env, at, M.Reserved(old(Pending()), start))
    {
      WriteHeader(at, Archive.METADATA_NAME, file.pos - start);
      PadData();
    }

    method AppendMetadata()
      requires Wired()
      modifies `dataError, file
      ensures Pending() == M.AppendMetadata(env, old(Pending()), envelope)
    {
      var at := file.pos;
      var start := Reserve();
      FillReserved(at, start);
    }

    /** Stops after the first stage in which something has failed. */
    method Assemble()
      requires Wired()
      modifies `dataError, file
      ensures Pending() == M.Assemble(env, old(Pending()), envelope)
    {
      FinishMessage();
      if dataError {
        return;
      }
      AppendMetadata();
      if dataError {
        return;
      }
      var synced := file.Try();
      dataError := !synced;
    }

    method AbortData()
      requires Wired()
      modifies this, file
      ensures Abs() == M.EndMessage(old(Abs()), old(file.ops), old(dataError), M.Refusal(old(Abs()), old(dataError)), [])
    {
      file.Clear();
      Reset();
      if dataTooLong {
        Reply(M.ExceededStorage);
      } else if lineTooLong {
        Reply(M.LineTooLong);
      } else if dataError {
        Reply(M.LocalError);
      }
    }

    method KeepFile()
      requires Wired()
      modifies this, file
      ensures Abs() == M.EndMessage(old(Abs()), old(file.ops), old(dataError), [M.Ok],
                                    [M.Commit(old(envelope), old(file.bytes))])
    {
      commits := commits + [M.Commit(envelope, file.bytes)];
      file.Clear();
      Reset();
      Reply(M.Ok);
    }

    /** Keeps or gives up the file, once all has been tried. */
    method Conclude(ghost st: M.State)
      requires Wired() && env.ok(st.disk.ops)
      requires Abs() == st.(disk := file.State(), dataError := dataError) && (st.dataError ==> dataError)
      modifies this, file
      ensures Abs() == M.Finished(env, st, old(Pending()))
    {
      if dataError {
        AbortData();
      } else {
        KeepFile();
      }
    }

    /** The rest of finishing, when the size of the file is known. */
    method FinishSized(ghost st: M.State)
      requires Wired() && env.ok(st.disk.ops) && Abs() == st.(disk := st.disk.(ops := st.disk.ops + 1))
      modifies this, file
      ensures Abs() == M.FinishData(env, st)
    {
      ghost var w := Pending();
      Assemble();
      FinishIs(env, st, w, Pending());
      Conclude(st);
    }

    method FinishData()
      requires Wired()
      modifies this, file
      ensures Abs() == M.FinishData(env, old(Abs()))
    {
      var sized := file.Try();
      if sized {
        FinishSized(old(Abs()));
      } else {
        FinishUnsized(env, old(Abs()));
        AbortData();
      }
    }

    // ----- Message text

    /** Counts a line and writes it without its stuffed dot. The line end goes into the buffer behind the
        line, where a line short enough to be written always leaves room in front of the window. */
    method StoreLine(len: nat)
      requires Valid() && line.pending == "" && len <= M.LINE_CAPACITY
      requires line.buffer[len] == '\0' && !M.IsEnd(line.buffer[..len])
      modifies this, file, line.buffer
      ensures Valid() && Abs() == M.StoreLine(env, old(Abs()), old(line.buffer[..len]))
    {
      var lo := if line.buffer[0] == '.' && line.buffer[1] == '.' then 1 else 0;
      ghost var text := line.buffer[lo..len];
      assert text == M.Unstuff(line.buffer[..len]);
      CountLine(len - lo);
      if lineTooLong || dataTooLong || dataError {
        return;
      }
      WriteLine(lo, len);
    }

    method CountLine(n: nat)
      modifies this
      ensures Abs() == M.CountLine(env, old(Abs()), n)
    {
      dataSize := dataSize + n + 2;
      if n > M.TEXT_LINE_MAX {
        lineTooLong := true;
      }
      if dataSize > env.maxDataSize {
        dataTooLong := true;
      }
    }

    method WriteLine(lo: nat, len: nat)
      requires Valid() && line.pending == "" && lo <= len <= lo + M.TEXT_LINE_MAX && lo <= 1 && !dataError
      modifies this, file, line.buffer
      ensures Valid() && Abs() == M.WriteLine(env, old(Abs()), old(line.buffer[lo..len]))
    {
      ghost var text := line.buffer[lo..len];
      line.Set(len, '\r');
      line.Set(len + 1, '\n');
      line.Set(len + 2, '\0');
      assert line.buffer[lo..len + 2] == text + CRLF;
      var ok := file.Put(line.buffer[lo..len + 2]);
      dataError := !ok;
    }

    method EndData()
      requires Wired()
      modifies this, file
      ensures Abs() == M.EndData(env, old(Abs()))
    {
      if !lineTooLong && !dataTooLong {
        FinishData();
      } else {
        AbortData();
      }
    }

    /** A line that fits: the end of the message, by comparing C strings, or a line of its text. */
    method TakeText(len: nat) returns (more: bool)
      requires Valid() && line.pending == "" && mode.Data? && len <= M.LINE_CAPACITY && line.buffer[len] == '\0'
      modifies this, file, line.buffer
      ensures Valid() && Abs() == M.DataLine(env, old(Abs()), old(line.buffer[..len]))
      ensures more ==> mode.Data?
    {
      var isEnd := line.buffer[0] == '.' && line.buffer[1] == '\0';
      assert isEnd == M.IsEnd(line.buffer[..len]);
      LineCases(env, Abs(), line.buffer[..len]);
      if isEnd {
        EndData();
        return false;
      }
      StoreLine(len);
      return true;
    }

    method TakeLine(r: JoinResult, ghost text: string) returns (more: bool)
      requires Valid() && line.pending == "" && mode.Data? && line.Framed(r, text)
      modifies this, file, line.buffer
      ensures Valid() && Abs() == M.DataLine(env, old(Abs()), text)
      ensures more ==> mode.Data?
    {
      match r
      case NeedMore => assert false;
      case OutOfRange =>
        lineTooLong := true;
        return false;
      case Line(len) => more := TakeText(len);
    }

    method TakeCommand(r: JoinResult, ghost text: string)
      requires Valid() && cmd.pending == "" && cmd.Framed(r, text)
      requires |text| == 4 ==> cmd.buffer[5] == '\n'
      modifies this, file, cmd.buffer
      ensures Valid() && Abs() == M.CommandLine(env, old(Abs()), text, old(Cells()[6..]))
      ensures Cells() == C.AfterLine(old(Cells()), text)
    {
      match r
      case NeedMore => assert false;
      case OutOfRange => Reply(M.LineTooLong);
      case Line(len) => CallCommand(len);
    }

    // ----- Bytes

    /** What one call of the framer makes of `src`: nothing complete, or a line framed and `rest` behind it. */
    ghost predicate Joined(pending: string, src: string, r: JoinResult, text: string, rest: string) {
      match ScanFrom(CRLF, pending, src)
      case More(p) => r == NeedMore && text == p && rest == ""
      case Piece(line, tail) => r != NeedMore && text == line && rest == tail && |rest| < |src|
    }

    /** The chunk is copied into the cells as far as it fits before its first line is looked at. */
    method JoinCmd(src: string) returns (r: JoinResult, rest: string, ghost text: string)
      requires Valid()
      modifies cmd, cmd.buffer
      ensures Valid() && Joined(old(cmd.pending), src, r, text, rest)
      ensures r == NeedMore ==>
        Abs() == old(Abs()).(cmd := text) && Cells() == PutAt(old(Cells()), |old(cmd.pending)|, src)
      ensures r != NeedMore ==>
        && cmd.Framed(r, text) && Abs() == old(Abs()).(cmd := "")
        && Cells() == Ended(PutAt(old(Cells()), |old(cmd.pending)|, src), |text|)
      ensures r != NeedMore && |text| == 4 ==> cmd.buffer[5] == '\n'
    {
      ScanSound(CRLF, cmd.pending, src);
      ghost var p, was, scan := cmd.pending, Cells(), ScanFrom(CRLF, cmd.pending, src);
      HeldInFront();
      r, rest := cmd.Join(src);
      text := match scan case More(p) => p case Piece(line, _) => line;
      if r != NeedMore {
        LongLineUnmarked(PutAt(was, |p|, src), |text|);
        if |text| == 4 {
          LineEndCopied(was, p, src, text, rest);
        }
      }
    }

    /** The unfinished line stands in the first cells. */
    lemma HeldInFront()
      requires Valid()
      ensures cmd.Front() == Cells()
      ensures forall i :: 0 <= i < |cmd.pending| && i < 510 ==> Cells()[i] == cmd.pending[i]
    {
    }

    lemma LongLineUnmarked(cells: string, n: nat)
      ensures n >= |cells| ==> Ended(cells, n) == cells
    {
    }

    lemma LineEndCopied(cells: string, p: string, src: string, text: string, rest: string)
      requires |cells| == 510 && |text| == 4 && p + src == text + CRLF + rest
      requires forall i :: 0 <= i < |p| && i < 510 ==> cells[i] == p[i]
      ensures Ended(PutAt(cells, |p|, src), 4)[5] == '\n'
    {
      assert (p + src)[5] == '\n';
    }

    method JoinLine(src: string) returns (r: JoinResult, rest: string, ghost text: string)
      requires Valid()
      modifies line, line.buffer
      ensures Valid() && Joined(old(line.pending), src, r, text, rest)
      ensures r == NeedMore ==> Abs() == old(Abs()).(line := text)
      ensures r != NeedMore ==> line.Framed(r, text) && Abs() == old(Abs()).(line := "")
    {
      ScanSound(CRLF, line.pending, src);
      ghost var scan := ScanFrom(CRLF, line.pending, src);
      r, rest := line.Join(src);
      text := match scan case More(p) => p case Piece(line, _) => line;
    }

    /** Reads `src` up to the end of one command line. */
    method FeedCmd(src: string) returns (rest: string)
      requires Valid() && mode.Cmd? && src != ""
      modifies this, file, cmd, cmd.buffer
      ensures Valid() && |rest| < |src|
      ensures C.Feed(env, Buffered(), rest) == C.Feed(env, old(Buffered()), src)
    {
      var r;
      ghost var text;
      r, rest, text := JoinCmd(src);
      if r != NeedMore {
        TakeCommand(r, text);
      }
    }

    /** Reads `src` line by line until it is used up, the message ends, or a line does not fit. */
    method FeedData(src: string) returns (rest: string)
      requires Valid() && mode.Data? && src != ""
      modifies this, file, line, line.buffer
      ensures Valid() && |rest| < |src|
      ensures C.Feed(env, Buffered(), rest) == C.Feed(env, old(Buffered()), src)
    {
      rest := src;
      var more := true;
      while more
        invariant Valid() && (more ==> mode.Data?)
        invariant |rest| < |src| || (more && rest == src)
        invariant C.Feed(env, Buffered(), rest) == C.Feed(env, old(Buffered()), src)
        decreases |rest|, more
      {
        more, rest := FeedLine(rest);
      }
    }

    /** One round of the loop: at most one line of message text. */
    method FeedLine(src: string) returns (more: bool, rest: string)
      requires Valid() && mode.Data?
      modifies this, file, line, line.buffer
      ensures Valid() && (more ==> mode.Data?)
      ensures |rest| < |src| || (src == rest == "" && !more)
      ensures C.Feed(env, Buffered(), rest) == C.Feed(env, old(Buffered()), src)
    {
      var r;
      ghost var text;
      r, rest, text := JoinLine(src);
      if r == NeedMore {
        more := false;
      } else {
        more := TakeLine(r, text);
      }
    }

    /** A chunk of bytes, in whatever mode the session is and through all changes of mode inside it. */
    method Feed(src: string)
      requires Valid()
      modifies this, file, cmd, cmd.buffer, line, line.buffer
      ensures Valid() && Buffered() == C.Feed(env, old(Buffered()), src)
    {
      var rest := src;
      while |rest| > 0
        invariant Valid() && C.Feed(env, Buffered(), rest) == C.Feed(env, old(Buffered()), src)
        decreases |rest|
      {
        match mode
        case Closed => return;
        case Cmd => rest := FeedCmd(rest);
        case Data => rest := FeedData(rest);
      }
    }

    /** The chunks as they come in, until they end or the session is closed. In a clean run the outcome is that
        of all bytes together, one at a time, however they were cut. */
    method Handle(chunks: seq<string>)
      requires Valid()
      modifies this, file, cmd, cmd.buffer, line, line.buffer
      ensures Valid() && Buffered() == C.FeedAll(env, old(Buffered()), chunks)
      ensures forall b: M.Behind :: C.Clean(env, b, old(Abs()), Concat(chunks)) ==>
        Abs() == M.Run(env, b, old(Abs()), Concat(chunks))
    {
      HandleAll(chunks);
      forall b: M.Behind | C.Clean(env, b, old(Abs()), Concat(chunks))
        ensures Abs() == M.Run(env, b, old(Abs()), Concat(chunks))
      {
        C.CutsDoNotMatter(env, b, old(Buffered()), chunks);
      }
    }

    method HandleAll(chunks: seq<string>)
      requires Valid()
      modifies this, file, cmd, cmd.buffer, line, line.buffer
      ensures Valid() && Buffered() == C.FeedAll(env, old(Buffered()), chunks)
    {
      var i := 0;
      while i < |chunks| && !mode.Closed?
        invariant i <= |chunks| && Valid()
        invariant C.FeedAll(env, Buffered(), chunks[i..]) == C.FeedAll(env, old(Buffered()), chunks)
      {
        assert chunks[i..][1..] == chunks[i + 1..];
        Feed(chunks[i]);
        i := i + 1;
      }
      if mode.Closed? {
        C.FeedAllClosed(env, Buffered(), chunks[i..]);
      }
    }
  }
}
