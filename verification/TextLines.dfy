/** What one line of message text does, spelled out. */
module TextLines {
  import opened Bytes
  import opened Framing
  import opened Disk
  import opened Machine
  import opened MessageText
  import Tar

  /** A text as a C string: up to its first NUL. */
  function CString(s: string): string {
    s[..Span(s, Tar.IsNotNul)]
  }

  /** The end of the data is the line that is a dot to whoever compares C strings. */
  lemma EndIsDot(line: string)
    ensures IsEnd(line) <==> CString(line) == "."
  {
    if IsEnd(line) {
      SpanIs(line, Tar.IsNotNul, 1);
      assert line[..1] == ".";
    }
    assert CString(line) == "." ==> CString(line)[0] == line[0];
  }

  /** Two leading dots become one; every other line is kept as it is, one leading dot included. */
  ghost predicate IsStoredAs(line: string, text: string) {
    if ".." <= line then line == "." + text else line == text
  }

  lemma StoredIs(line: string, text: string)
    requires IsStoredAs(line, text)
    ensures Unstuff(line) == text
  {
    if ".." <= line {
      assert line[0] == ".."[0] && line[1] == ".."[1];
    }
  }

  lemma TextTaken(e: Env, b: Behind, st: State, line: string, text: string)
    requires st.mode.Data? && st.line == "" && Terminates(CRLF, line) && |line| <= 1022 && CString(line) != "."
    requires IsStoredAs(line, text)
    ensures Run(e, b, st, line + CRLF) == StoreLine(e, st, line) && Unstuff(line) == text
  {
    OneLine(e, b, st, line, "");
    assert line + CRLF + "" == line + CRLF;
    EndIsDot(line);
    StoredIs(line, text);
  }

  /** A line of more than 1022 bytes is not counted, but the message is refused for it. */
  lemma LongLineTaken(e: Env, b: Behind, st: State, line: string)
    requires st.mode.Data? && st.line == "" && Terminates(CRLF, line) && |line| > 1022
    ensures Run(e, b, st, line + CRLF) == st.(lineTooLong := true)
  {
    OneLine(e, b, st, line, "");
    assert line + CRLF + "" == line + CRLF;
  }

  /** Every other line that is not the end is counted with its line end, as it is stored; more than 996 bytes of
      it are too many, and so is a total above the limit. */
  lemma LineCounted(e: Env, b: Behind, st: State, line: string, text: string, size: nat) returns (next: State)
    requires st.mode.Data? && st.line == "" && Terminates(CRLF, line) && |line| <= 1022 && CString(line) != "."
    requires IsStoredAs(line, text) && size == st.dataSize + |text| + 2
    ensures next == Run(e, b, st, line + CRLF) && next.mode.Data? && next.line == "" && next.dataSize == size
    ensures next.lineTooLong <==> st.lineTooLong || |text| > 996
    ensures next.dataTooLong <==> st.dataTooLong || size > e.maxDataSize
    ensures next.lineTooLong || next.dataTooLong || st.dataError ==>
      next == st.(dataSize := size, lineTooLong := next.lineTooLong, dataTooLong := next.dataTooLong)
  {
    TextTaken(e, b, st, line, text);
    next := StoreLine(e, st, line);
  }

  /** While nothing is wrong, it goes to the end of the file, with its line end; a write that fails sets the
      error flag. */
  lemma LineWritten(e: Env, b: Behind, st: State, line: string, text: string, size: nat)
    requires st.mode.Data? && st.line == "" && Terminates(CRLF, line) && CString(line) != "."
    requires IsStoredAs(line, text) && |text| <= 996 && size == st.dataSize + |text| + 2 <= e.maxDataSize
    requires !st.lineTooLong && !st.dataTooLong && !st.dataError && AtEnd(st.disk)
    ensures Run(e, b, st, line + CRLF) ==
      if e.ok(st.disk.ops)
      then st.(dataSize := size, disk := Disk(st.disk.bytes + (text + CRLF), |st.disk.bytes| + |text| + 2, st.disk.ops + 1))
      else st.(dataSize := size, dataError := true, disk := st.disk.(ops := st.disk.ops + 1))
  {
    TextTaken(e, b, st, line, text);
    StoredWritten(e, st, line, text, size);
  }

  lemma StoredWritten(e: Env, st: State, line: string, text: string, size: nat)
    requires Unstuff(line) == text && |text| <= 996 && size == st.dataSize + |text| + 2 <= e.maxDataSize
    requires !st.lineTooLong && !st.dataTooLong && !st.dataError && AtEnd(st.disk)
    ensures StoreLine(e, st, line) ==
      if e.ok(st.disk.ops)
      then st.(dataSize := size, disk := Disk(st.disk.bytes + (text + CRLF), |st.disk.bytes| + |text| + 2, st.disk.ops + 1))
      else st.(dataSize := size, dataError := true, disk := st.disk.(ops := st.disk.ops + 1))
  {
    AppendedIs(st.disk.bytes, text + CRLF);
  }

  lemma AppendedIs(bytes: string, s: string)
    ensures Overwrite(bytes, |bytes|, s) == bytes + s
  {
  }
}
