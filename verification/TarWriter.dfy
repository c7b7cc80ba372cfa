/** Filling a tar header in place, field after field, and then its checksum over itself. */
module TarWriter {
  import opened Bytes
  import opened Tar

  /** Writes one character, which fills its field. */
  method WriteChar(buffer: array<char>, at: nat, value: char)
    requires at < buffer.Length
    modifies buffer
    ensures buffer[..at + 1] == old(buffer[..at]) + [value]
    ensures buffer[at + 1..] == old(buffer[at + 1..])
  {
    buffer[at] := value;
  }

  /** Writes the lowest `n` octal digits, from the right. */
  method WriteDigits(buffer: array<char>, at: nat, n: nat, value: int)
    requires at + n <= buffer.Length
    modifies buffer
    ensures buffer[..at] == old(buffer[..at])
    ensures buffer[at..at + n] == Octal(value, n)
    ensures buffer[at + n..] == old(buffer[at + n..])
  {
    var v := value;
    ghost var done := "";
    for i := 0 to n
      invariant |done| == i && buffer[at + n - i..at + n] == done
      invariant Octal(v, n - i) + done == Octal(value, n)
      invariant buffer[..at] == old(buffer[..at]) && buffer[at + n..] == old(buffer[at + n..])
    {
      OneMoreDigit(v, n - i, done);
      buffer[at + n - 1 - i] := OctalDigit(v);
      done := [OctalDigit(v)] + done;
      v := v / 8;
    }
    assert Octal(v, 0) + done == done;
  }

  /** Writes the lowest `n - 1` octal digits and a NUL. */
  method WriteNumber(buffer: array<char>, at: nat, n: nat, value: int)
    requires n > 0 && at + n <= buffer.Length
    modifies buffer
    ensures buffer[..at + n] == old(buffer[..at]) + OctalField(value, n)
    ensures buffer[at + n..] == old(buffer[at + n..])
  {
    WriteDigits(buffer, at, n - 1, value);
    buffer[at + n - 1] := '\0';
    assert buffer[..at + n] == buffer[..at] + buffer[at..at + n - 1] + "\0";
  }

  lemma OneMoreDigit(v: int, n: nat, done: string)
    requires n > 0
    ensures Octal(v, n) + done == Octal(v / 8, n - 1) + ([OctalDigit(v)] + done)
  {
  }

  /** Writes text cut to `n - 1` characters and fills up with NULs. */
  method WriteText(buffer: array<char>, at: nat, n: nat, value: string)
    requires n > 0 && at + n <= buffer.Length
    modifies buffer
    ensures buffer[..at + n] == old(buffer[..at]) + TextField(value, n)
    ensures buffer[at + n..] == old(buffer[at + n..])
  {
    var kept := if |value| < n then value else value[..n - 1];
    forall i | 0 <= i < |kept| {
      buffer[at + i] := kept[i];
    }
    for i := |kept| to n
      invariant buffer[at..at + i] == kept + Zeros(i - |kept|)
      invariant buffer[..at] == old(buffer[..at]) && buffer[at + n..] == old(buffer[at + n..])
    {
      buffer[at + i] := '\0';
    }
    assert buffer[..at + n] == buffer[..at] + buffer[at..at + n];
    assert buffer[at..at + n] == TextField(value, n);
  }

  /** The sum of all bytes of the header. */
  method AddUp(buffer: array<char>) returns (sum: nat)
    ensures sum == Sum(buffer[..])
  {
    sum := 0;
    for i := 0 to buffer.Length
      invariant sum == Sum(buffer[..i])
    {
      assert buffer[..i + 1][..i] == buffer[..i];
      sum := sum + buffer[i] as int;
    }
    assert buffer[..buffer.Length] == buffer[..];
  }

  method FillBeforeChecksum(buffer: array<char>, name: string, size: int, mtime: int)
    requires buffer.Length == BLOCK
    modifies buffer
    ensures buffer[..148] == BeforeChecksum(name, size, mtime)
  {
    ConstantFields();
    WriteText(buffer, 0, 100, name);
    WriteNumber(buffer, 100, 8, MODE);
    WriteNumber(buffer, 108, 8, 0);
    WriteNumber(buffer, 116, 8, 0);
    WriteNumber(buffer, 124, 12, size);
    WriteNumber(buffer, 136, 12, mtime);
  }

  method FillAfterChecksum(buffer: array<char>)
    requires buffer.Length == BLOCK
    modifies buffer
    ensures buffer[..156] == old(buffer[..156])
    ensures buffer[..] == old(buffer[..156]) + AfterChecksum()
  {
    ghost var before := buffer[..156];
    FillOwners(buffer);
    WriteText(buffer, 329, 8, "");
    WriteText(buffer, 337, 8, "");
    WriteText(buffer, 345, 155, "");
    WriteText(buffer, 500, 12, "");
    assert buffer[..] == buffer[..512] == before + AfterChecksum();
  }

  method FillOwners(buffer: array<char>)
    requires buffer.Length == BLOCK
    modifies buffer
    ensures buffer[..329] == old(buffer[..156])
      + ("0" + TextField("", 100) + TextField("ustar  ", 8) + TextField("ervan", 32) + TextField("ervan", 32))
  {
    ghost var before := buffer[..156];
    WriteChar(buffer, 156, '0');
    WriteText(buffer, 157, 100, "");
    WriteText(buffer, 257, 8, "ustar  ");
    WriteText(buffer, 265, 32, "ervan");
    WriteText(buffer, 297, 32, "ervan");
  }

  method FillBlank(buffer: array<char>, name: string, size: int, mtime: int)
    requires buffer.Length == BLOCK
    modifies buffer
    ensures buffer[..] == HeaderWith(name, size, mtime, BLANKS)
  {
    FillBeforeChecksum(buffer, name, size, mtime);
    WriteText(buffer, 148, 7, BLANKS);
    WriteChar(buffer, 155, ' ');
    ghost var a := BeforeChecksum(name, size, mtime);
    assert buffer[..156] == a + (TextField(BLANKS, 7) + " ");
    FillAfterChecksum(buffer);
    buffer[154] := ' ';
    assert TextField(BLANKS, 7) == "      " + "\0";
    assert buffer[..156] == a + BLANKS;
    assert buffer[..] == buffer[..156] + buffer[156..];
  }

  /** A whole header: every field, the checksum field as blanks, the sum, and the sum over the blanks. */
  method Filled(name: string, size: int, mtime: int) returns (hdr: array<char>)
    ensures fresh(hdr) && hdr[..] == Header(name, size, mtime)
  {
    hdr := new char[BLOCK];
    FillBlank(hdr, name, size, mtime);
    ghost var blank := hdr[..];
    var sum := AddUp(hdr);
    WriteNumber(hdr, 148, 7, sum);
    Patched(BeforeChecksum(name, size, mtime), AfterChecksum(), blank, hdr[..], OctalField(sum, 7));
  }

  /** Replacing the first seven blanks. */
  lemma Patched(a: string, b: string, was: string, now: string, field: string)
    requires |a| == 148 && |field| == 7 && was == a + BLANKS + b && |now| == |was|
    requires now[..155] == was[..148] + field && now[155..] == was[155..]
    ensures now == a + (field + " ") + b
  {
    assert was[..148] == a;
    assert now[155..] == " " + b;
    assert now == now[..155] + now[155..];
  }
}
