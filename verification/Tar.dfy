/** Tar headers: how they are filled in, and how a tar reader takes them apart. */
module Tar {
  import opened Bytes

  const BLOCK := 512
  const MODE := 0x100 + 0x80 + 0x20  // user read and write, group read
  const SIZE_LIMIT := 0x2_0000_0000  // 8^11, the first size that does not fit its field
  const BLANKS: string := "        "

  // ----- Fields

  function OctalDigit(v: int): char {
    '0' + (v % 8) as char
  }

  /** The lowest `n` octal digits of `v`. Unsigned wrap-around at 2^64 does not reach the 21 lowest ones. */
  function Octal(v: int, n: nat): (s: string)
    ensures |s| == n
    decreases n, v
  {
    if n == 0 then "" else Octal(v / 8, n - 1) + [OctalDigit(v)]
  }

  function OctalField(v: int, n: nat): (s: string)
    requires n > 0
    ensures |s| == n
  {
    Octal(v, n - 1) + "\0"
  }

  function TextField(text: string, n: nat): (s: string)
    requires n > 0
    ensures |s| == n
  {
    var kept := if |text| < n then text else text[..n - 1];
    kept + Zeros(n - |kept|)
  }

  function Sum(s: string): nat {
    if s == "" then 0 else Sum(s[..|s| - 1]) + s[|s| - 1] as int
  }

  // ----- Headers

  // The mode, and owner and group zero, as fields.
  const MODE_FIELD: string := "0000640\0"
  const ZERO_FIELD: string := "0000000\0"

  lemma {:induction false} OctalOfZero(zero: int, n: nat)
    requires zero == 0
    ensures |Octal(zero, n)| == n && forall i :: 0 <= i < n ==> Octal(zero, n)[i] == '0'
    decreases n
  {
    if n > 0 {
      OctalOfZero(zero / 8, n - 1);
    }
  }

  lemma ConstantField(mode: int, zero: int, n: nat)
    requires mode == MODE && zero == 0 && n == 7
    ensures Octal(mode, n) == "0000640" && Octal(zero, n) == "0000000"
  {
    OctalOfZero(zero, n);
    OctalOfZero(mode / 8 / 8 / 8, n - 3);
    assert Octal(mode / 8 / 8, n - 2) == Octal(mode / 8 / 8 / 8, n - 3) + "6";
    assert Octal(mode / 8, n - 1) == Octal(mode / 8 / 8, n - 2) + "4";
    assert Octal(mode, n) == Octal(mode / 8, n - 1) + "0";
  }

  lemma ConstantFields()
    ensures OctalField(MODE, 8) == MODE_FIELD && OctalField(0, 8) == ZERO_FIELD
  {
    ConstantField(MODE, 0, 7);
  }

  function BeforeChecksum(name: string, size: int, mtime: int): (s: string)
    ensures |s| == 148
  {
    TextField(name, 100) + MODE_FIELD + ZERO_FIELD + ZERO_FIELD + OctalField(size, 12) + OctalField(mtime, 12)
  }

  function AfterChecksum(): (s: string)
    ensures |s| == 356
  {
    "0" + TextField("", 100) + TextField("ustar  ", 8) + TextField("ervan", 32) + TextField("ervan", 32)
    + TextField("", 8) + TextField("", 8) + TextField("", 155) + TextField("", 12)
  }

  /** A header whose checksum field holds the eight bytes `check`. */
  function HeaderWith(name: string, size: int, mtime: int, check: string): (s: string)
    requires |check| == 8
    ensures |s| == BLOCK
  {
    BeforeChecksum(name, size, mtime) + check + AfterChecksum()
  }

  function Header(name: string, size: int, mtime: int): (s: string)
    ensures |s| == BLOCK
  {
    HeaderWith(name, size, mtime, OctalField(Sum(HeaderWith(name, size, mtime, BLANKS)), 7) + " ")
  }

  // ----- Reading fields

  predicate IsOctalDigit(c: char) {
    '0' <= c <= '7'
  }

  predicate IsNotNul(c: char) {
    c != '\0'
  }

  function ReadOctal(s: string): nat
    requires forall i :: 0 <= i < |s| ==> IsOctalDigit(s[i])
  {
    if s == "" then 0
    else
      assert IsOctalDigit(s[|s| - 1]);
      ReadOctal(s[..|s| - 1]) * 8 + (s[|s| - 1] as int - '0' as int)
  }

  /** A numeric field ends at its first character that is not an octal digit. */
  function NumberAt(block: string, at: nat, n: nat): nat
    requires at + n <= |block|
  {
    var field := block[at..at + n];
    ReadOctal(field[..Span(field, IsOctalDigit)])
  }

  function TextAt(block: string, at: nat, n: nat): string
    requires at + n <= |block|
  {
    var field := block[at..at + n];
    field[..Span(field, IsNotNul)]
  }

  /** The stored checksum is the sum of all bytes with the checksum field taken as blanks. */
  predicate ChecksumHolds(block: string)
    requires |block| == BLOCK
  {
    NumberAt(block, 148, 8) == Sum(block[..148] + BLANKS + block[156..])
  }

  // ----- Fields read back

  function Pow8(n: nat): (p: nat)
    ensures p > 0
  {
    if n == 0 then 1 else 8 * Pow8(n - 1)
  }

  lemma SizeLimitIs()
    ensures Pow8(11) == SIZE_LIMIT
  {
    assert Pow8(3) == 512;
    assert Pow8(6) == 512 * Pow8(3);
    assert Pow8(9) == 512 * Pow8(6);
    assert Pow8(11) == 64 * Pow8(9);
  }

  lemma ModByTimes8(v: int, p: nat)
    requires p > 0
    ensures v % (8 * p) == (v / 8) % p * 8 + v % 8
  {
    var q := v / 8;
    var k, m := q / p, q % p;
    assert v == 8 * (p * k + m) + v % 8;
    assert 8 * (p * k) == (8 * p) * k;
    ModIs(v, 8 * p, k, 8 * m + v % 8);
  }

  lemma ModIs(v: int, d: nat, k: int, r: int)
    requires d > 0 && v == d * k + r && 0 <= r < d
    ensures v % d == r
  {
    var j := v / d;
    assert v == d * j + v % d;
    MulStrict(d, j - k);
    assert d * (j - k) == d * j - d * k;
  }

  lemma MulStrict(d: nat, m: int)
    requires d > 0
    ensures m > 0 ==> d * m >= d
    ensures m < 0 ==> d * m <= 0 - d
  {
  }

  lemma {:induction false} OctalReadsBack(v: int, n: nat)
    ensures forall i :: 0 <= i < n ==> IsOctalDigit(Octal(v, n)[i])
    ensures ReadOctal(Octal(v, n)) == v % Pow8(n)
    decreases n
  {
    if n > 0 {
      OctalReadsBack(v / 8, n - 1);
      ModByTimes8(v, Pow8(n - 1));
      var s := Octal(v, n);
      assert s[..n - 1] == Octal(v / 8, n - 1);
    }
  }

  /** A numeric field of `n` characters gives back its value modulo 8^(n-1), whatever surrounds it. */
  lemma NumberReadsBack(v: int, n: nat, before: string, after: string)
    requires n > 0
    ensures NumberAt(before + OctalField(v, n) + after, |before|, n) == v % Pow8(n - 1)
  {
    var block := before + OctalField(v, n) + after;
    var field := block[|before|..|before| + n];
    assert field == OctalField(v, n);
    OctalReadsBack(v, n - 1);
    SpanExact(Octal(v, n - 1), "\0", IsOctalDigit);
  }

  lemma TextReadsBack(text: string, n: nat, before: string, after: string)
    requires |text| < n && forall i :: 0 <= i < |text| ==> text[i] != '\0'
    ensures TextAt(before + TextField(text, n) + after, |before|, n) == text
  {
    var block := before + TextField(text, n) + after;
    assert block[|before|..|before| + n] == TextField(text, n);
    SpanExact(text, Zeros(n - |text|), IsNotNul);
  }

  // ----- Checksums

  lemma {:induction false} SumAppend(a: string, b: string)
    ensures Sum(a + b) == Sum(a) + Sum(b)
  {
    if b == "" {
      assert a + b == a;
    } else {
      assert (a + b)[..|a + b| - 1] == a + b[..|b| - 1];
      SumAppend(a, b[..|b| - 1]);
    }
  }

  /** With `SumAppend`, all there is to the sum: every byte counts with its code from 0 to 255. */
  lemma SumOfOne(c: char)
    ensures Sum("") == 0 && Sum([c]) == c as int
  {
    assert [c][..0] == "";
  }

  lemma {:induction false} SumBound(s: string)
    requires IsByteString(s)
    ensures Sum(s) <= 255 * |s|
  {
    if s != "" {
      SumBound(s[..|s| - 1]);
    }
  }

  lemma {:induction false} OctalIsBytes(v: int, n: nat)
    ensures IsByteString(Octal(v, n))
    decreases n
  {
    if n > 0 {
      OctalIsBytes(v / 8, n - 1);
    }
  }

  lemma BytesAppend(a: string, b: string)
    requires IsByteString(a) && IsByteString(b)
    ensures IsByteString(a + b)
  {
  }

  lemma OctalFieldIsBytes(v: int, n: nat)
    requires n > 0
    ensures IsByteString(OctalField(v, n))
  {
    OctalIsBytes(v, n - 1);
  }

  lemma TextFieldIsBytes(text: string, n: nat)
    requires n > 0 && IsByteString(text)
    ensures IsByteString(TextField(text, n))
  {
  }

  lemma BeforeChecksumIsBytes(name: string, size: int, mtime: int)
    requires IsByteString(name)
    ensures IsByteString(BeforeChecksum(name, size, mtime))
  {
    TextFieldIsBytes(name, 100);
    OctalFieldIsBytes(size, 12);
    OctalFieldIsBytes(mtime, 12);
    SixBytesAppend(TextField(name, 100), MODE_FIELD, ZERO_FIELD, ZERO_FIELD, OctalField(size, 12), OctalField(mtime, 12));
  }

  lemma SixBytesAppend(a: string, b: string, c: string, d: string, e: string, f: string)
    requires IsByteString(a) && IsByteString(b) && IsByteString(c)
    requires IsByteString(d) && IsByteString(e) && IsByteString(f)
    ensures IsByteString(a + b + c + d + e + f)
  {
    BytesAppend(a, b);
    BytesAppend(a + b, c);
    BytesAppend(a + b + c, d);
    BytesAppend(a + b + c + d, e);
    BytesAppend(a + b + c + d + e, f);
  }

  lemma AfterChecksumIsBytes()
    ensures IsByteString(AfterChecksum())
  {
  }

  lemma SumFitsSixDigits(name: string, size: int, mtime: int)
    requires IsByteString(name)
    ensures Sum(HeaderWith(name, size, mtime, BLANKS)) <= 255 * BLOCK < Pow8(6)
  {
    var a, b := BeforeChecksum(name, size, mtime), AfterChecksum();
    BeforeChecksumIsBytes(name, size, mtime);
    AfterChecksumIsBytes();
    BytesAppend(a, BLANKS);
    BytesAppend(a + BLANKS, b);
    SumBound(a + BLANKS + b);
    assert Pow8(6) == 8 * Pow8(5) == 64 * Pow8(4) == 512 * Pow8(3);
    assert Pow8(3) == 8 * Pow8(2) == 64 * Pow8(1) == 512;
  }

  /** Six digits, a NUL and a blank read back as the number. */
  lemma ChecksumFieldReadsBack(sum: nat)
    requires sum < Pow8(6)
    ensures NumberAt(OctalField(sum, 7) + " ", 0, 8) == sum
  {
    var digits := Octal(sum, 6);
    OctalReadsBack(sum, 6);
    SpanExact(digits, "\0 ", IsOctalDigit);
    DigitsRead(OctalField(sum, 7) + " ", digits);
  }

  lemma DigitsRead(field: string, digits: string)
    requires |field| == 8 && field == digits + "\0 " && Span(digits + "\0 ", IsOctalDigit) == |digits|
    requires forall i :: 0 <= i < |digits| ==> IsOctalDigit(digits[i])
    ensures NumberAt(field, 0, 8) == ReadOctal(digits)
  {
    assert field[0..8] == field && field[..|digits|] == digits;
  }

  /** The checksum field of every filled header reads back as the sum it stands for: six octal digits are
      enough because 512 * 255 < 8^6. */
  lemma ChecksumIsConsistent(name: string, size: int, mtime: int)
    requires IsByteString(name)
    ensures ChecksumHolds(Header(name, size, mtime))
  {
    var sum := Sum(HeaderWith(name, size, mtime, BLANKS));
    var field := OctalField(sum, 7) + " ";
    var block := Header(name, size, mtime);
    SumFitsSixDigits(name, size, mtime);
    ThreeParts(BeforeChecksum(name, size, mtime), field, AfterChecksum());
    ChecksumFieldReadsBack(sum);
    assert block[148..156] == field[0..8];
  }

  // ----- Every field, by its offset

  lemma NumberIn(h: string, at: nat, n: nat, v: int)
    requires n > 0 && at + n <= |h| && h[at..at + n] == OctalField(v, n)
    ensures NumberAt(h, at, n) == v % Pow8(n - 1)
  {
    OctalReadsBack(v, n - 1);
    SpanExact(Octal(v, n - 1), "\0", IsOctalDigit);
  }

  lemma TextIn(h: string, at: nat, n: nat, text: string)
    requires |text| < n && at + n <= |h| && h[at..at + n] == TextField(text, n)
    requires forall i :: 0 <= i < |text| ==> text[i] != '\0'
    ensures TextAt(h, at, n) == text
    ensures forall i :: at + |text| <= i < at + n ==> h[i] == '\0'
  {
    SpanExact(text, Zeros(n - |text|), IsNotNul);
    forall i | at + |text| <= i < at + n ensures h[i] == '\0' {
      assert h[i] == h[at..at + n][i - at];
    }
  }

  /** Text too long for its field loses its end. */
  lemma TextIsCut(text: string, n: nat)
    requires n > 0 && |text| >= n && forall i :: 0 <= i < |text| ==> text[i] != '\0'
    ensures TextAt(TextField(text, n), 0, n) == text[..n - 1]
  {
    SpanExact(text[..n - 1], Zeros(1), IsNotNul);
  }

  lemma SixParts(a: string, b: string, c: string, d: string, e: string, f: string)
    requires |a| == 100 && |b| == |c| == |d| == 8 && |e| == |f| == 12
    ensures var s := a + b + c + d + e + f;
      && s[0..100] == a && s[100..108] == b && s[108..116] == c && s[116..124] == d
      && s[124..136] == e && s[136..148] == f
  {
  }

  lemma FieldsBefore(name: string, size: int, mtime: int)
    ensures var s := BeforeChecksum(name, size, mtime);
      && s[0..100] == TextField(name, 100) && s[100..108] == OctalField(0x1A0, 8)
      && s[108..116] == OctalField(0, 8) && s[116..124] == OctalField(0, 8)
      && s[124..136] == OctalField(size, 12) && s[136..148] == OctalField(mtime, 12)
  {
    ConstantFields();
    SixParts(TextField(name, 100), MODE_FIELD, ZERO_FIELD, ZERO_FIELD, OctalField(size, 12), OctalField(mtime, 12));
  }

  lemma NineParts(a: string, b: string, c: string, d: string, e: string, f: string, g: string, h: string, i: string)
    requires |a| == 1 && |b| == 100 && |c| == 8 && |d| == |e| == 32 && |f| == |g| == 8 && |h| == 155 && |i| == 12
    ensures var s := a + b + c + d + e + f + g + h + i;
      && s[0..1] == a && s[1..101] == b && s[101..109] == c && s[109..141] == d && s[141..173] == e
      && s[173..181] == f && s[181..189] == g && s[189..344] == h && s[344..356] == i
  {
  }

  lemma FieldsBehind()
    ensures var s := AfterChecksum();
      && s[0..1] == "0" && s[1..101] == TextField("", 100) && s[101..109] == TextField("ustar  ", 8)
      && s[109..141] == TextField("ervan", 32) && s[141..173] == TextField("ervan", 32)
      && s[173..181] == TextField("", 8) && s[181..189] == TextField("", 8)
      && s[189..344] == TextField("", 155) && s[344..356] == TextField("", 12)
  {
    NineParts("0", TextField("", 100), TextField("ustar  ", 8), TextField("ervan", 32), TextField("ervan", 32),
              TextField("", 8), TextField("", 8), TextField("", 155), TextField("", 12));
  }

  /** The numbers of a header, by offset: mode, owner, group, size and time. */
  lemma HeaderNumbers(name: string, size: int, mtime: int)
    ensures var h := Header(name, size, mtime);
      && NumberAt(h, 100, 8) == 0x1A0 && NumberAt(h, 108, 8) == 0 && NumberAt(h, 116, 8) == 0
      && NumberAt(h, 124, 12) == size % 0x2_0000_0000 && NumberAt(h, 136, 12) == mtime % 0x2_0000_0000
  {
    var h, s := Header(name, size, mtime), BeforeChecksum(name, size, mtime);
    FieldsBefore(name, size, mtime);
    InHeader(name, size, mtime, 100, 108);
    InHeader(name, size, mtime, 108, 116);
    InHeader(name, size, mtime, 116, 124);
    InHeader(name, size, mtime, 124, 136);
    InHeader(name, size, mtime, 136, 148);
    NumberIn(h, 100, 8, 0x1A0);
    NumberIn(h, 108, 8, 0);
    NumberIn(h, 116, 8, 0);
    NumberIn(h, 124, 12, size);
    NumberIn(h, 136, 12, mtime);
    SizeLimitIs();
    ModeFits();
  }

  lemma ModeFits()
    ensures 0x1A0 % Pow8(7) == 0x1A0 && 0 % Pow8(7) == 0
  {
    assert Pow8(3) == 512;
    assert Pow8(7) == 64 * Pow8(5) == 64 * (64 * Pow8(3));
  }

  lemma InHeader(name: string, size: int, mtime: int, lo: nat, hi: nat)
    requires lo <= hi <= 148
    ensures Header(name, size, mtime)[lo..hi] == BeforeChecksum(name, size, mtime)[lo..hi]
  {
  }

  lemma BehindChecksum(name: string, size: int, mtime: int, lo: nat, hi: nat)
    requires lo <= hi <= 356
    ensures Header(name, size, mtime)[156 + lo..156 + hi] == AfterChecksum()[lo..hi]
  {
  }

  lemma HeaderNames(name: string, size: int, mtime: int)
    requires |name| < 100 && forall i :: 0 <= i < |name| ==> name[i] != '\0'
    ensures var h := Header(name, size, mtime);
      TextAt(h, 0, 100) == name && h[156] == '0' && TextAt(h, 257, 8) == "ustar  "
  {
    var h := Header(name, size, mtime);
    FieldsBefore(name, size, mtime);
    FieldsBehind();
    InHeader(name, size, mtime, 0, 100);
    TextIn(h, 0, 100, name);
    BehindChecksum(name, size, mtime, 0, 1);
    assert h[156] == h[156..157][0];
    HeaderText(name, size, mtime, 257, 8, "ustar  ");
  }

  lemma HeaderOwners(name: string, size: int, mtime: int)
    ensures var h := Header(name, size, mtime);
      TextAt(h, 265, 32) == "ervan" && TextAt(h, 297, 32) == "ervan"
  {
    FieldsBehind();
    HeaderText(name, size, mtime, 265, 32, "ervan");
    HeaderText(name, size, mtime, 297, 32, "ervan");
  }

  lemma HeaderEmptyTexts(name: string, size: int, mtime: int)
    ensures var h := Header(name, size, mtime);
      && TextAt(h, 157, 100) == "" && TextAt(h, 329, 8) == "" && TextAt(h, 337, 8) == ""
      && TextAt(h, 345, 155) == "" && TextAt(h, 500, 12) == ""
  {
    FieldsBehind();
    HeaderText(name, size, mtime, 157, 100, "");
    HeaderText(name, size, mtime, 329, 8, "");
    HeaderText(name, size, mtime, 337, 8, "");
    HeaderText(name, size, mtime, 345, 155, "");
    HeaderText(name, size, mtime, 500, 12, "");
  }

  lemma NumberEnds(h: string, at: nat, n: nat, v: int)
    requires n > 0 && at + n <= |h| && h[at..at + n] == OctalField(v, n)
    ensures h[at + n - 1] == '\0' && forall i :: at <= i < at + n - 1 ==> IsOctalDigit(h[i])
  {
    OctalReadsBack(v, n - 1);
    assert h[at + n - 1] == h[at..at + n][n - 1];
    forall i | at <= i < at + n - 1 ensures IsOctalDigit(h[i]) {
      assert h[i] == h[at..at + n][i - at];
    }
  }

  lemma ChecksumCells(name: string, size: int, mtime: int)
    ensures var sum := Sum(HeaderWith(name, size, mtime, BLANKS));
      Header(name, size, mtime)[148..156] == OctalField(sum, 7) + " "
  {
  }

  /** Every number ends with a NUL behind nothing but digits, and the checksum with a NUL and a blank. */
  lemma HeaderEnds(name: string, size: int, mtime: int)
    ensures var h := Header(name, size, mtime);
      && h[107] == h[115] == h[123] == h[135] == h[147] == h[154] == '\0' && h[155] == ' '
      && forall i :: 148 <= i < 154 ==> IsOctalDigit(h[i])
  {
    var h, sum := Header(name, size, mtime), Sum(HeaderWith(name, size, mtime, BLANKS));
    FieldsBefore(name, size, mtime);
    InHeader(name, size, mtime, 100, 108);
    InHeader(name, size, mtime, 108, 116);
    InHeader(name, size, mtime, 116, 124);
    InHeader(name, size, mtime, 124, 136);
    InHeader(name, size, mtime, 136, 148);
    NumberEnds(h, 100, 8, 0x1A0);
    NumberEnds(h, 108, 8, 0);
    NumberEnds(h, 116, 8, 0);
    NumberEnds(h, 124, 12, size);
    NumberEnds(h, 136, 12, mtime);
    ChecksumCells(name, size, mtime);
    assert h[148..155] == h[148..156][..7] && h[155] == h[148..156][7];
    NumberEnds(h, 148, 7, sum);
  }

  /** The texts of a header, by offset: name, type, link, format, owner, group, and empty fields. */
  lemma HeaderTexts(name: string, size: int, mtime: int)
    requires |name| < 100 && forall i :: 0 <= i < |name| ==> name[i] != '\0'
    ensures var h := Header(name, size, mtime);
      && TextAt(h, 0, 100) == name && h[156] == '0' && TextAt(h, 157, 100) == "" && TextAt(h, 257, 8) == "ustar  "
      && TextAt(h, 265, 32) == "ervan" && TextAt(h, 297, 32) == "ervan" && TextAt(h, 329, 8) == ""
      && TextAt(h, 337, 8) == "" && TextAt(h, 345, 155) == "" && TextAt(h, 500, 12) == ""
  {
    HeaderNames(name, size, mtime);
    HeaderOwners(name, size, mtime);
    HeaderEmptyTexts(name, size, mtime);
  }

  lemma HeaderText(name: string, size: int, mtime: int, at: nat, n: nat, text: string)
    requires 156 <= at && at + n <= 512 && |text| < n && forall i :: 0 <= i < |text| ==> text[i] != '\0'
    requires AfterChecksum()[at - 156..at - 156 + n] == TextField(text, n)
    ensures TextAt(Header(name, size, mtime), at, n) == text
    ensures forall i :: at + |text| <= i < at + n ==> Header(name, size, mtime)[i] == '\0'
  {
    BehindChecksum(name, size, mtime, at - 156, at - 156 + n);
    TextIn(Header(name, size, mtime), at, n, text);
  }
}
