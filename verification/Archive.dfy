/** The container a committed message is kept in, and a reader that takes it apart. */
module Archive {
  import opened Bytes
  import opened Tar

  const MESSAGE_NAME: string := "message.mbox"
  const METADATA_NAME: string := "metadata.ervan"

  /** What is written behind a member: up to the next block, or a whole block where one just ended. */
  function Padding(size: nat): (s: string)
    ensures |s| == 512 - size % 512 && forall i :: 0 <= i < |s| ==> s[i] == '\0'
  {
    Zeros(BLOCK - size % BLOCK)
  }

  function Member1(content: string, time: int): string {
    Header(MESSAGE_NAME, |content|, time) + content + Padding(BLOCK + |content|)
  }

  /** The second member starts where a block starts, so only its own length decides its padding. */
  function Member2(text: string, time: int): string {
    Header(METADATA_NAME, |text|, time) + text + Padding(|text|)
  }

  function Container(content: string, text: string, time1: int, time2: int): string {
    Member1(content, time1) + Member2(text, time2)
  }

  // ----- A tar reader

  datatype Member = Member(name: string, content: string)

  predicate IsZero(block: string) {
    forall i :: 0 <= i < |block| ==> block[i] == '\0'
  }

  datatype Reading = End | Found(member: Member, rest: string)

  /** The first member, unless there is a block of zeros, a broken checksum or a truncated member. */
  function ReadFirst(bytes: string): (r: Reading)
    ensures r.Found? ==> |r.rest| < |bytes|
  {
    if |bytes| < BLOCK || IsZero(bytes[..BLOCK]) || !ChecksumHolds(bytes[..BLOCK]) then End
    else
      var size := NumberAt(bytes[..BLOCK], 124, 12);
      if |bytes| < BLOCK + size then End
      else Found(Member(TextAt(bytes[..BLOCK], 0, 100), bytes[BLOCK..BLOCK + size]),
                 Skip(bytes[BLOCK + size..], Gap(size)))
  }

  function Skip(bytes: string, n: nat): string {
    if n <= |bytes| then bytes[n..] else ""
  }

  function ReadArchive(bytes: string): seq<Member>
    decreases |bytes|
  {
    match ReadFirst(bytes)
    case End => []
    case Found(member, rest) => [member] + ReadArchive(rest)
  }

  /** From the end of a member to the next block. */
  function Gap(size: nat): nat {
    (BLOCK - size % BLOCK) % BLOCK
  }

  // ----- Headers read back

  predicate IsMemberName(name: string) {
    0 < |name| < 100 && forall i :: 0 <= i < |name| ==> '\0' < name[i] <= '~'
  }

  lemma NameReadsBack(name: string, size: int, time: int)
    requires IsMemberName(name)
    ensures TextAt(Header(name, size, time), 0, 100) == name
    ensures !IsZero(Header(name, size, time))
  {
    var h := Header(name, size, time);
    var field := TextField(name, 100);
    assert h[..100] == field;
    assert "" + field + h[100..] == h;
    TextReadsBack(name, 100, "", h[100..]);
    assert h[0] == field[0] == name[0];
  }

  lemma SizeReadsBack(name: string, size: int, time: int)
    ensures NumberAt(Header(name, size, time), 124, 12) == size % SIZE_LIMIT
  {
    var h := Header(name, size, time);
    var b := TextField(name, 100) + MODE_FIELD + ZERO_FIELD + ZERO_FIELD;
    assert h[..148] == b + OctalField(size, 12) + OctalField(time, 12);
    assert h[..124] == h[..148][..124] == b;
    assert h[124..136] == h[..148][124..136] == OctalField(size, 12);
    assert b + OctalField(size, 12) + h[136..] == h;
    NumberReadsBack(size, 12, b, h[136..]);
    SizeLimitIs();
  }

  /** A block a reader takes for the header of a member. */
  predicate IsHeader(h: string, name: string, size: nat) {
    && |h| == BLOCK && !IsZero(h) && ChecksumHolds(h)
    && TextAt(h, 0, 100) == name && NumberAt(h, 124, 12) == size
  }

  lemma HeaderReadsBack(name: string, size: int, time: int)
    requires IsMemberName(name)
    ensures IsHeader(Header(name, size, time), name, size % SIZE_LIMIT)
  {
    NameReadsBack(name, size, time);
    SizeReadsBack(name, size, time);
    ChecksumIsConsistent(name, size, time);
  }

  // ----- Members read back

  lemma ModSmaller(n: nat, d: nat)
    requires d > 0
    ensures n < d ==> n % d == n
    ensures n >= d ==> n % d < n
  {
  }

  lemma ReadMember(h: string, name: string, content: string, tail: string)
    requires IsHeader(h, name, |content|)
    ensures ReadFirst(h + content + tail) == Found(Member(name, content), Skip(tail, Gap(|content|)))
  {
    ThreeParts(h, content, tail);
  }

  /** A header that says too little cuts its member short. */
  lemma ReadShortMember(h: string, name: string, size: nat, content: string, tail: string)
    requires IsHeader(h, name, size) && size < |content|
    ensures var r := ReadFirst(h + content + tail); r.Found? && |r.member.content| < |content|
  {
    ThreeParts(h, content, tail);
  }

  lemma ZerosEndArchive(n: nat)
    ensures ReadFirst(Zeros(n)) == End
  {
  }

  lemma ZerosThenAnything(tail: string)
    ensures ReadFirst(Zeros(BLOCK) + tail) == End
  {
    Parts(Zeros(BLOCK), tail);
  }

  /** The padding of the last member is skipped, or is itself the end. */
  lemma SkipPadding(n: nat)
    ensures ReadArchive(Skip(Padding(n), Gap(n))) == []
  {
    var rest := Skip(Padding(n), Gap(n));
    assert rest == Zeros(|rest|);
    ZerosEndArchive(|rest|);
  }

  lemma ShortMemberDiffers(m: Member, more: seq<Member>, expected: seq<Member>)
    requires expected != [] && |m.content| < |expected[0].content|
    ensures [m] + more != expected
  {
    assert ([m] + more)[0] == m;
  }

  lemma ReadLastMember(h: string, name: string, text: string, size: nat)
    requires IsHeader(h, name, size) && size == |text| % SIZE_LIMIT
    ensures ReadArchive(h + text + Padding(|text|)) == [Member(name, text)] <==> |text| < SIZE_LIMIT
  {
    ModSmaller(|text|, SIZE_LIMIT);
    if |text| < SIZE_LIMIT {
      ReadMember(h, name, text, Padding(|text|));
      SkipPadding(|text|);
    } else {
      ReadShortMember(h, name, size, text, Padding(|text|));
      var r := ReadFirst(h + text + Padding(|text|));
      ShortMemberDiffers(r.member, ReadArchive(r.rest), [Member(name, text)]);
    }
  }

  /** A whole block of padding is not skipped: it ends the archive. */
  lemma SkipFirstPadding(n: nat, tail: string)
    ensures var rest := Skip(Padding(BLOCK + n) + tail, Gap(n));
      if n % BLOCK == 0 then ReadFirst(rest) == End else rest == tail
  {
    var pad := Padding(BLOCK + n);
    if n % BLOCK == 0 {
      assert pad == Zeros(BLOCK) && Gap(n) == 0;
      assert (pad + tail)[0..] == pad + tail;
      ZerosThenAnything(tail);
    } else {
      GapIsPadding(n);
      SkipAll(pad, tail);
    }
  }

  lemma GapIsPadding(n: nat)
    requires n % BLOCK != 0
    ensures Gap(n) == |Padding(BLOCK + n)|
  {
  }

  lemma SkipAll(pad: string, tail: string)
    ensures Skip(pad + tail, |pad|) == tail
  {
  }

  lemma ReadFirstMember(h: string, name: string, content: string, tail: string)
    requires IsHeader(h, name, |content|)
    ensures ReadArchive(h + content + Padding(BLOCK + |content|) + tail)
         == [Member(name, content)] + (if |content| % BLOCK == 0 then [] else ReadArchive(tail))
  {
    var pad := Padding(BLOCK + |content|);
    Regroup(h + content, pad, tail);
    ReadMember(h, name, content, pad + tail);
    SkipFirstPadding(|content|, tail);
  }

  lemma ReadTwoMembers(h1: string, h2: string, content: string, text: string)
    requires IsHeader(h1, MESSAGE_NAME, |content| % SIZE_LIMIT)
    requires IsHeader(h2, METADATA_NAME, |text| % SIZE_LIMIT)
    ensures ReadArchive(h1 + content + Padding(BLOCK + |content|) + (h2 + text + Padding(|text|)))
            == [Member(MESSAGE_NAME, content), Member(METADATA_NAME, text)]
       <==> |content| % BLOCK != 0 && |content| < SIZE_LIMIT && |text| < SIZE_LIMIT
  {
    var pad, tail := Padding(BLOCK + |content|), h2 + text + Padding(|text|);
    ModSmaller(|content|, SIZE_LIMIT);
    if |content| < SIZE_LIMIT {
      ReadFirstMember(h1, MESSAGE_NAME, content, tail);
      ReadLastMember(h2, METADATA_NAME, text, |text| % SIZE_LIMIT);
      SecondOf(Member(MESSAGE_NAME, content), Member(METADATA_NAME, text), ReadArchive(tail));
    } else {
      Regroup(h1 + content, pad, tail);
      ReadShortMember(h1, MESSAGE_NAME, |content| % SIZE_LIMIT, content, pad + tail);
      var r := ReadFirst(h1 + content + (pad + tail));
      ShortMemberDiffers(r.member, ReadArchive(r.rest), [Member(MESSAGE_NAME, content), Member(METADATA_NAME, text)]);
    }
  }

  lemma SecondOf(a: Member, b: Member, more: seq<Member>)
    ensures [a] + more == [a, b] <==> more == [b]
    ensures [a] + [] != [a, b]
  {
    assert ([a] + more)[1..] == more;
    assert [a, b][1..] == [b];
  }

  lemma AlignedMember(h1: string, content: string, tail: string)
    requires IsHeader(h1, MESSAGE_NAME, |content|) && |content| % BLOCK == 0
    ensures ReadArchive(h1 + content + Padding(BLOCK + |content|) + tail) == [Member(MESSAGE_NAME, content)]
  {
    ReadFirstMember(h1, MESSAGE_NAME, content, tail);
    assert [Member(MESSAGE_NAME, content)] + [] == [Member(MESSAGE_NAME, content)];
  }

  /** Behind a message that ends on a block boundary the reader finds nothing. */
  lemma AlignedContainer(content: string, text: string, time1: int, time2: int)
    requires |content| % BLOCK == 0 && |content| < SIZE_LIMIT
    ensures ReadArchive(Container(content, text, time1, time2)) == [Member("message.mbox", content)]
  {
    assert IsMemberName(MESSAGE_NAME);
    HeaderReadsBack(MESSAGE_NAME, |content|, time1);
    ModSmaller(|content|, SIZE_LIMIT);
    AlignedMember(Header(MESSAGE_NAME, |content|, time1), content, Member2(text, time2));
  }

  /** The reader recovers both members exactly when the message does not end on a block boundary and both
      sizes fit their eleven octal digits. A message that ends on a boundary is followed by a block of
      zeros, which ends the archive before the metadata. */
  lemma ContainerReadsBack(content: string, text: string, time1: int, time2: int)
    ensures ReadArchive(Container(content, text, time1, time2))
            == [Member("message.mbox", content), Member("metadata.ervan", text)]
       <==> |content| % BLOCK != 0 && |content| < SIZE_LIMIT && |text| < SIZE_LIMIT
  {
    assert IsMemberName(MESSAGE_NAME) && IsMemberName(METADATA_NAME);
    HeaderReadsBack(MESSAGE_NAME, |content|, time1);
    HeaderReadsBack(METADATA_NAME, |text|, time2);
    ReadTwoMembers(Header(MESSAGE_NAME, |content|, time1), Header(METADATA_NAME, |text|, time2), content, text);
  }
}
