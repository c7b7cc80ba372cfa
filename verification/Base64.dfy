/** The Base64 encoder, and the decoder of section 4 of RFC 4648 as its specification. */
module Base64 {
  import opened Bytes

  const UPPERCASE: string := "ABCDEFGHIJKLMNOPQRSTUVWXYZ"
  const LOWERCASE: string := "abcdefghijklmnopqrstuvwxyz"
  const OTHERS: string := "0123456789+/="
  const ALPHABET: string := UPPERCASE + LOWERCASE + OTHERS

  /** A byte's value; `char` is signed in the source, but only the low eight bits are ever used. */
  function Code(c: char): (n: nat)
    ensures n < 256
  {
    c as int % 256
  }

  function Symbol(i: nat): char
    requires i < 65
  {
    if i < 26 then 'A' + i as char
    else if i < 52 then 'a' + (i - 26) as char
    else if i < 62 then '0' + (i - 52) as char
    else if i == 62 then '+'
    else if i == 63 then '/'
    else '='
  }

  function Encode(s: string): (t: string)
    ensures |t| == 4 * ((|s| + 2) / 3)
  {
    if |s| >= 3 then Group3(s[0], s[1], s[2]) + Encode(s[3..])
    else if |s| == 2 then Group2(s[0], s[1])
    else if |s| == 1 then Group1(s[0])
    else ""
  }

  function Group3(a: char, b: char, c: char): string {
    [Symbol(Code(a) / 4),
     Symbol(Code(a) % 4 * 16 + Code(b) / 16),
     Symbol(Code(b) % 16 * 4 + Code(c) / 64),
     Symbol(Code(c) % 64)]
  }

  function Group2(a: char, b: char): string {
    [Symbol(Code(a) / 4), Symbol(Code(a) % 4 * 16 + Code(b) / 16), Symbol(Code(b) % 16 * 4), Symbol(64)]
  }

  function Group1(a: char): string {
    [Symbol(Code(a) / 4), Symbol(Code(a) % 4 * 16), Symbol(64), Symbol(64)]
  }

  // ----- The decoder

  function Value(c: char): (n: nat)
    ensures n < 64
  {
    if 'A' <= c <= 'Z' then c as int - 'A' as int
    else if 'a' <= c <= 'z' then c as int - 'a' as int + 26
    else if '0' <= c <= '9' then c as int - '0' as int + 52
    else if c == '+' then 62
    else if c == '/' then 63
    else 0
  }

  function Byte(n: nat): char {
    (n % 256) as char
  }

  function DecodeGroup(t: string): string
    requires |t| == 4
  {
    var a := Byte(Value(t[0]) * 4 + Value(t[1]) / 16);
    var b := Byte(Value(t[1]) % 16 * 16 + Value(t[2]) / 4);
    var c := Byte(Value(t[2]) % 4 * 64 + Value(t[3]));
    if t[2] == '=' then [a] else if t[3] == '=' then [a, b] else [a, b, c]
  }

  function Decode(t: string): string {
    if |t| < 4 then "" else DecodeGroup(t[..4]) + Decode(t[4..])
  }

  lemma ValueOfSymbol(i: nat)
    requires i < 64
    ensures Value(Symbol(i)) == i && Symbol(i) != '='
  {
  }

  /** The range form of `Symbol` is the source's table. */
  lemma SymbolIsTableEntry(i: nat)
    requires i < 65
    ensures |ALPHABET| == 65 && ALPHABET[i] == Symbol(i)
  {
    if i < 26 {
      assert ALPHABET[i] == UPPERCASE[i];
    } else if i < 52 {
      assert ALPHABET[i] == LOWERCASE[i - 26];
    } else {
      assert ALPHABET[i] == OTHERS[i - 52];
    }
  }

  lemma SextetsHoldBytes(x: nat, y: nat, z: nat)
    requires x < 256 && y < 256 && z < 256
    ensures x / 4 * 4 + (x % 4 * 16 + y / 16) / 16 == x
    ensures (x % 4 * 16 + y / 16) % 16 * 16 + (y % 16 * 4 + z / 64) / 4 == y
    ensures (y % 16 * 4 + z / 64) % 4 * 64 + z % 64 == z
  {
  }

  lemma GroupDecodes(i: nat, j: nat, k: nat, l: nat)
    requires i < 64 && j < 64 && k < 64 && l < 64
    ensures DecodeGroup([Symbol(i), Symbol(j), Symbol(k), Symbol(l)])
         == [Byte(i * 4 + j / 16), Byte(j % 16 * 16 + k / 4), Byte(k % 4 * 64 + l)]
    ensures DecodeGroup([Symbol(i), Symbol(j), Symbol(k), Symbol(64)])
         == [Byte(i * 4 + j / 16), Byte(j % 16 * 16 + k / 4)]
    ensures DecodeGroup([Symbol(i), Symbol(j), Symbol(64), Symbol(64)]) == [Byte(i * 4 + j / 16)]
  {
    ValueOfSymbol(i);
    ValueOfSymbol(j);
    ValueOfSymbol(k);
    ValueOfSymbol(l);
  }

  lemma ByteOfCode(c: char)
    requires c as int < 256
    ensures Byte(Code(c)) == c
  {
  }

  lemma Group3Bytes(x: nat, y: nat, z: nat)
    requires x < 256 && y < 256 && z < 256
    ensures DecodeGroup([Symbol(x / 4), Symbol(x % 4 * 16 + y / 16), Symbol(y % 16 * 4 + z / 64), Symbol(z % 64)])
         == [Byte(x), Byte(y), Byte(z)]
  {
    var i, j, k, l := x / 4, x % 4 * 16 + y / 16, y % 16 * 4 + z / 64, z % 64;
    GroupDecodes(i, j, k, l);
    assert i * 4 + j / 16 == x && j % 16 * 16 + k / 4 == y && k % 4 * 64 + l == z by {
      SextetsHoldBytes(x, y, z);
    }
  }

  lemma Group3Decodes(a: char, b: char, c: char)
    requires a as int < 256 && b as int < 256 && c as int < 256
    ensures DecodeGroup(Group3(a, b, c)) == [a, b, c]
  {
    Group3Bytes(Code(a), Code(b), Code(c));
    ByteOfCode(a);
    ByteOfCode(b);
    ByteOfCode(c);
  }

  lemma Group2Decodes(a: char, b: char)
    requires a as int < 256 && b as int < 256
    ensures DecodeGroup(Group2(a, b)) == [a, b]
  {
    Group2Bytes(Code(a), Code(b));
    ByteOfCode(a);
    ByteOfCode(b);
  }

  lemma Group2Bytes(x: nat, y: nat)
    requires x < 256 && y < 256
    ensures DecodeGroup([Symbol(x / 4), Symbol(x % 4 * 16 + y / 16), Symbol(y % 16 * 4), Symbol(64)]) == [Byte(x), Byte(y)]
  {
    var i, j, k := x / 4, x % 4 * 16 + y / 16, y % 16 * 4;
    GroupDecodes(i, j, k, 0);
    assert i * 4 + j / 16 == x && j % 16 * 16 + k / 4 == y by {
      SextetsHoldBytes(x, y, 0);
    }
  }

  lemma Group1Decodes(a: char)
    requires a as int < 256
    ensures DecodeGroup(Group1(a)) == [a]
  {
    var x := Code(a);
    ByteOfCode(a);
    SextetsHoldBytes(x, 0, 0);
    GroupDecodes(x / 4, x % 4 * 16, 0, 0);
  }

  /** Decoding gives back every byte string. */
  lemma {:induction false} DecodeEncode(s: string)
    requires IsByteString(s)
    ensures Decode(Encode(s)) == s
  {
    if |s| >= 3 {
      var t := Encode(s[3..]);
      DecodeEncode(s[3..]);
      Group3Decodes(s[0], s[1], s[2]);
      assert Encode(s)[..4] == Group3(s[0], s[1], s[2]) && Encode(s)[4..] == t;
    } else if |s| == 2 {
      Group2Decodes(s[0], s[1]);
      assert Encode(s)[..4] == Encode(s);
    } else if |s| == 1 {
      Group1Decodes(s[0]);
      assert Encode(s)[..4] == Encode(s);
    }
  }

  lemma {:induction false} EncodeIsPrintable(s: string)
    ensures AllPrintable(Encode(s))
  {
    if |s| >= 3 {
      EncodeIsPrintable(s[3..]);
    }
  }

  /** The encoding of `src[..from]` is in place behind `at`, and nothing else has changed. */
  ghost predicate EncodedSoFar(now: string, was: string, at: nat, n: nat, src: string, from: nat) {
    && |now| == |was| && from <= |src|
    && n + |Encode(src[from..])| == |Encode(src)| && at + |Encode(src)| <= |now|
    && now[..at] == was[..at] && now[at + n..] == was[at + n..]
    && now[at..at + n] + Encode(src[from..]) == Encode(src)
  }

  lemma EncodedMore(now: string, next: string, was: string, at: nat, n: nat, src: string, from: nat, k: nat, group: string)
    requires EncodedSoFar(now, was, at, n, src, from)
    requires from + k <= |src| && |group| == 4 && Encode(src[from..]) == group + Encode(src[from + k..])
    requires |next| == |now| && next[..at + n] == now[..at + n] && next[at + n + 4..] == now[at + n + 4..]
    requires next[at + n..at + n + 4] == group
    ensures EncodedSoFar(next, was, at, n + 4, src, from + k)
  {
    OneGroupMore(now, next, at, n, group);
    assert now[at + n..][4..] == was[at + n..][4..];
    Regroup(now[at..at + n], group, Encode(src[from + k..]));
  }

  lemma OneGroupMore(now: string, next: string, at: nat, n: nat, group: string)
    requires |group| == 4 && |next| == |now| && at + n + 4 <= |now|
    requires next[..at + n] == now[..at + n] && next[at + n + 4..] == now[at + n + 4..]
    requires next[at + n..at + n + 4] == group
    ensures next[..at] == now[..at] && next[at + n + 4..] == now[at + n..][4..]
    ensures next[at..at + n + 4] == now[at..at + n] + group
  {
    assert next[..at] == next[..at + n][..at];
    assert now[at..at + n] == now[..at + n][at..];
    assert next[at..at + n + 4] == next[..at + n][at..] + group;
  }

  /** Writes one group of four symbols, the encoding of `k` more bytes. */
  method Put(dst: array<char>, at: nat, n: nat, group: string, ghost was: string, ghost src: string, ghost from: nat, ghost k: nat)
    requires EncodedSoFar(dst[..], was, at, n, src, from) && from + k <= |src|
    requires |group| == 4 && Encode(src[from..]) == group + Encode(src[from + k..])
    modifies dst
    ensures EncodedSoFar(dst[..], was, at, n + 4, src, from + k)
  {
    ghost var now := dst[..];
    forall i | 0 <= i < 4 {
      dst[at + n + i] := group[i];
    }
    EncodedMore(now, dst[..], was, at, n, src, from, k, group);
  }

  lemma EncodeNext(src: string, from: nat)
    requires from + 3 <= |src|
    ensures Encode(src[from..]) == Group3(src[from], src[from + 1], src[from + 2]) + Encode(src[from + 3..])
  {
    assert src[from..][3..] == src[from + 3..];
  }

  /** Encodes `src` into the cells from `at` on and touches no other cell. */
  method EncodeInto(src: string, dst: array<char>, at: nat) returns (n: nat)
    requires at + |Encode(src)| <= dst.Length
    modifies dst
    ensures n == |Encode(src)|
    ensures dst[at..at + n] == Encode(src)
    ensures dst[..at] == old(dst[..at]) && dst[at + n..] == old(dst[at + n..])
  {
    ghost var was := dst[..];
    var from;
    n, from := EncodeGroups(src, dst, at);
    n := EncodeTail(src, dst, at, n, from, was);
  }

  /** Every three bytes, as long as there are three. */
  method EncodeGroups(src: string, dst: array<char>, at: nat) returns (n: nat, from: nat)
    requires at + |Encode(src)| <= dst.Length
    modifies dst
    ensures EncodedSoFar(dst[..], old(dst[..]), at, n, src, from) && |src| - from < 3
  {
    ghost var was := dst[..];
    var remaining := |src|;
    n, from := 0, 0;
    assert src[0..] == src && was[at..at] == "";
    while remaining >= 3
      invariant remaining == |src| - from && EncodedSoFar(dst[..], was, at, n, src, from)
    {
      EncodeNext(src, from);
      Put(dst, at, n, Group3(src[from], src[from + 1], src[from + 2]), was, src, from, 3);
      from, n, remaining := from + 3, n + 4, remaining - 3;
    }
  }

  /** The last one or two bytes, padded. */
  method EncodeTail(src: string, dst: array<char>, at: nat, before: nat, read: nat, ghost was: string) returns (n: nat)
    requires EncodedSoFar(dst[..], was, at, before, src, read) && |src| - read < 3
    modifies dst
    ensures n == |Encode(src)| && dst[at..at + n] == Encode(src)
    ensures dst[..at] == was[..at] && dst[at + n..] == was[at + n..]
  {
    var from, remaining := read, |src| - read;
    n := before;
    if remaining >= 2 {
      Put(dst, at, n, Group2(src[from], src[from + 1]), was, src, from, 2);
      from, n, remaining := from + 2, n + 4, remaining - 2;
    }
    if remaining >= 1 {
      Put(dst, at, n, Group1(src[from]), was, src, from, 1);
      from, n, remaining := from + 1, n + 4, remaining - 1;
    }
    EncodedAll(dst[..], was, at, n, src, from);
  }

  lemma EncodedAll(now: string, was: string, at: nat, n: nat, src: string, from: nat)
    requires EncodedSoFar(now, was, at, n, src, from) && from == |src|
    ensures n == |Encode(src)| && now[at..at + n] == Encode(src)
    ensures now[..at] == was[..at] && now[at + n..] == was[at + n..]
  {
    assert src[from..] == "";
  }
}
