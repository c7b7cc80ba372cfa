/** The scanning loops and fixed-size result buffers of the parser, proved against the functions of `Parse`. */
module ParseLoops {
  import opened Bytes
  import opened Parse

  /** Copies an accepted piece of text and its NUL into a result buffer, if it fits. */
  method Store(text: string, buffer: array<char>) returns (ok: bool)
    modifies buffer
    ensures ok <==> |text| < buffer.Length
    ensures ok ==> buffer[..|text|] == text && buffer[|text|] == '\0'
    ensures ok ==> buffer[|text| + 1..] == old(buffer[|text| + 1..])
    ensures !ok ==> buffer[..] == old(buffer[..])
  {
    if |text| >= buffer.Length {
      return false;
    }
    forall i | 0 <= i < |text| {
      buffer[i] := text[i];
    }
    buffer[|text|] := '\0';
    ok := true;
  }

  // ----- Domains

  /** Everything before `size` has been read and a label must start at `size`. */
  ghost predicate AtLabelStart(s: string, size: nat) {
    && size <= |s|
    && (forall i :: 0 <= i < size ==> IsDomainChar(s[i]))
    && (size > 0 ==> s[size - 1] == '.' && Dotted(s[..size - 1]))
  }

  ghost predicate InLabel(s: string, size: nat) {
    && 0 < size <= |s|
    && (forall i :: 0 <= i < size ==> IsDomainChar(s[i]))
    && Dotted(s[..size]) && IsLabelChar(s[size - 1])
  }

  lemma LabelGrows(s: string, size: nat)
    requires size < |s| && IsLabelChar(s[size])
    requires AtLabelStart(s, size) || InLabel(s, size)
    ensures InLabel(s, size + 1)
  {
    var d := s[..size + 1];
    forall i | 0 <= i < |d| ensures !DotsAt(d, i) {
      if InLabel(s, size) {
        assert i + 1 < size ==> (DotsAt(d, i) <==> DotsAt(s[..size], i));
      } else if size > 0 {
        var before := s[..size - 1];
        assert before[|before| - 1] == s[size - 2];
        assert i + 2 < size ==> (DotsAt(d, i) <==> DotsAt(before, i));
      }
    }
  }

  lemma LabelMissing(s: string, size: nat)
    requires AtLabelStart(s, size) && size < |s| && !IsLabelChar(s[size])
    ensures Domain(s) == None
  {
    var n := Span(s, IsDomainChar);
    var d := s[..n];
    assert n < |s| ==> !IsDomainChar(s[n]);
    if s[size] == '.' {
      assert size < n;
      if size > 0 {
        assert DotsAt(d, size - 1);
        assert size < n - 1 ==> DotsAt(d[..n - 1], size - 1);
        assert d[..n - 1][size - 1] == '.';
      }
    } else {
      SpanIs(s, IsDomainChar, size);
    }
  }

  method ScanDomain(src: string, buffer: array<char>) returns (r: Option<string>)
    requires buffer.Length == DOMAIN_MAX + 1
    modifies buffer
    ensures r == Domain(src)
    ensures r.Some? ==> buffer[..|r.value|] == r.value && buffer[|r.value|] == '\0'
  {
    var size, required := 0, true;
    while true
      invariant required && AtLabelStart(src, size)
      decreases |src| - size
    {
      while size < |src|
        invariant required ==> AtLabelStart(src, size)
        invariant !required ==> InLabel(src, size)
      {
        if !IsLabelChar(src[size]) {
          if required {
            LabelMissing(src, size);
            return None;
          }
          break;
        }
        LabelGrows(src, size);
        required := false;
        size := size + 1;
      }
      // The label ended, so the character here is not a '-' and the source's test for one cannot hold.
      if size == |src| || src[size] != '.' {
        break;
      }
      assert src[..size + 1][..size] == src[..size];
      required := true;
      size := size + 1;
    }
    SpanIs(src, IsDomainChar, size);
    assert size == |src| ==> src[..size] == src;
    assert required ==> size == |src| && DottedOpen(src[..size]);
    var ok := Store(src[..size], buffer);
    r := if ok then Some(src[..size]) else None;
  }

  // ----- Local parts

  method ScanAtom(src: string) returns (rest: Option<string>)
    ensures rest.None? <==> src == "" || !IsAtext(src[0])
    ensures rest.Some? ==> |rest.value| < |src| && rest.value == src[|src| - |rest.value|..]
    ensures rest.Some? ==> forall i :: 0 <= i < |src| - |rest.value| ==> IsAtext(src[i])
    ensures rest.Some? && |rest.value| > 0 ==> !IsAtext(rest.value[0])
  {
    if |src| == 0 || !IsAtext(src[0]) {
      return None;
    }
    var n := 1;
    while n < |src| && IsAtext(src[n])
      invariant n <= |src| && forall i :: 0 <= i < n ==> IsAtext(src[i])
    {
      n := n + 1;
    }
    return Some(src[n..]);
  }

  /** How many characters a quoted string has, once `n` of them are read and `left` remains. */
  function QuotedFrom(left: string, n: nat): Option<nat> {
    match QuotedTail(left) case Some(k) => Some(n + k) case None => None
  }

  lemma QuotedStep(src: string, n: nat)
    requires n < |src| && src[n] != '"'
    ensures QuotedFrom(src[n..], n) ==
            if src[n] == '\\' then
              (if n + 1 < |src| && IsPrintable(src[n + 1]) then QuotedFrom(src[n + 2..], n + 2) else None)
            else (if IsQtext(src[n]) then QuotedFrom(src[n + 1..], n + 1) else None)
  {
    assert n + 1 < |src| ==> src[n..][2..] == src[n + 2..];
    assert src[n..][1..] == src[n + 1..];
  }

  /** Scans to the closing quote. The character behind a backslash may be the NUL after the text. */
  method ScanQuotedString(src: string) returns (r: Option<nat>)
    ensures r == QuotedString(src)
  {
    if |src| == 0 || src[0] != '"' {
      return None;
    }
    var n := 1;
    while n < |src| && src[n] != '"'
      invariant 1 <= n <= |src|
      invariant QuotedString(src) == QuotedFrom(src[n..], n)
    {
      QuotedStep(src, n);
      if src[n] == '\\' {
        n := n + 1;
        var c := if n < |src| then src[n] else '\0';
        if !IsPrintable(c) {
          return None;
        }
      } else {
        if !IsQtext(src[n]) {
          return None;
        }
      }
      n := n + 1;
    }
    if n == |src| {
      return None;
    }
    return Some(n + 1);
  }

  /** The unescaping loop: `i` reads the quoted text, `j` writes the buffer, and `i` ends exactly on the
      closing quote. */
  method UnescapeInto(str: string, buffer: array<char>) returns (ok: bool)
    requires QuotedString(str) == Some(|str|)
    modifies buffer
    ensures ok <==> |str| < buffer.Length
    ensures ok ==> var text := Unescape(str[1..|str| - 1]);
      |text| < |str| && buffer[..|text|] == text && buffer[|text|] == '\0'
  {
    var size := |str|;
    if size >= buffer.Length {
      return false;
    }
    var i, j := 1, 0;
    ghost var text := "";
    while i < size - 1
      invariant j < i && Unescaped(str, i, text)
      invariant |text| == j && forall k :: 0 <= k < j ==> buffer[k] == text[k]
      decreases size - i
    {
      UnescapeNext(str, i, text);
      if str[i] == '\\' {
        i := i + 1;
      }
      buffer[j] := str[i];
      text := text + [str[i]];
      j := j + 1;
      i := i + 1;
    }
    buffer[j] := '\0';
    return true;
  }

  /** The quoted text up to `i` stands for `text`, and what is left still ends with the closing quote. */
  ghost predicate Unescaped(str: string, i: int, text: string) {
    && 1 <= i < |str|
    && QuotedTail(str[i..]) == Some(|str| - i)
    && Unescape(str[1..|str| - 1]) == text + Unescape(str[i..|str| - 1])
  }

  lemma UnescapeNext(str: string, i: nat, text: string)
    requires i < |str| - 1 && Unescaped(str, i, text)
    ensures var k := if str[i] == '\\' then 2 else 1;
      i + k < |str| && Unescaped(str, i + k, text + [str[i + k - 1]])
  {
    var k := if str[i] == '\\' then 2 else 1;
    var s := str[i..|str| - 1];
    assert str[i..][k..] == str[i + k..];
    assert s[k..] == str[i + k..|str| - 1];
    var left := Unescape(s[k..]);
    assert Unescape(s) == [s[k - 1]] + left;
    assert text + ([s[k - 1]] + left) == text + [s[k - 1]] + left;
  }

  /** Everything before `n` has been read and an atom must start at `n`. */
  ghost predicate AtAtomStart(s: string, n: nat) {
    && n <= |s|
    && (forall i :: 0 <= i < n ==> IsLocalChar(s[i]))
    && (n > 0 ==> s[n - 1] == '.' && Dotted(s[..n - 1]))
  }

  ghost predicate AfterAtom(s: string, n: nat) {
    n <= |s| && (forall i :: 0 <= i < n ==> IsLocalChar(s[i])) && Dotted(s[..n])
  }

  lemma AtomMissing(s: string, n: nat)
    requires AtAtomStart(s, n) && (n < |s| ==> !IsAtext(s[n]))
    requires QuotedString(s) == None
    ensures LocalPart(s) == None
  {
    var m := Span(s, IsLocalChar);
    assert m < |s| ==> !IsLocalChar(s[m]);
    if n < |s| && s[n] == '.' {
      assert n > 0 ==> DotsAt(s[..m], n - 1);
    } else {
      SpanIs(s, IsLocalChar, n);
    }
  }

  lemma AtomGrows(s: string, start: nat, n: nat)
    requires AtAtomStart(s, start) && start < n <= |s|
    requires forall i :: 0 <= i < n - start ==> IsAtext(s[start..][i])
    ensures AfterAtom(s, n)
    ensures n < |s| && s[n] == '.' ==> AtAtomStart(s, n + 1)
  {
    var d := s[..n];
    assert forall i :: start <= i < n ==> s[i] == s[start..][i - start];
    forall i | 0 <= i < |d| ensures !DotsAt(d, i) {
      assert i + 2 < start ==> (DotsAt(d, i) <==> DotsAt(s[..start - 1], i));
    }
    assert n < |s| ==> s[..n + 1][..n] == d;
  }

  /** Atom, dot, atom, ...: the length of a dot-string. */
  method MeasureDotString(src: string) returns (length: Option<nat>)
    ensures length.None? ==> QuotedString(src) == None ==> LocalPart(src) == None
    ensures length.Some? ==> AfterAtom(src, length.value) && (length.value < |src| ==> !IsLocalChar(src[length.value]))
  {
    var n := 0;
    while true
      invariant 0 <= n <= |src| && AtAtomStart(src, n)
      decreases |src| - n
    {
      var rest := ScanAtom(src[n..]);
      if rest.None? {
        if QuotedString(src) == None {
          AtomMissing(src, n);
        }
        return None;
      }
      ghost var start := n;
      n := |src| - |rest.value|;
      AtomGrows(src, start, n);
      if n == |src| || src[n] != '.' {
        return Some(n);
      }
      n := n + 1;
    }
  }

  method ScanLocalPart(src: string, buffer: array<char>) returns (r: Option<Local>)
    requires buffer.Length == LOCAL_PART_MAX + 1
    modifies buffer
    ensures r == LocalPart(src)
    ensures r.Some? ==> var text := r.value.text;
      |text| < buffer.Length && buffer[..|text|] == text && buffer[|text|] == '\0'
  {
    var quoted := ScanQuotedString(src);
    if quoted.Some? {
      var body := src[..quoted.value];
      QuotedPrefix(src, quoted.value);
      var ok := UnescapeInto(body, buffer);
      assert body[1..quoted.value - 1] == src[1..quoted.value - 1];
      return if ok then Some(Local(body, Unescape(body[1..quoted.value - 1]))) else None;
    }
    var length := MeasureDotString(src);
    if length.None? {
      return None;
    }
    SpanIs(src, IsLocalChar, length.value);
    var dots := src[..length.value];
    var ok := Store(dots, buffer);
    return if ok then Some(Local(dots, dots)) else None;
  }

  lemma {:induction false} QuotedTailPrefix(s: string, n: nat)
    requires QuotedTail(s) == Some(n)
    ensures QuotedTail(s[..n]) == Some(n)
    decreases n
  {
    if s[0] != '"' {
      var k := if s[0] == '\\' then 2 else 1;
      QuotedTailPrefix(s[k..], n - k);
      assert s[..n][k..] == s[k..][..n - k];
    }
  }

  lemma QuotedPrefix(s: string, n: nat)
    requires QuotedString(s) == Some(n)
    ensures QuotedString(s[..n]) == Some(n)
  {
    QuotedTailPrefix(s[1..], n - 1);
    assert s[..n][1..] == s[1..][..n - 1];
  }

  method ScanAtDomain(src: string) returns (r: Option<string>)
    ensures r == AtDomain(src)
  {
    var buffer := new char[DOMAIN_MAX + 1];
    if |src| == 0 || src[0] != '@' {
      return None;
    }
    r := ScanDomain(src[1..], buffer);
  }

  // ----- Source routes

  method ScanRoute(src: string) returns (rest: Option<string>)
    ensures rest == Route(src)
  {
    var domain := ScanAtDomain(src);
    if domain.None? {
      return Some(src);
    }
    var left := src[1 + |domain.value|..];
    while |left| > 0 && left[0] == ','
      invariant RouteTail(left) == Route(src)
      decreases |left|
    {
      domain := ScanAtDomain(left[1..]);
      if domain.None? {
        return None;
      }
      left := left[2 + |domain.value|..];
    }
    if |left| == 0 || left[0] != ':' {
      return None;
    }
    return Some(left[1..]);
  }

  // ----- Mailboxes and paths

  method ScanLocalAtDomain(src: string) returns (r: Option<MailboxResult>)
    ensures r == LocalAtDomain(src)
  {
    var localBuffer := new char[LOCAL_PART_MAX + 1];
    var local := ScanLocalPart(src, localBuffer);
    if local.None? {
      return None;
    }
    var at := |local.value.body|;
    var domain := ScanAtDomain(src[at..]);
    if domain.None? {
      return None;
    }
    var end := at + 1 + |domain.value|;
    return Some(MailboxResult(local.value, domain.value, src[..end], src[end..]));
  }

  method ScanMailbox(src: string) returns (r: Option<MailboxResult>)
    ensures r == Mailbox(src)
  {
    var route := ScanRoute(src);
    r := ScanLocalAtDomain(if route.Some? then route.value else "");
  }

  method ScanInBrackets(src: string) returns (r: Option<MailboxResult>)
    requires src != ""
    ensures r == Closed(Mailbox(src[1..]))
  {
    r := ScanMailbox(src[1..]);
    if r.None? || r.value.rest == "" || r.value.rest[0] != '>' {
      return None;
    }
    return Some(r.value.(rest := r.value.rest[1..]));
  }

  method ScanPath(src: string) returns (r: Option<MailboxResult>)
    ensures r == Path(src)
  {
    if |src| == 0 || src[0] != '<' {
      return None;
    }
    r := ScanInBrackets(src);
  }

  method ScanReversePath(src: string) returns (r: Option<MailboxResult>)
    ensures r == ReversePath(src)
  {
    if |src| < 2 || src[0] != '<' {
      return None;
    }
    if src[1] == '>' {
      return Some(MailboxResult(Local("", ""), "", "", src[2..]));
    }
    r := ScanInBrackets(src);
  }

  // ----- ESMTP parameters

  method ScanKeyword(src: string) returns (r: Option<string>)
    ensures r == Keyword(src)
  {
    if |src| == 0 || !IsAlnum(src[0]) {
      return None;
    }
    var size := 1;
    while size < |src| && IsLabelChar(src[size])
      invariant size <= |src| && forall i :: 0 <= i < size ==> IsLabelChar(src[i])
    {
      size := size + 1;
    }
    SpanIs(src, IsLabelChar, size);
    return Some(src[..size]);
  }

  method ScanParamValue(src: string) returns (r: Option<string>)
    ensures r == ParamValue(src)
  {
    if |src| == 0 || !IsParamValueChar(src[0]) {
      return None;
    }
    var size := 1;
    while size < |src| && IsParamValueChar(src[size])
      invariant size <= |src| && forall i :: 0 <= i < size ==> IsParamValueChar(src[i])
    {
      size := size + 1;
    }
    SpanIs(src, IsParamValueChar, size);
    return Some(src[..size]);
  }

  method ScanParam(src: string) returns (r: Option<Param>)
    ensures r == EsmtpParam(src)
  {
    var key := ScanKeyword(src);
    if key.None? {
      return None;
    }
    var left := src[|key.value|..];
    if |left| == 0 || left[0] != '=' {
      return None;
    }
    var value := ScanParamValue(left[1..]);
    if value.None? {
      return None;
    }
    return Some(Param(key.value, value.value, left[1 + |value.value|..]));
  }

  method CompareInsensitive(a: string, b: string) returns (same: bool)
    ensures same == EqualsIgnoringCase(a, b)
  {
    if |a| != |b| {
      return false;
    }
    for i := 0 to |a|
      invariant forall j :: 0 <= j < i ==> ToLower(a[j]) == ToLower(b[j])
    {
      if ToLower(a[i]) != ToLower(b[i]) {
        return false;
      }
    }
    return true;
  }
}
