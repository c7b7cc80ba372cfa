/** The parser's character tables, letter case and size limits, spelled out. */
module Tables {
  import opened Bytes
  import opened Parse
  import opened PathGrammar
  import opened MailParameters

  const CAPITALS: string := "ABCDEFGHIJKLMNOPQRSTUVWXYZ"
  const SMALLS: string := "abcdefghijklmnopqrstuvwxyz"
  const DIGITS: string := "0123456789"
  const MARKS: string := "!#$%&'*+-/=?^_`{|}~"

  // ----- Characters

  lemma LetterAt(i: nat)
    requires i < 26
    ensures CAPITALS[i] == 'A' + i as char && SMALLS[i] == 'a' + i as char
  {
  }

  lemma DigitAt(i: nat)
    requires i < 10
    ensures DIGITS[i] == '0' + i as char
  {
  }

  lemma CapitalIs(c: char)
    ensures c in CAPITALS <==> 'A' <= c <= 'Z'
  {
    if c in CAPITALS {
      var i :| 0 <= i < |CAPITALS| && CAPITALS[i] == c;
      LetterAt(i);
    }
    if 'A' <= c <= 'Z' {
      LetterAt(c as int - 'A' as int);
    }
  }

  lemma SmallIs(c: char)
    ensures c in SMALLS <==> 'a' <= c <= 'z'
  {
    if c in SMALLS {
      var i :| 0 <= i < |SMALLS| && SMALLS[i] == c;
      LetterAt(i);
    }
    if 'a' <= c <= 'z' {
      LetterAt(c as int - 'a' as int);
    }
  }

  lemma DigitIs(c: char)
    ensures c in DIGITS <==> '0' <= c <= '9'
  {
    if c in DIGITS {
      var i :| 0 <= i < |DIGITS| && DIGITS[i] == c;
      DigitAt(i);
    }
    if '0' <= c <= '9' {
      DigitAt(c as int - '0' as int);
    }
  }

  /** Letters and digits are the 62 listed ones. */
  lemma AlnumIs(c: char)
    ensures IsAlnum(c) <==> c in CAPITALS || c in SMALLS || c in DIGITS
  {
    CapitalIs(c);
    SmallIs(c);
    DigitIs(c);
  }

  lemma MarkIs(c: char)
    ensures c in MARKS <==>
      || c == '!' || '#' <= c <= '\'' || c == '*' || c == '+' || c == '-' || c == '/' || c == '=' || c == '?'
      || '^' <= c <= '`' || '{' <= c <= '~'
  {
    assert MARKS[0] == '!' && MARKS[1] == '#' && MARKS[2] == '$' && MARKS[3] == '%' && MARKS[4] == '&';
    assert MARKS[5] == '\'' && MARKS[6] == '*' && MARKS[7] == '+' && MARKS[8] == '-' && MARKS[9] == '/';
    assert MARKS[10] == '=' && MARKS[11] == '?' && MARKS[12] == '^' && MARKS[13] == '_' && MARKS[14] == '`';
    assert MARKS[15] == '{' && MARKS[16] == '|' && MARKS[17] == '}' && MARKS[18] == '~';
  }

  /** The characters of an atom are letters, digits and the nineteen marks of the source's table. */
  lemma AtextIs(c: char)
    ensures IsAtext(c) <==> c in CAPITALS || c in SMALLS || c in DIGITS || c in MARKS
  {
    AlnumIs(c);
    MarkIs(c);
  }

  /** The other classes, by code. */
  lemma CodesAre(c: char)
    ensures IsQtext(c) <==> 32 <= c as int <= 33 || 35 <= c as int <= 91 || 93 <= c as int <= 126
    ensures IsParamValueChar(c) <==> 33 <= c as int <= 60 || 62 <= c as int <= 126
    ensures IsPrintable(c) <==> 32 <= c as int <= 126
    ensures IsLabelChar(c) <==> c in CAPITALS || c in SMALLS || c in DIGITS || c as int == 45
    ensures IsDomainChar(c) <==> IsLabelChar(c) || c as int == 46
    ensures IsLocalChar(c) <==> IsAtext(c) || c as int == 46
  {
    AlnumIs(c);
  }

  // ----- Letter case

  /** The two alphabets are mapped to each other, letter by letter. */
  lemma LettersMatch(i: nat)
    requires i < 26
    ensures ToLower(CAPITALS[i]) == SMALLS[i] && ToUpper(SMALLS[i]) == CAPITALS[i]
  {
    LetterAt(i);
  }

  /** Everything else is its own capital and its own small letter. */
  lemma OthersStay(c: char)
    ensures c !in CAPITALS ==> ToLower(c) == c
    ensures c !in SMALLS ==> ToUpper(c) == c
  {
    CapitalIs(c);
    SmallIs(c);
  }

  /** `word` with every letter either as in `small` or as in `capital`. */
  predicate Spelled(word: string, small: string, capital: string) {
    |word| == |small| == |capital| && forall i :: 0 <= i < |word| ==> word[i] == small[i] || word[i] == capital[i]
  }

  lemma BodySpelled(word: string)
    ensures EqualsIgnoringCase(word, "BODY") <==> Spelled(word, "body", "BODY")
  {
    assert |"BODY"| == 4 && |"body"| == 4;
    if |word| == 4 {
      assert EqualsIgnoringCase(word, "BODY") <==>
        ToLower(word[0]) == 'b' && ToLower(word[1]) == 'o' && ToLower(word[2]) == 'd' && ToLower(word[3]) == 'y';
    }
  }

  /** A parameter as it may be written, letter by letter. */
  ghost predicate IsWrittenParam(p: string) {
    |p| > 5 && p[0] == ' ' && Spelled(p[1..5], "body", "BODY") && (p[5..] == "=7BIT" || p[5..] == "=8BITMIME")
  }

  /** The rest of a MAIL line is accepted exactly if it is a sequence of such parameters: all sixteen spellings
      of the keyword, and the values as they stand. */
  lemma ParamsAreWritten(s: string)
    ensures MailParams(s) <==>
            exists ps: seq<string> :: s == Concat(ps) && forall i :: 0 <= i < |ps| ==> IsWrittenParam(ps[i])
  {
    if MailParams(s) {
      var ps := MailParamsSound(s);
      forall i | 0 <= i < |ps| ensures IsWrittenParam(ps[i]) {
        BodySpelled(ps[i][1..5]);
      }
    }
    forall ps: seq<string> | s == Concat(ps) && forall i :: 0 <= i < |ps| ==> IsWrittenParam(ps[i])
      ensures MailParams(s)
    {
      forall i | 0 <= i < |ps| ensures IsBodyParam(ps[i]) {
        BodySpelled(ps[i][1..5]);
      }
      MailParamsComplete(ps);
    }
  }

  // ----- Paths

  /** Parts with dots between them. */
  function Joined(parts: seq<string>): string {
    if parts == [] then "" else if |parts| == 1 then parts[0] else parts[0] + "." + Joined(parts[1..])
  }

  predicate IsAtom(s: string) {
    s != "" && forall i :: 0 <= i < |s| ==> s[i] in CAPITALS || s[i] in SMALLS || s[i] in DIGITS || s[i] in MARKS
  }

  predicate IsLabel(s: string) {
    s != "" && forall i :: 0 <= i < |s| ==> s[i] in CAPITALS || s[i] in SMALLS || s[i] in DIGITS || s[i] == '-'
  }

  lemma NoDots(s: string)
    requires s != "" && forall i :: 0 <= i < |s| ==> s[i] != '.'
    ensures Dotted(s)
  {
  }

  lemma DottedMore(s: string, more: string)
    requires s != "" && (forall i :: 0 <= i < |s| ==> s[i] != '.') && Dotted(more)
    ensures Dotted(s + "." + more)
  {
    var all := s + "." + more;
    forall i | 0 <= i < |all| ensures !DotsAt(all, i) {
      if i > |s| {
        assert !DotsAt(more, i - |s| - 1);
      }
    }
  }

  lemma {:induction false} JoinedIsDotted(parts: seq<string>, ok: char -> bool)
    requires parts != [] && !ok('.')
    requires forall k :: 0 <= k < |parts| ==> parts[k] != "" && forall i :: 0 <= i < |parts[k]| ==> ok(parts[k][i])
    ensures Dotted(Joined(parts))
    ensures forall i :: 0 <= i < |Joined(parts)| ==> ok(Joined(parts)[i]) || Joined(parts)[i] == '.'
  {
    assert forall i :: 0 <= i < |parts[0]| ==> parts[0][i] != '.';
    if |parts| == 1 {
      NoDots(parts[0]);
    } else {
      JoinedIsDotted(parts[1..], ok);
      DottedMore(parts[0], Joined(parts[1..]));
    }
  }

  lemma JoinedAtoms(atoms: seq<string>)
    requires atoms != [] && forall k :: 0 <= k < |atoms| ==> IsAtom(atoms[k])
    ensures Dotted(Joined(atoms)) && forall i :: 0 <= i < |Joined(atoms)| ==> IsLocalChar(Joined(atoms)[i])
  {
    forall k, i | 0 <= k < |atoms| && 0 <= i < |atoms[k]| ensures IsAtext(atoms[k][i]) {
      AtextIs(atoms[k][i]);
    }
    JoinedIsDotted(atoms, IsAtext);
  }

  lemma JoinedLabels(labels: seq<string>)
    requires labels != [] && forall k :: 0 <= k < |labels| ==> IsLabel(labels[k])
    ensures Dotted(Joined(labels)) && forall i :: 0 <= i < |Joined(labels)| ==> IsDomainChar(Joined(labels)[i])
  {
    forall k, i | 0 <= k < |labels| && 0 <= i < |labels[k]| ensures IsLabelChar(labels[k][i]) {
      CodesAre(labels[k][i]);
    }
    JoinedIsDotted(labels, IsLabelChar);
  }

  ghost predicate AreAtoms(atoms: seq<string>) {
    atoms != [] && forall k :: 0 <= k < |atoms| ==> IsAtom(atoms[k])
  }

  ghost predicate AreLabels(labels: seq<string>) {
    labels != [] && forall k :: 0 <= k < |labels| ==> IsLabel(labels[k])
  }

  /** The first dot, if there is one. */
  function FirstDot(s: string): nat {
    if s == "" || s[0] == '.' then 0 else 1 + FirstDot(s[1..])
  }

  lemma {:induction false} FirstDotIs(s: string)
    ensures FirstDot(s) <= |s| && (forall i :: 0 <= i < FirstDot(s) ==> s[i] != '.')
    ensures FirstDot(s) < |s| ==> s[FirstDot(s)] == '.'
  {
    if s != "" && s[0] != '.' {
      FirstDotIs(s[1..]);
    }
  }

  lemma DottedTail(s: string, n: nat)
    requires Dotted(s) && n < |s| && s[n] == '.'
    ensures 0 < n && n + 1 < |s| && Dotted(s[n + 1..]) && s == s[..n] + "." + s[n + 1..]
  {
    var more := s[n + 1..];
    forall i | 0 <= i < |more| ensures !DotsAt(more, i) {
      assert !DotsAt(s, n + 1 + i);
    }
    assert !DotsAt(s, n);
  }

  /** Every dotted text comes apart into nonempty parts without dots. */
  lemma {:induction false} PartsOf(s: string) returns (parts: seq<string>)
    requires Dotted(s)
    ensures parts != [] && s == Joined(parts)
    ensures forall k :: 0 <= k < |parts| ==>
      parts[k] != "" && forall i :: 0 <= i < |parts[k]| ==> parts[k][i] in s && parts[k][i] != '.'
    decreases |s|
  {
    var n := FirstDot(s);
    FirstDotIs(s);
    if n == |s| {
      parts := [s];
    } else {
      DottedTail(s, n);
      var more := PartsOf(s[n + 1..]);
      parts := [s[..n]] + more;
      assert parts[1..] == more;
      forall c | c in s[n + 1..] ensures c in s {
        assert s[n + 1..] <= s[n + 1..];
      }
    }
  }

  /** The dot-strings of the grammar are exactly the atoms joined by dots, over the characters as listed. */
  lemma DotStringsAre(d: string)
    ensures (Dotted(d) && forall i :: 0 <= i < |d| ==> IsLocalChar(d[i])) <==>
            exists atoms :: AreAtoms(atoms) && d == Joined(atoms)
  {
    if Dotted(d) && forall i :: 0 <= i < |d| ==> IsLocalChar(d[i]) {
      var atoms := PartsOf(d);
      forall k, i | 0 <= k < |atoms| && 0 <= i < |atoms[k]|
        ensures atoms[k][i] in CAPITALS || atoms[k][i] in SMALLS || atoms[k][i] in DIGITS || atoms[k][i] in MARKS
      {
        AtextIs(atoms[k][i]);
      }
      assert AreAtoms(atoms);
    }
    forall atoms | AreAtoms(atoms) && d == Joined(atoms)
      ensures Dotted(d) && forall i :: 0 <= i < |d| ==> IsLocalChar(d[i])
    {
      JoinedAtoms(atoms);
    }
  }

  /** The domain names of the grammar are exactly the labels joined by dots, with at most 255 bytes. */
  lemma DomainNamesAre(n: string)
    ensures IsDomainName(n) <==> |n| <= 255 && exists labels :: AreLabels(labels) && n == Joined(labels)
  {
    if IsDomainName(n) {
      var labels := PartsOf(n);
      forall k, i | 0 <= k < |labels| && 0 <= i < |labels[k]|
        ensures labels[k][i] in CAPITALS || labels[k][i] in SMALLS || labels[k][i] in DIGITS || labels[k][i] == '-'
      {
        CodesAre(labels[k][i]);
      }
      assert AreLabels(labels);
    }
    forall labels | AreLabels(labels) && n == Joined(labels)
      ensures Dotted(n) && forall i :: 0 <= i < |n| ==> IsDomainChar(n[i])
    {
      JoinedLabels(labels);
    }
  }

  /** A domain may have 255 bytes and no more. */
  lemma DomainLimit(labels: seq<string>, n: string, t: string)
    requires AreLabels(labels) && n == Joined(labels) && (t == "" || !IsDomainChar(t[0]))
    ensures Domain(n + t) == if |n| <= 255 then Some(n) else None
  {
    JoinedLabels(labels);
    SpanExact(n, t, IsDomainChar);
  }

  /** At the end of the input the last label may be missing, or all of them. */
  lemma OpenDomain(labels: seq<string>, n: string)
    requires AreLabels(labels) && n == Joined(labels)
    ensures Domain("") == Some("") && Domain(n + ".") == if |n| + 1 <= 255 then Some(n + ".") else None
  {
    JoinedLabels(labels);
    WholeIs("");
    WholeIs(n + ".");
    assert (n + ".")[..|n|] == n;
  }

  lemma WholeIs(s: string)
    requires DottedOpen(s) && forall i :: 0 <= i < |s| ==> IsDomainChar(s[i])
    ensures Domain(s) == if |s| <= 255 then Some(s) else None
  {
    SpanIs(s, IsDomainChar, |s|);
    assert s[..|s|] == s;
  }

  lemma TwoDots(s: string, at: nat)
    requires at + 1 < |s| && s[at] == '.' && s[at + 1] == '.'
    requires forall i :: 0 <= i <= at + 1 ==> IsDomainChar(s[i])
    ensures Domain(s) == None
  {
    var m := Span(s, IsDomainChar);
    assert m < |s| ==> !IsDomainChar(s[m]);
    var d := s[..m];
    assert DotsAt(d, at);
    assert m > at + 2 ==> DotsAt(d[..m - 1], at);
    assert m == at + 2 ==> d[..m - 1][m - 2] == '.';
  }

  lemma DotAtEnd(s: string, n: nat)
    requires 0 < n < |s| && s[n - 1] == '.' && !IsDomainChar(s[n]) && forall i :: 0 <= i < n ==> IsDomainChar(s[i])
    ensures Domain(s) == None
  {
    SpanIs(s, IsDomainChar, n);
    assert s[..n][n - 1] == '.';
  }

  lemma BrokenAt(s: string, n: nat)
    requires n + 1 < |s| && s[n] == '.' && !IsLabelChar(s[n + 1]) && forall i :: 0 <= i < n ==> IsDomainChar(s[i])
    ensures Domain(s) == None
  {
    if s[n + 1] == '.' {
      TwoDots(s, n);
    } else {
      DotAtEnd(s, n + 1);
    }
  }

  lemma BrokenSlices(n: string, t: string) returns (s: string)
    requires t != "" && forall i :: 0 <= i < |n| ==> IsDomainChar(n[i])
    ensures s == n + "." + t && |s| > |n| + 1 && s[|n|] == '.' && s[|n| + 1] == t[0]
    ensures forall i :: 0 <= i < |n| ==> IsDomainChar(s[i])
  {
    s := n + "." + t;
    assert forall i :: 0 <= i < |n| ==> s[i] == n[i];
  }

  /** Where more follows, a missing label is refused. */
  lemma BrokenDomain(labels: seq<string>, n: string, t: string)
    requires AreLabels(labels) && n == Joined(labels) && t != "" && !IsLabelChar(t[0])
    ensures Domain(n + "." + t) == None
  {
    JoinedLabels(labels);
    var s := BrokenSlices(n, t);
    BrokenAt(s, |n|);
  }

  /** An unquoted local part may have 64 bytes and no more. */
  lemma LocalLimit(atoms: seq<string>, d: string, t: string)
    requires AreAtoms(atoms) && d == Joined(atoms) && (t == "" || !IsLocalChar(t[0]))
    ensures d != "" && IsLocalChar(d[0]) && LocalPart(d + t) == if |d| <= 64 then Some(Local(d, d)) else None
  {
    JoinedAtoms(atoms);
    SpanExact(d, t, IsLocalChar);
    FrontOf(d, t);
    DotStringIs(d + t, d, |d|);
  }

  lemma FrontOf(d: string, t: string)
    requires d != ""
    ensures d + t != "" && (d + t)[0] == d[0] && (d + t)[..|d|] == d
  {
  }

  lemma DotStringIs(s: string, d: string, n: nat)
    requires s != "" && n == Span(s, IsLocalChar) && d == s[..n] && Dotted(d) && s[0] == d[0] && IsLocalChar(d[0])
    ensures LocalPart(s) == if |d| <= 64 then Some(Local(d, d)) else None
  {
    assert QuotedString(s).None?;
  }

  /** A quoted one may have 64 bytes with its quotes and backslashes. */
  lemma QuotedLimit(text: string, t: string)
    requires AllPrintable(text)
    ensures LocalPart(Quote(text) + t) == if |Quote(text)| <= 64 then Some(Local(Quote(text), text)) else None
  {
    if |Quote(text)| <= 64 {
      QuoteRoundTrip(text, t);
    } else {
      QuoteCharsMean(text);
      QuotedTailExact(QuoteChars(text), t);
      InQuotes(Concat(QuoteChars(text)), t);
    }
  }

  lemma MailboxSlices(d: string, n: string, rest: string)
    ensures var s := d + ("@" + (n + rest));
      && s[|d|..] == "@" + (n + rest) && ("@" + (n + rest))[1..] == n + rest
      && s[..|d| + 1 + |n|] == d + "@" + n && s[|d| + 1 + |n|..] == rest
  {
  }

  lemma PlainLocalAtDomain(s: string, d: string, n: string, rest: string)
    requires s == d + ("@" + (n + rest))
    requires LocalPart(s) == if |d| <= 64 then Some(Local(d, d)) else None
    requires Domain(n + rest) == if |n| <= 255 then Some(n) else None
    ensures LocalAtDomain(s)
         == if |d| <= 64 && |n| <= 255 then Some(MailboxResult(Local(d, d), n, d + "@" + n, rest)) else None
  {
    MailboxSlices(d, n, rest);
    if |d| <= 64 {
      BehindLocal(s, d, if |n| <= 255 then Some(n) else None);
    }
  }

  lemma BehindLocal(s: string, d: string, n: Option<string>)
    requires LocalPart(s) == Some(Local(d, d)) && |d| <= |s| && AtDomain(s[|d|..]) == n
    ensures LocalAtDomain(s) ==
      match n
      case None => None
      case Some(name) =>
        Some(MailboxResult(Local(d, d), name, s[..|d| + 1 + |name|], s[|d| + 1 + |name|..]))
  {
  }

  lemma NoRoute(s: string)
    requires s != "" && s[0] != '@'
    ensures Route(s) == Some(s)
  {
  }

  lemma PlainMailbox(s: string, d: string, n: string, rest: string)
    requires d != "" && d[0] != '@' && s == d + ("@" + (n + rest))
    requires LocalPart(s) == if |d| <= 64 then Some(Local(d, d)) else None
    requires Domain(n + rest) == if |n| <= 255 then Some(n) else None
    ensures Mailbox(s)
         == if |d| <= 64 && |n| <= 255 then Some(MailboxResult(Local(d, d), n, d + "@" + n, rest)) else None
  {
    FrontOf(d, "@" + (n + rest));
    NoRoute(s);
    PlainLocalAtDomain(s, d, n, rest);
  }

  lemma BracketsAround(s: string, inner: string, t: string, m: Option<MailboxResult>)
    requires s == "<" + inner && Mailbox(inner) == m && (m.Some? ==> m.value.rest == ">" + t)
    ensures Path(s) == match m case None => None case Some(r) => Some(r.(rest := t))
  {
    assert s[1..] == inner;
    assert (">" + t)[1..] == t;
  }

  lemma PlainParts(d: string, n: string, t: string)
    ensures "<" + d + "@" + n + ">" + t == "<" + (d + ("@" + (n + (">" + t))))
  {
  }

  /** A path of atoms and labels, over the characters as listed, is accepted whatever follows it, if its local
      part has at most 64 bytes and its domain at most 255; with one more byte it is not. */
  lemma PlainPath(atoms: seq<string>, labels: seq<string>, d: string, n: string, t: string)
    requires AreAtoms(atoms) && AreLabels(labels) && d == Joined(atoms) && n == Joined(labels)
    ensures Path("<" + d + "@" + n + ">" + t)
      == if |d| <= 64 && |n| <= 255 then Some(MailboxResult(Local(d, d), n, d + "@" + n, t)) else None
  {
    LocalLimit(atoms, d, "@" + (n + (">" + t)));
    DomainLimit(labels, n, ">" + t);
    PlainParts(d, n, t);
    PathOf(d, n, t);
  }

  lemma PathOf(d: string, n: string, t: string)
    requires d != "" && IsLocalChar(d[0])
    requires LocalPart(d + ("@" + (n + (">" + t)))) == if |d| <= 64 then Some(Local(d, d)) else None
    requires Domain(n + (">" + t)) == if |n| <= 255 then Some(n) else None
    ensures Path("<" + (d + ("@" + (n + (">" + t)))))
      == if |d| <= 64 && |n| <= 255 then Some(MailboxResult(Local(d, d), n, d + "@" + n, t)) else None
  {
    var inner := d + ("@" + (n + (">" + t)));
    PlainMailbox(inner, d, n, ">" + t);
    BracketsAround("<" + inner, inner, t, Mailbox(inner));
  }
}
