/** The grammar the path parsers accept, written as rendering, and both directions of the agreement. */
module PathGrammar {
  import opened Bytes
  import opened Parse

  // ----- The grammar

  ghost predicate IsDomainName(d: string) {
    Dotted(d) && |d| <= DOMAIN_MAX && forall i :: 0 <= i < |d| ==> IsDomainChar(d[i])
  }

  /** One character of a quoted string as it is written. */
  ghost predicate IsQuotedChar(q: string) {
    (|q| == 1 && IsQtext(q[0])) || (|q| == 2 && q[0] == '\\' && IsPrintable(q[1]))
  }

  datatype LocalForm = DotString(s: string) | Quoted(chars: seq<string>) {
    function Render(): string {
      match this
      case DotString(s) => s
      case Quoted(chars) => "\"" + Concat(chars) + "\""
    }

    function Text(): string {
      match this
      case DotString(s) => s
      case Quoted(chars) => LastChars(chars)
    }

    ghost predicate Valid() {
      && |Render()| <= LOCAL_PART_MAX
      && match this
         case DotString(s) => Dotted(s) && forall i :: 0 <= i < |s| ==> IsLocalChar(s[i])
         case Quoted(chars) => forall i :: 0 <= i < |chars| ==> IsQuotedChar(chars[i])
    }
  }

  function LastChars(chars: seq<string>): string {
    if chars == [] then ""
    else (if chars[0] == "" then "" else [chars[0][|chars[0]| - 1]]) + LastChars(chars[1..])
  }

  datatype PathForm = PathForm(routes: seq<string>, local: LocalForm, domain: string) {
    function Stored(): string {
      local.Render() + "@" + domain
    }

    function Inner(): string {
      RenderRoutes(routes) + Stored()
    }

    function Render(): string {
      "<" + Inner() + ">"
    }

    ghost predicate Valid() {
      && (forall i :: 0 <= i < |routes| ==> IsDomainName(routes[i]))
      && local.Valid()
      && IsDomainName(domain)
    }

    function Parsed(rest: string): MailboxResult {
      MailboxResult(Local(local.Render(), local.Text()), domain, Stored(), rest)
    }
  }

  function RenderRoutes(routes: seq<string>): string {
    if routes == [] then "" else "@" + routes[0] + RenderMoreRoutes(routes[1..])
  }

  function RenderMoreRoutes(routes: seq<string>): string {
    if routes == [] then ":" else ",@" + routes[0] + RenderMoreRoutes(routes[1..])
  }

  // ----- Domains and dot-strings

  lemma DomainExact(d: string, t: string)
    requires IsDomainName(d) && (t == "" || !IsDomainChar(t[0]))
    ensures Domain(d + t) == Some(d)
  {
    SpanExact(d, t, IsDomainChar);
  }

  lemma AtDomainExact(d: string, t: string)
    requires IsDomainName(d) && (t == "" || !IsDomainChar(t[0]))
    ensures AtDomain("@" + d + t) == Some(d)
  {
    assert ("@" + d + t)[1..] == d + t;
    DomainExact(d, t);
  }

  /** `domain` accepts a domain name, and at the very end of the input also an empty last label. */
  lemma DomainSound(s: string)
    requires Domain(s).Some?
    ensures var d := Domain(s).value;
      && d <= s && |d| <= DOMAIN_MAX
      && (IsDomainName(d) || (d == s && DottedOpen(d)))
      && (|d| < |s| ==> IsDomainName(d) && !IsDomainChar(s[|d|]))
      && forall i :: 0 <= i < |d| ==> IsDomainChar(d[i])
  {
    var d := s[..Span(s, IsDomainChar)];
    if |d| == |s| {
      assert d == s;
    }
  }

  /** Where more text follows, `@` and a domain name have been read. */
  lemma AtDomainSound(s: string)
    requires AtDomain(s).Some? && 1 + |AtDomain(s).value| < |s|
    ensures var d := AtDomain(s).value;
      IsDomainName(d) && s == "@" + d + s[1 + |d|..] && !IsDomainChar(s[1 + |d|])
  {
    DomainSound(s[1..]);
    var d := AtDomain(s).value;
    assert s == [s[0]] + s[1..][..|d|] + s[1 + |d|..];
  }

  // ----- Quoted strings

  lemma {:induction false} QuotedTailExact(chars: seq<string>, t: string)
    requires forall i :: 0 <= i < |chars| ==> IsQuotedChar(chars[i])
    ensures QuotedTail(Concat(chars) + "\"" + t) == Some(|Concat(chars)| + 1)
    ensures Unescape(Concat(chars)) == LastChars(chars)
  {
    var s := Concat(chars) + "\"" + t;
    if chars != [] {
      var c, more := chars[0], chars[1..];
      QuotedTailExact(more, t);
      assert s[|c|..] == Concat(more) + "\"" + t;
      assert Concat(chars)[|c|..] == Concat(more);
    }
  }

  lemma {:induction false} QuotedTailSound(s: string) returns (chars: seq<string>)
    requires QuotedTail(s).Some?
    ensures forall i :: 0 <= i < |chars| ==> IsQuotedChar(chars[i])
    ensures s[..QuotedTail(s).value] == Concat(chars) + "\""
    decreases |s|
  {
    var n := QuotedTail(s).value;
    if s[0] == '"' {
      chars := [];
    } else {
      var k := if s[0] == '\\' then 2 else 1;
      var more := QuotedTailSound(s[k..]);
      chars := [s[..k]] + more;
      assert chars[1..] == more;
      assert s[..n] == s[..k] + s[k..][..n - k];
    }
  }

  // ----- Local parts

  lemma DotStringExact(d: string, t: string)
    requires DotString(d).Valid() && (t == "" || !IsLocalChar(t[0]))
    ensures LocalPart(d + t) == Some(Local(d, d))
  {
    SpanExact(d, t, IsLocalChar);
    assert (d + t)[0] == d[0] != '"';
  }

  lemma InQuotes(inner: string, t: string)
    ensures var s := "\"" + inner + "\"" + t;
      s[1..] == inner + "\"" + t && s[1..|inner| + 1] == inner && s[..|inner| + 2] == "\"" + inner + "\""
  {
  }

  lemma QuotedExact(chars: seq<string>, t: string)
    requires Quoted(chars).Valid()
    ensures LocalPart(Quoted(chars).Render() + t) == Some(Local(Quoted(chars).Render(), LastChars(chars)))
  {
    var inner := Concat(chars);
    var s := "\"" + inner + "\"" + t;
    QuotedTailExact(chars, t);
    InQuotes(inner, t);
    QuotedIs(s, |inner| + 2);
  }

  lemma QuotedIs(s: string, n: nat)
    requires s != "" && s[0] == '"' && n > 0 && QuotedTail(s[1..]) == Some(n - 1) && n <= LOCAL_PART_MAX
    ensures LocalPart(s) == Some(Local(s[..n], Unescape(s[1..n - 1])))
  {
  }

  lemma LocalExact(f: LocalForm, t: string)
    requires f.Valid() && (f.DotString? && t != "" ==> !IsLocalChar(t[0]))
    ensures LocalPart(f.Render() + t) == Some(Local(f.Render(), f.Text()))
  {
    match f
    case DotString(d) => DotStringExact(d, t);
    case Quoted(chars) => QuotedExact(chars, t);
  }

  lemma QuotedSound(s: string) returns (chars: seq<string>)
    requires QuotedString(s).Some?
    ensures forall i :: 0 <= i < |chars| ==> IsQuotedChar(chars[i])
    ensures var n := QuotedString(s).value;
      s[..n] == "\"" + Concat(chars) + "\"" && s[1..n - 1] == Concat(chars)
  {
    chars := QuotedTailSound(s[1..]);
    var n := QuotedString(s).value;
    assert s[..n] == [s[0]] + s[1..][..n - 1];
    assert s[1..n - 1] == s[1..][..n - 2];
  }

  lemma LocalSound(s: string) returns (f: LocalForm)
    requires LocalPart(s).Some?
    ensures f.Valid() && LocalPart(s).value == Local(f.Render(), f.Text())
    ensures f.Render() <= s
  {
    match QuotedString(s)
    case Some(n) =>
      var chars := QuotedSound(s);
      QuotedTailExact(chars, "");
      f := Quoted(chars);
      assert f.Render() == s[..n];
    case None =>
      f := DotString(LocalPart(s).value.body);
  }

  // ----- Routes

  lemma {:induction false} RouteTailExact(routes: seq<string>, t: string)
    requires forall i :: 0 <= i < |routes| ==> IsDomainName(routes[i])
    ensures RouteTail(RenderMoreRoutes(routes) + t) == Some(t)
  {
    if routes == [] {
      assert (":" + t)[1..] == t;
    } else {
      var d, more := routes[0], RenderMoreRoutes(routes[1..]);
      RouteSlices(d, more, t);
      AtDomainExact(d, more + t);
      RouteTailExact(routes[1..], t);
    }
  }

  lemma RouteSlices(d: string, more: string, t: string)
    ensures var s := ",@" + d + more + t;
      s[0] == ',' && s[1..] == "@" + d + (more + t) && s[2 + |d|..] == more + t
  {
  }

  lemma RouteExact(routes: seq<string>, t: string)
    requires forall i :: 0 <= i < |routes| ==> IsDomainName(routes[i])
    requires t == "" || t[0] != '@'
    ensures Route(RenderRoutes(routes) + t) == Some(t)
  {
    var s := RenderRoutes(routes) + t;
    if routes == [] {
      assert s == t;
    } else {
      var d, more := routes[0], RenderMoreRoutes(routes[1..]) + t;
      assert s == "@" + d + more;
      AtDomainExact(d, more);
      assert s[1 + |d|..] == more;
      RouteTailExact(routes[1..], t);
    }
  }

  lemma JoinRoute(d: string, more: string, t: string)
    ensures "," + ("@" + d + (more + t)) == ",@" + d + more + t
    ensures "@" + d + (more + t) == "@" + d + more + t
  {
  }

  lemma {:induction false} RouteTailSound(s: string) returns (routes: seq<string>)
    requires RouteTail(s).Some?
    ensures forall i :: 0 <= i < |routes| ==> IsDomainName(routes[i])
    ensures s == RenderMoreRoutes(routes) + RouteTail(s).value
    decreases |s|
  {
    if s[0] == ':' {
      routes := [];
    } else {
      var d := AtDomain(s[1..]).value;
      AtDomainSound(s[1..]);
      var tail := s[2 + |d|..];
      assert s[1..][1 + |d|..] == tail;
      var more := RouteTailSound(tail);
      routes := [d] + more;
      assert routes[1..] == more;
      assert s == "," + ("@" + d + tail);
      JoinRoute(d, RenderMoreRoutes(more), RouteTail(tail).value);
    }
  }

  lemma RouteSound(s: string) returns (routes: seq<string>)
    requires Route(s).Some? && Route(s).value != "" && Route(s).value[0] != '@'
    ensures forall i :: 0 <= i < |routes| ==> IsDomainName(routes[i])
    ensures s == RenderRoutes(routes) + Route(s).value
  {
    if AtDomain(s).None? {
      routes := [];
    } else {
      var d := AtDomain(s).value;
      AtDomainSound(s);
      var tail := s[1 + |d|..];
      var more := RouteTailSound(tail);
      routes := [d] + more;
      assert routes[1..] == more;
      JoinRoute(d, RenderMoreRoutes(more), RouteTail(tail).value);
    }
  }

  // ----- Paths

  /** A mailbox behind its route. */
  lemma LocalAtDomainExact(f: LocalForm, d: string, t: string)
    requires f.Valid() && IsDomainName(d) && t != "" && !IsDomainChar(t[0])
    ensures var src := f.Render() + "@" + d + t;
      && LocalPart(src) == Some(Local(f.Render(), f.Text()))
      && AtDomain(src[|f.Render()|..]) == Some(d)
  {
    var l := f.Render();
    assert l + "@" + d + t == l + ("@" + d + t);
    LocalExact(f, "@" + d + t);
    AtDomainExact(d, t);
  }

  lemma MailboxExact(p: PathForm, t: string)
    requires p.Valid() && t != "" && !IsDomainChar(t[0])
    ensures Mailbox(p.Inner() + t) == Some(p.Parsed(t))
  {
    var l, d := p.local.Render(), p.domain;
    var src := l + "@" + d + t;
    LocalFirst(p.local);
    Regroup(RenderRoutes(p.routes), p.Stored(), t);
    RouteExact(p.routes, src);
    LocalAtDomainExact(p.local, d, t);
    Parts(l + "@" + d, t);
    assert Mailbox(p.Inner() + t) == Some(MailboxResult(Local(l, p.local.Text()), d, l + "@" + d, t));
  }

  lemma LocalFirst(f: LocalForm)
    requires f.Valid()
    ensures f.Render() != "" && f.Render()[0] != '@'
  {
  }

  lemma Contiguous(s: string, a: string, b: string)
    requires a <= s && b <= s[|a|..]
    ensures s[..|a| + |b|] == a + b && s[|a| + |b|..] == s[|a|..][|b|..]
  {
    assert s[..|a| + |b|] == s[..|a|] + s[|a|..][..|b|];
  }

  lemma LocalAtDomainSound(src: string) returns (f: LocalForm)
    requires LocalPart(src).Some?
    requires AtDomain(src[|LocalPart(src).value.body|..]).Some?
    requires var l := LocalPart(src).value.body;
      |l| + 1 + |AtDomain(src[|l|..]).value| < |src|
    ensures f.Valid() && LocalPart(src).value == Local(f.Render(), f.Text())
    ensures var l := f.Render();
      var d := AtDomain(src[|l|..]).value;
      var end := |l| + 1 + |d|;
      && IsDomainName(d) && src[..end] == l + "@" + d && !IsDomainChar(src[end])
  {
    f := LocalSound(src);
    AtDomainBehind(src, f.Render());
  }

  lemma AtDomainBehind(src: string, l: string)
    requires l <= src && AtDomain(src[|l|..]).Some? && |l| + 1 + |AtDomain(src[|l|..]).value| < |src|
    ensures var d := AtDomain(src[|l|..]).value;
      var end := |l| + 1 + |d|;
      && IsDomainName(d) && src[..end] == l + "@" + d && !IsDomainChar(src[end])
  {
    AtDomainSound(src[|l|..]);
    Contiguous(src, l, "@" + AtDomain(src[|l|..]).value);
  }

  lemma LocalIsPrefix(s: string)
    requires LocalPart(s).Some?
    ensures LocalPart(s).value.body <= s
  {
  }

  /** Local part, at-sign, domain and rest are contiguous. */
  lemma MailboxShape(s: string) returns (src: string)
    requires Mailbox(s).Some? && Mailbox(s).value.rest != ""
    ensures Route(s) == Some(src)
    ensures var m := Mailbox(s).value;
      && src == m.stored + m.rest
      && LocalPart(src) == Some(m.local)
      && AtDomain(src[|m.local.body|..]) == Some(m.domain)
      && |m.stored| == |m.local.body| + 1 + |m.domain|
  {
    src := match Route(s) case Some(r) => r case None => "";
    LocalAtDomainShape(src);
  }

  lemma LocalAtDomainShape(src: string)
    requires LocalAtDomain(src).Some?
    ensures var m := LocalAtDomain(src).value;
      && src == m.stored + m.rest
      && LocalPart(src) == Some(m.local)
      && AtDomain(src[|m.local.body|..]) == Some(m.domain)
      && |m.stored| == |m.local.body| + 1 + |m.domain|
  {
    var l := LocalPart(src).value;
    Halves(src, |l.body| + 1 + |AtDomain(src[|l.body|..]).value|);
  }

  lemma MailboxSound(s: string) returns (p: PathForm)
    requires Mailbox(s).Some? && Mailbox(s).value.rest != ""
    ensures p.Valid() && Mailbox(s).value == p.Parsed(Mailbox(s).value.rest)
    ensures s == p.Inner() + Mailbox(s).value.rest
    ensures !IsDomainChar(Mailbox(s).value.rest[0])
  {
    var src := MailboxShape(s);
    var m := Mailbox(s).value;
    var f := LocalAtDomainSound(src);
    LocalFirst(f);
    assert src[0] == f.Render()[0] by { LocalIsPrefix(src); }
    var routes := RouteSound(s);
    p := PathForm(routes, f, m.domain);
    assert src[..|m.stored|] == m.stored;
    assert m.stored == p.Stored();
    Regroup(RenderRoutes(routes), m.stored, m.rest);
  }

  /** Every path of the grammar is parsed into its own parts, whatever text follows it. */
  lemma PathComplete(p: PathForm, t: string)
    requires p.Valid()
    ensures Path(p.Render() + t) == Some(p.Parsed(t))
    ensures ReversePath(p.Render() + t) == Some(p.Parsed(t))
  {
    var s := p.Render() + t;
    assert s[1..] == p.Inner() + (">" + t);
    MailboxExact(p, ">" + t);
    InnerFirst(p);
  }

  lemma InnerFirst(p: PathForm)
    requires p.Valid()
    ensures p.Inner() != "" && p.Inner()[0] != '>'
  {
    LocalFirst(p.local);
    if p.routes == [] {
      assert p.Inner() == p.Stored();
    }
  }

  /** Whatever is accepted is a path of the grammar followed by the rest; what is stored is the exact
      slice from the local part to the end of the domain. */
  lemma PathSound(s: string) returns (p: PathForm)
    requires Path(s).Some?
    ensures p.Valid() && s == p.Render() + Path(s).value.rest
    ensures Path(s).value == p.Parsed(Path(s).value.rest)
  {
    p := MailboxSound(s[1..]);
    InBrackets(s, p.Inner(), Mailbox(s[1..]).value.rest);
  }

  lemma InBrackets(s: string, inner: string, closing: string)
    requires s != "" && s[0] == '<' && s[1..] == inner + closing
    requires closing != "" && closing[0] == '>'
    ensures s == "<" + inner + ">" + closing[1..]
  {
    assert s == [s[0]] + s[1..];
  }

  lemma ReversePathSound(s: string) returns (p: PathForm)
    requires ReversePath(s).Some?
    ensures (s == "<>" + ReversePath(s).value.rest && ReversePath(s).value.stored == "")
         || (p.Valid() && s == p.Render() + ReversePath(s).value.rest
             && ReversePath(s).value == p.Parsed(ReversePath(s).value.rest))
  {
    if s[1] == '>' {
      p := PathForm([], DotString(""), "");
      assert s == s[..2] + s[2..];
    } else {
      p := PathSound(s);
    }
  }

  /** Accepted exactly when it is a path of the grammar followed by anything. */
  lemma PathAccepted(s: string)
    ensures Path(s).Some? <==> exists p: PathForm, t: string :: p.Valid() && s == p.Render() + t
    ensures ReversePath(s).Some? <==> "<>" <= s || exists p: PathForm, t: string :: p.Valid() && s == p.Render() + t
  {
    if Path(s).Some? {
      var p := PathSound(s);
    }
    if ReversePath(s).Some? {
      var p := ReversePathSound(s);
    }
    forall p: PathForm, t: string | p.Valid() && s == p.Render() + t
      ensures Path(s).Some? && ReversePath(s).Some?
    {
      PathComplete(p, t);
    }
  }

  /** A stored path holds no line end, so it keeps its line when it is written out. */
  lemma StoredIsPrintable(s: string)
    ensures Path(s).Some? ==> AllPrintable(Path(s).value.stored)
    ensures ReversePath(s).Some? ==> AllPrintable(ReversePath(s).value.stored)
  {
    if Path(s).Some? {
      var p := PathSound(s);
      FormIsPrintable(p);
    }
    if ReversePath(s).Some? {
      var p := ReversePathSound(s);
      if p.Valid() {
        FormIsPrintable(p);
      }
    }
  }

  lemma FormIsPrintable(p: PathForm)
    requires p.Valid()
    ensures AllPrintable(p.Stored())
  {
    if p.local.Quoted? {
      QuotedCharsArePrintable(p.local.chars);
    }
  }

  lemma {:induction false} RouteIsPrintable(routes: seq<string>)
    requires forall i :: 0 <= i < |routes| ==> IsDomainName(routes[i])
    ensures AllPrintable(RenderMoreRoutes(routes))
  {
    if routes != [] {
      RouteIsPrintable(routes[1..]);
    }
  }

  lemma RenderIsPrintable(p: PathForm)
    requires p.Valid()
    ensures AllPrintable(p.Render())
  {
    FormIsPrintable(p);
    if p.routes != [] {
      RouteIsPrintable(p.routes[1..]);
    }
  }

  lemma {:induction false} QuotedCharsArePrintable(chars: seq<string>)
    requires forall i :: 0 <= i < |chars| ==> IsQuotedChar(chars[i])
    ensures AllPrintable(Concat(chars))
  {
    if chars != [] {
      QuotedCharsArePrintable(chars[1..]);
    }
  }

  // ----- Quoting

  function QuoteChar(c: char): string {
    if c == '"' || c == '\\' then ['\\', c] else [c]
  }

  function QuoteChars(text: string): seq<string> {
    if text == "" then [] else [QuoteChar(text[0])] + QuoteChars(text[1..])
  }

  function Quote(text: string): string {
    "\"" + Concat(QuoteChars(text)) + "\""
  }

  lemma {:induction false} QuoteCharsMean(text: string)
    requires AllPrintable(text)
    ensures LastChars(QuoteChars(text)) == text
    ensures forall i :: 0 <= i < |QuoteChars(text)| ==> IsQuotedChar(QuoteChars(text)[i])
  {
    if text != "" {
      QuoteCharsMean(text[1..]);
      assert QuoteChars(text)[1..] == QuoteChars(text[1..]);
    }
  }

  /** Quoting and parsing gives back the text, whatever follows. */
  lemma QuoteRoundTrip(text: string, t: string)
    requires AllPrintable(text) && |Quote(text)| <= LOCAL_PART_MAX
    ensures LocalPart(Quote(text) + t) == Some(Local(Quote(text), text))
  {
    QuoteCharsMean(text);
    LocalExact(Quoted(QuoteChars(text)), t);
  }

  lemma {:induction false} QuoteIsShortest(chars: seq<string>)
    requires forall i :: 0 <= i < |chars| ==> IsQuotedChar(chars[i])
    ensures AllPrintable(LastChars(chars))
    ensures |Concat(QuoteChars(LastChars(chars)))| <= |Concat(chars)|
  {
    if chars != [] {
      QuoteIsShortest(chars[1..]);
      var text := LastChars(chars);
      assert text[1..] == LastChars(chars[1..]);
      assert QuoteChars(text)[1..] == QuoteChars(text[1..]);
    }
  }

  /** Quoting an accepted quoted string's text anew is accepted again and means the same. */
  lemma RequoteRoundTrip(s: string)
    requires LocalPart(s).Some? && QuotedString(s).Some?
    ensures var text := LocalPart(s).value.text;
      LocalPart(Quote(text)) == Some(Local(Quote(text), text))
  {
    var chars := QuotedSound(s);
    QuotedTailExact(chars, "");
    QuoteIsShortest(chars);
    QuoteRoundTrip(LastChars(chars), "");
    assert Quote(LastChars(chars)) + "" == Quote(LastChars(chars));
  }
}
