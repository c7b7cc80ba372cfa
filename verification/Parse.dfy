/** The path, quoted-string and ESMTP parameter parsers as functions of the text they are given.
    Reading past the end of the text finds a NUL, as it does behind a line left by the framer. */
module Parse {
  import opened Bytes

  const LOCAL_PART_MAX := 64
  const DOMAIN_MAX := 255

  predicate IsAtext(c: char) {
    || IsAlnum(c)
    || c == '!' || '#' <= c <= '\'' || c == '*' || c == '+' || c == '-' || c == '/' || c == '=' || c == '?'
    || '^' <= c <= '`' || '{' <= c <= '~'
  }

  predicate IsQtext(c: char) {
    ' ' <= c <= '!' || '#' <= c <= '[' || ']' <= c <= '~'
  }

  predicate IsParamValueChar(c: char) {
    '!' <= c <= '<' || '>' <= c <= '~'
  }

  predicate IsLabelChar(c: char) {
    IsAlnum(c) || c == '-'
  }

  predicate IsDomainChar(c: char) {
    IsLabelChar(c) || c == '.'
  }

  predicate IsLocalChar(c: char) {
    IsAtext(c) || c == '.'
  }

  predicate DotsAt(s: string, i: nat) {
    i + 1 < |s| && s[i] == '.' && s[i + 1] == '.'
  }

  /** Nonempty runs separated by single dots. */
  predicate Dotted(s: string) {
    && s != "" && s[0] != '.' && s[|s| - 1] != '.'
    && forall i :: 0 <= i < |s| ==> !DotsAt(s, i)
  }

  /** `Dotted`, except that the last run may be empty. */
  predicate DottedOpen(s: string) {
    s == "" || Dotted(s) || (s[|s| - 1] == '.' && Dotted(s[..|s| - 1]))
  }

  datatype Local = Local(body: string, text: string)
  datatype MailboxResult = MailboxResult(local: Local, domain: string, stored: string, rest: string)
  datatype Param = Param(key: string, value: string, rest: string)

  /** The longest run of domain characters; an empty label is let through only at the end of the input. */
  function Domain(s: string): Option<string> {
    var d := s[..Span(s, IsDomainChar)];
    if |d| <= DOMAIN_MAX && (Dotted(d) || (d == s && DottedOpen(d))) then Some(d) else None
  }

  /** Length up to and including the closing quote, for text that follows an opening quote. */
  function QuotedTail(s: string): (r: Option<nat>)
    ensures r.Some? ==> 1 <= r.value <= |s| && s[r.value - 1] == '"'
  {
    if s == "" then None
    else if s[0] == '"' then Some(1)
    else if s[0] == '\\' then
      if |s| < 2 || !IsPrintable(s[1]) then None
      else match QuotedTail(s[2..]) case Some(n) => Some(n + 2) case None => None
    else if IsQtext(s[0]) then
      match QuotedTail(s[1..]) case Some(n) => Some(n + 1) case None => None
    else None
  }

  function QuotedString(s: string): (r: Option<nat>)
    ensures r.Some? ==> 2 <= r.value <= |s| && s[0] == '"' && s[r.value - 1] == '"'
  {
    if s == "" || s[0] != '"' then None
    else match QuotedTail(s[1..]) case Some(n) => Some(n + 1) case None => None
  }

  /** What the text between the quotes stands for. */
  function Unescape(s: string): string {
    if s == "" then ""
    else if s[0] == '\\' && |s| >= 2 then [s[1]] + Unescape(s[2..])
    else [s[0]] + Unescape(s[1..])
  }

  function LocalPart(s: string): Option<Local> {
    match QuotedString(s)
    case Some(n) =>
      if n <= LOCAL_PART_MAX then Some(Local(s[..n], Unescape(s[1..n - 1]))) else None
    case None =>
      var l := s[..Span(s, IsLocalChar)];
      if |l| <= LOCAL_PART_MAX && Dotted(l) then Some(Local(l, l)) else None
  }

  function AtDomain(s: string): Option<string> {
    if s == "" || s[0] != '@' then None else Domain(s[1..])
  }

  /** The text behind a source route. A malformed route leaves `None`, no route leaves `s` itself. */
  function Route(s: string): Option<string> {
    match AtDomain(s)
    case None => Some(s)
    case Some(d) => RouteTail(s[1 + |d|..])
  }

  function RouteTail(s: string): Option<string> {
    if s == "" then None
    else if s[0] == ',' then
      match AtDomain(s[1..])
      case None => None
      case Some(d) => RouteTail(s[2 + |d|..])
    else if s[0] == ':' then Some(s[1..])
    else None
  }

  function LocalAtDomain(src: string): Option<MailboxResult> {
    match LocalPart(src)
    case None => None
    case Some(l) =>
      var at := |l.body|;
      match AtDomain(src[at..])
      case None => None
      case Some(d) =>
        var end := at + 1 + |d|;
        Some(MailboxResult(l, d, src[..end], src[end..]))
  }

  /** The route's verdict is not looked at: a malformed one leaves an empty rest. */
  function Mailbox(s: string): Option<MailboxResult> {
    LocalAtDomain(match Route(s) case Some(r) => r case None => "")
  }

  function Closed(m: Option<MailboxResult>): Option<MailboxResult> {
    match m
    case None => None
    case Some(r) => if r.rest == "" || r.rest[0] != '>' then None else Some(r.(rest := r.rest[1..]))
  }

  function Path(s: string): Option<MailboxResult> {
    if s == "" || s[0] != '<' then None else Closed(Mailbox(s[1..]))
  }

  function ReversePath(s: string): Option<MailboxResult> {
    if |s| < 2 || s[0] != '<' then None
    else if s[1] == '>' then Some(MailboxResult(Local("", ""), "", "", s[2..]))
    else Closed(Mailbox(s[1..]))
  }

  function Keyword(s: string): Option<string> {
    if s == "" || !IsAlnum(s[0]) then None else Some(s[..Span(s, IsLabelChar)])
  }

  function ParamValue(s: string): Option<string> {
    var n := Span(s, IsParamValueChar);
    if n == 0 then None else Some(s[..n])
  }

  function EsmtpParam(s: string): (r: Option<Param>)
    ensures r.Some? ==> |r.value.rest| < |s|
  {
    match Keyword(s)
    case None => None
    case Some(key) =>
      var src := s[|key|..];
      if src == "" || src[0] != '=' then None
      else match ParamValue(src[1..])
           case None => None
           case Some(value) => Some(Param(key, value, src[1 + |value|..]))
  }
}
