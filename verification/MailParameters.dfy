/** The parameter list of the MAIL command. */
module MailParameters {
  import opened Bytes
  import opened Parse

  predicate MailParam(p: Param) {
    EqualsIgnoringCase(p.key, "BODY") && (p.value == "7BIT" || p.value == "8BITMIME")
  }

  /** The rest of a MAIL line behind its path, read parameter by parameter. */
  predicate MailParams(s: string)
    decreases |s|
  {
    || s == ""
    || (s[0] == ' '
        && match EsmtpParam(s[1..])
           case None => false
           case Some(p) => MailParam(p) && MailParams(p.rest))
  }

  /** One parameter as it may be written: the keyword in any case, the value exactly. */
  ghost predicate IsBodyParam(p: string) {
    |p| > 5 && p[0] == ' ' && EqualsIgnoringCase(p[1..5], "BODY") && (p[5..] == "=7BIT" || p[5..] == "=8BITMIME")
  }

  lemma LettersOfBody(key: string)
    requires EqualsIgnoringCase(key, "BODY")
    ensures |key| == 4 && forall i :: 0 <= i < 4 ==> IsAlnum(key[i])
  {
    assert |"BODY"| == 4;
    assert ToLower(key[0]) == 'b' && ToLower(key[1]) == 'o' && ToLower(key[2]) == 'd' && ToLower(key[3]) == 'y';
  }

  lemma KeywordExact(key: string, t: string)
    requires EqualsIgnoringCase(key, "BODY") && t != "" && !IsLabelChar(t[0])
    ensures Keyword(key + t) == Some(key)
  {
    LettersOfBody(key);
    SpanExact(key, t, IsLabelChar);
  }

  lemma ParamValueExact(value: string, t: string)
    requires value == "7BIT" || value == "8BITMIME"
    requires t == "" || t[0] == ' '
    ensures ParamValue(value + t) == Some(value)
  {
    SpanExact(value, t, IsParamValueChar);
  }

  lemma EsmtpParamExact(key: string, value: string, t: string)
    requires EqualsIgnoringCase(key, "BODY") && (value == "7BIT" || value == "8BITMIME")
    requires t == "" || t[0] == ' '
    ensures EsmtpParam(key + ("=" + (value + t))) == Some(Param(key, value, t))
  {
    KeywordExact(key, "=" + (value + t));
    ParamValueExact(value, t);
    Parts(key, "=" + (value + t));
    Parts("=" + value, t);
    assert ("=" + (value + t))[1..] == value + t;
    assert "=" + value + t == "=" + (value + t);
  }

  lemma EqualsSignFirst(src: string, n: nat)
    requires src != "" && src[0] == '=' && n < |src|
    ensures src == "=" + (src[1..][..n] + src[1 + n..])
  {
    assert src == [src[0]] + src[1..];
    assert src[1..][n..] == src[1 + n..];
  }

  lemma EsmtpParamSound(s: string)
    requires EsmtpParam(s).Some?
    ensures var p := EsmtpParam(s).value; s == p.key + ("=" + (p.value + p.rest))
  {
    var p := EsmtpParam(s).value;
    Halves(s, |p.key|);
    EqualsSignFirst(s[|p.key|..], |p.value|);
  }

  lemma BodyParamParts(p: string, t: string)
    requires IsBodyParam(p)
    ensures (p + t)[1..] == p[1..5] + ("=" + (p[6..] + t))
    ensures p[6..] == "7BIT" || p[6..] == "8BITMIME"
  {
    assert p == [p[0]] + p[1..5] + [p[5]] + p[6..];
    assert p[5..][1..] == p[6..];
    assert p[5..][0] == '=';
  }

  lemma BodyParamBuilt(key: string, value: string)
    requires EqualsIgnoringCase(key, "BODY") && (value == "7BIT" || value == "8BITMIME")
    ensures IsBodyParam(" " + key + "=" + value)
  {
    var p := " " + key + "=" + value;
    LettersOfBody(key);
    assert p[1..5] == key && p[5..] == "=" + value;
  }

  lemma {:induction false} MailParamsComplete(ps: seq<string>)
    requires forall i :: 0 <= i < |ps| ==> IsBodyParam(ps[i])
    ensures MailParams(Concat(ps))
    ensures Concat(ps) == "" || Concat(ps)[0] == ' '
  {
    if ps != [] {
      var p, more := ps[0], Concat(ps[1..]);
      MailParamsComplete(ps[1..]);
      BodyParamParts(p, more);
      EsmtpParamExact(p[1..5], p[6..], more);
    }
  }

  lemma FirstParam(s: string) returns (first: string, rest: string)
    requires MailParams(s) && s != ""
    ensures s == first + rest && |rest| < |s|
    ensures IsBodyParam(first) && MailParams(rest)
  {
    EsmtpParamSound(s[1..]);
    var p := EsmtpParam(s[1..]).value;
    BodyParamBuilt(p.key, p.value);
    first, rest := " " + p.key + "=" + p.value, p.rest;
    Rejoin(s, p.key, p.value, rest);
  }

  lemma Rejoin(s: string, key: string, value: string, t: string)
    requires s != "" && s[0] == ' ' && s[1..] == key + ("=" + (value + t))
    ensures s == " " + key + "=" + value + t
  {
    assert s == [s[0]] + s[1..];
  }

  lemma {:induction false} MailParamsSound(s: string) returns (ps: seq<string>)
    requires MailParams(s)
    ensures s == Concat(ps) && forall i :: 0 <= i < |ps| ==> IsBodyParam(ps[i])
    decreases |s|
  {
    if s == "" {
      ps := [];
    } else {
      var first, rest := FirstParam(s);
      var more := MailParamsSound(rest);
      ps := [first] + more;
      assert ps[1..] == more;
    }
  }

  /** The list is accepted exactly when it is a sequence of ` BODY=7BIT` and ` BODY=8BITMIME`. */
  lemma MailParamsGrammar(s: string)
    ensures MailParams(s) <==>
            exists ps: seq<string> :: s == Concat(ps) && forall i :: 0 <= i < |ps| ==> IsBodyParam(ps[i])
  {
    if MailParams(s) {
      var ps := MailParamsSound(s);
    }
    forall ps: seq<string> | s == Concat(ps) && forall i :: 0 <= i < |ps| ==> IsBodyParam(ps[i])
      ensures MailParams(s)
    {
      MailParamsComplete(ps);
    }
  }

  lemma {:induction false} ParamsArePrintable(ps: seq<string>)
    requires forall i :: 0 <= i < |ps| ==> IsBodyParam(ps[i])
    ensures AllPrintable(Concat(ps))
  {
    if ps != [] {
      ParamIsPrintable(ps[0]);
      ParamsArePrintable(ps[1..]);
    }
  }

  lemma ParamIsPrintable(p: string)
    requires IsBodyParam(p)
    ensures AllPrintable(p)
  {
    LettersOfBody(p[1..5]);
    forall i | 0 <= i < |p| ensures IsPrintable(p[i]) {
      if 1 <= i < 5 {
        assert p[i] == p[1..5][i - 1];
      } else if i >= 5 {
        assert p[i] == p[5..][i - 5];
      }
    }
  }
}
