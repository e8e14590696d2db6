/**
 The arguments of MAIL and RCPT, written out and read back: which address they give, which declared
 size, and what an accepted one puts into the envelope (sections 4.1.1.2 and 4.1.1.3 of RFC 5321).
 */
module SmtpPaths {
  import opened Bytes
  import opened Sequences
  import opened Text
  import opened Auth
  import opened StoreModel
  import opened Smtp
  import opened SmtpRuns

  // ---------------------------------------------------------------------------
  // Addresses
  // ---------------------------------------------------------------------------

  function Bracketed(address: string, params: string): string {
    "<" + address + ">" + params
  }

  /** What stands between the brackets is the address, trimmed; what follows them is the parameters. */
  lemma BracketedPath(address: string, params: string)
    requires '>' !in address
    ensures ParsePath(Bracketed(address, params)) == Some((TrimSpace(address), TrimRight(params)))
  {
    var front, rest := "<" + address + ">", TrimRight(params);
    var text := front + rest;
    assert Bracketed(address, params) == front + params && (front + params)[0] == '<';
    TrimRightBehind(front, params);
    assert text[0] == '<' && text[..1] == "<" && text == ("<" + address) + ['>'] + rest;
    CutAt("<" + address, '>', rest);
    assert ("<" + address)[1..] == address;
  }

  /** Trimming it first makes no difference. */
  lemma BracketedTrimmed(address: string, params: string)
    requires '>' !in address
    ensures ParsePath(TrimSpace(Bracketed(address, params))) == Some((TrimSpace(address), TrimRight(params)))
  {
    var front := "<" + address + ">";
    assert Bracketed(address, params) == front + params && (front + params)[0] == '<';
    TrimRightBehind(front, params);
    TrimRightIsPrefix(params);
    BracketedPath(address, TrimRight(params));
  }

  /** An address without blanks stands for itself when it does not begin with a bracket. */
  lemma PlainPath(address: string, words: seq<string>)
    requires AllVisible(address) && address[0] != '<' && Words(words)
    ensures ParsePath(address + Spaced(words)) == Some((address, if words == [] then "" else Spaced(words)[1..]))
  {
    var text, params := address + Spaced(words), Spaced(words);
    VisibleFirst(address, params);
    assert address[|address| - 1] in address;
    if words != [] {
      SpacedEndsVisible(words);
      assert text[|text| - 1] == params[|params| - 1];
    } else {
      assert text == address;
    }
    EndsVisible(text);
    TrimSpaceOfTrimmed(text);
    assert text[0] == address[0];
    VisibleIsTrimmed(address);
    TrimSpaceOfTrimmed(address);
    assert ' ' !in address;
    if words == [] {
      CutNowhere(text, ' ');
    } else {
      assert params == [' '] + params[1..];
      assert text == address + [' '] + params[1..];
      CutAt(address, ' ', params[1..]);
    }
  }

  /** A bracket that is not closed is refused. */
  lemma OpenBracket(text: string)
    requires '>' !in text
    ensures ParsePath("<" + text) == None
  {
    var t := "<" + text;
    assert t[0] == '<';
    TrimSpaceTrims(t);
    TrimLeftIsSuffix(t);
    assert TrimLeft(t) == t;
    TrimRightIsPrefix(t);
    TrimSpaceKeeps(t, '<');
    assert TrimSpace(t) != "" && TrimSpace(t)[0] == '<';
    assert HasPrefix(TrimSpace(t), "<");
    CutNowhere(TrimSpace(t), '>');
  }

  // ---------------------------------------------------------------------------
  // The declared size
  // ---------------------------------------------------------------------------

  /** What stands before the first `=`. */
  function KeyOf(word: string): string {
    match Cut(word, '=')
    case None => word
    case Some(p) => p.0
  }

  ghost predicate NoSize(words: seq<string>) {
    forall i | 0 <= i < |words| :: Lower(KeyOf(words[i])) != "size"
  }

  lemma {:induction false} NoSizeParam(words: seq<string>)
    requires NoSize(words)
    ensures SizeParam(words) == None
  {
    if words != [] {
      NoSizeParam(words[..|words| - 1]);
    }
  }

  lemma SizeParamNext(words: seq<string>, last: string)
    ensures SizeParam(words + [last])
            == if Lower(KeyOf(last)) != "size" then SizeParam(words)
               else Some(if Cut(last, '=').Some? then Cut(last, '=').value.1 else "")
  {
    assert (words + [last])[..|words|] == words;
  }

  /** The last `SIZE=` counts, in any case. */
  lemma {:induction false} LastSizeCounts(before: seq<string>, key: string, value: string, behind: seq<string>)
    requires '=' !in key && Lower(key) == "size" && NoSize(behind)
    ensures SizeParam(before + [key + "=" + value] + behind) == Some(value)
  {
    var words := before + [key + "=" + value];
    if behind == [] {
      assert words + behind == words;
      CutAt(key, '=', value);
      SizeParamNext(before, key + "=" + value);
    } else {
      var init, last := behind[..|behind| - 1], behind[|behind| - 1];
      assert words + behind == (words + init) + [last];
      LastSizeCounts(before, key, value, init);
      SizeParamNext(words + init, last);
    }
  }

  lemma {:induction false} DigitsThen(digits: string, tail: string)
    requires (forall c | c in digits :: IsDigit(c)) && (tail == "" || !IsDigit(tail[0]))
    ensures LeadingDigits(digits + tail) == |digits|
  {
    if digits == "" {
      assert digits + tail == tail;
    } else {
      assert digits[0] in digits;
      assert (digits + tail)[1..] == digits[1..] + tail;
      DigitsThen(digits[1..], tail);
    }
  }

  /** A number is scanned off the front, whatever follows it. */
  lemma ScanOfDecimal(n: nat, tail: string)
    requires tail == "" || !IsDigit(tail[0])
    ensures ScanInt(Decimal(n) + tail) == if n <= MAX_INT64 then Some(n) else None
  {
    var digits := Decimal(n);
    ValueOfDecimal(n);
    assert digits[0] in digits && (digits + tail)[0] == digits[0];
    DigitsThen(digits, tail);
    assert (digits + tail)[..|digits|] == digits;
  }

  // ---------------------------------------------------------------------------
  // MAIL and RCPT
  // ---------------------------------------------------------------------------

  lemma FromIsLower()
    ensures Lower("FROM:") == "from:"
  {
  }

  lemma ToIsLower()
    ensures Lower("TO:") == "to:"
  {
  }

  lemma BehindKeyword(keyword: string, rest: string, prefix: string)
    requires Lower(keyword) == Lower(prefix)
    ensures CutPrefixFold(keyword + rest, prefix) == Some(TrimSpace(rest))
  {
    assert |keyword| == |Lower(keyword)| == |prefix|;
    assert (keyword + rest)[..|prefix|] == keyword && (keyword + rest)[|prefix|..] == rest;
  }

  /** The arguments: the keyword, blanks, an address in brackets and any parameters. */
  ghost predicate IsPath(args: string, keyword: string, address: string, params: string) {
    && '>' !in address
    && exists k, blanks ::
         && Lower(k) == keyword && (forall c | c in blanks :: IsAsciiSpace(c))
         && args == k + (blanks + Bracketed(address, params))
  }

  lemma BlanksBefore(blanks: string, address: string, params: string)
    requires forall c | c in blanks :: IsAsciiSpace(c)
    ensures TrimSpace(blanks + Bracketed(address, params)) == TrimSpace(Bracketed(address, params))
  {
    assert Bracketed(address, params)[0] == '<';
    TrimLeftBlanks(blanks, Bracketed(address, params));
  }

  /** What such arguments come to. */
  lemma PathBehind(args: string, prefix: string, address: string, params: string)
    requires IsPath(args, Lower(prefix), address, params)
    ensures var rest := CutPrefixFold(args, prefix);
            rest.Some? && ParsePath(rest.value) == Some((TrimSpace(address), TrimRight(params)))
  {
    var k, blanks :| && Lower(k) == Lower(prefix) && (forall c | c in blanks :: IsAsciiSpace(c))
                     && args == k + (blanks + Bracketed(address, params));
    BehindKeyword(k, blanks + Bracketed(address, params), prefix);
    BlanksBefore(blanks, address, params);
    BracketedTrimmed(address, params);
  }

  /** The session is ready for MAIL. */
  ghost predicate TakesMail(cfg: Config, s: Session) {
    s.helo != "" && (cfg.auth.AuthRequired? ==> s.authenticated) && !s.inMail
  }

  /** A path in brackets gives the sender, trimmed, unless the parameters declare a readable size over the limit. */
  lemma MailWith(cfg: Config, s: Session, args: string, address: string, params: string)
    requires TakesMail(cfg, s) && IsPath(args, "from:", address, params)
    ensures var size := SizeParam(Fields(params));
            MailTurn(cfg, s, args)
            == if size.Some? && ScanInt(size.value).Some? && ScanInt(size.value).value > cfg.maxSize then Reply(s, 552)
               else Reply(s.(from := TrimSpace(address), inMail := true), 250)
  {
    FromIsLower();
    PathBehind(args, "FROM:", address, params);
    FieldsTrimmed(params);
  }

  /** Without a declared size MAIL is accepted, with what stands between the brackets, trimmed, as the sender. */
  lemma MailGivesSender(cfg: Config, s: Session, args: string, address: string, params: string)
    requires TakesMail(cfg, s) && IsPath(args, "from:", address, params) && NoSize(Fields(params))
    ensures MailTurn(cfg, s, args) == Reply(s.(from := TrimSpace(address), inMail := true), 250)
  {
    NoSizeParam(Fields(params));
    MailWith(cfg, s, args, address, params);
  }

  /** With one, it gets 552 exactly when the last declared size reads as a number over the limit, and then changes nothing. */
  lemma MailTooLargeIff(cfg: Config, s: Session, args: string, address: string, params: string,
                        before: seq<string>, key: string, size: string, behind: seq<string>)
    requires TakesMail(cfg, s) && IsPath(args, "from:", address, params)
    requires Fields(params) == before + [key + "=" + size] + behind
    requires '=' !in key && Lower(key) == "size" && NoSize(behind)
    ensures MailTurn(cfg, s, args)
            == if ScanInt(size).Some? && ScanInt(size).value > cfg.maxSize then Reply(s, 552)
               else Reply(s.(from := TrimSpace(address), inMail := true), 250)
  {
    LastSizeCounts(before, key, size, behind);
    MailWith(cfg, s, args, address, params);
  }

  /** Written out: `SIZE=` and a number, as the only parameter. */
  lemma MailOfSize(cfg: Config, s: Session, address: string, size: nat)
    requires TakesMail(cfg, s) && '>' !in address
    ensures MailTurn(cfg, s, "FROM:" + Bracketed(address, Spaced(["SIZE=" + Decimal(size)])))
            == if cfg.maxSize < size <= MAX_INT64 then Reply(s, 552)
               else Reply(s.(from := TrimSpace(address), inMail := true), 250)
  {
    var params := Spaced(["SIZE=" + Decimal(size)]);
    PlainlyWritten(address, params);
    SizeWord(size);
    SizeFields(Decimal(size));
    MailTooLargeIff(cfg, s, "FROM:" + Bracketed(address, params), address, params, [], "SIZE", Decimal(size), []);
  }

  lemma SizeFields(value: string)
    requires Words(["SIZE=" + value])
    ensures Fields(Spaced(["SIZE=" + value])) == [] + ["SIZE" + "=" + value] + []
  {
    FieldsOfSpaced(["SIZE=" + value]);
    assert "SIZE" + "=" + value == "SIZE=" + value;
  }

  lemma PlainlyWritten(address: string, params: string)
    requires '>' !in address
    ensures IsPath("FROM:" + Bracketed(address, params), "from:", address, params)
  {
    FromIsLower();
    assert "" + Bracketed(address, params) == Bracketed(address, params);
  }

  lemma SizeWord(size: nat)
    ensures Words(["SIZE=" + Decimal(size)]) && Lower("SIZE") == "size"
    ensures ScanInt(Decimal(size)) == if size <= MAX_INT64 then Some(size) else None
  {
    ValueOfDecimal(size);
    ScanOfDecimal(size, "");
    assert Decimal(size) + "" == Decimal(size);
    var word := "SIZE=" + Decimal(size);
    forall c | c in word ensures IsVisible(c) {
      assert c in "SIZE=" || c in Decimal(size);
    }
  }

  /** Why MAIL is refused before its arguments are looked at, in this order. */
  lemma MailRefusedFirst(cfg: Config, s: Session, args: string)
    requires !TakesMail(cfg, s)
    ensures MailTurn(cfg, s, args)
            == Reply(s, if s.helo != "" && cfg.auth.AuthRequired? && !s.authenticated then 530 else 503)
  {
  }

  /** A sender whose bracket stays open is refused. */
  lemma MailOpenBracket(cfg: Config, s: Session, keyword: string, text: string)
    requires TakesMail(cfg, s) && Lower(keyword) == "from:" && '>' !in text
    ensures MailTurn(cfg, s, keyword + ("<" + text)) == Reply(s, 501)
  {
    FromIsLower();
    BehindKeyword(keyword, "<" + text, "FROM:");
    OpenTrimmed(text);
  }

  lemma OpenTrimmed(text: string)
    requires '>' !in text
    ensures ParsePath(TrimSpace("<" + text)) == None
  {
    var t := TrimSpace("<" + text);
    TrimSpaceTrims("<" + text);
    TrimLeftIsSuffix("<" + text);
    assert TrimLeft("<" + text) == "<" + text;
    TrimRightIsPrefix("<" + text);
    TrimSpaceKeeps("<" + text, '<');
    assert t == "<" + t[1..];
    OpenBracket(t[1..]);
  }

  /** RCPT adds what stands between the brackets, trimmed, unless that is nothing or the limit is reached. */
  lemma RcptGivesRecipient(cfg: Config, s: Session, args: string, address: string, params: string)
    requires s.inMail && IsPath(args, "to:", address, params)
    ensures RcptTurn(cfg, s, args)
            == if TrimSpace(address) == "" then Reply(s, 501)
               else if |s.rcpts| >= (if cfg.maxRecipients <= 0 then 100 else cfg.maxRecipients) then Reply(s, 452)
               else Reply(s.(rcpts := s.rcpts + [TrimSpace(address)]), 250)
  {
    ToIsLower();
    PathBehind(args, "TO:", address, params);
  }

  /** RCPT wants an open transaction. */
  lemma RcptNeedsMail(cfg: Config, s: Session, args: string)
    requires !s.inMail
    ensures RcptTurn(cfg, s, args) == Reply(s, 503)
  {
  }

  // ---------------------------------------------------------------------------
  // Logins
  // ---------------------------------------------------------------------------

  /** AUTH logs in, under the name the client gave, if and only if it is on, nobody is logged in, and the login is right. */
  lemma LogsInIff(cfg: Config, s: Session, attempt: Attempt)
    ensures var t := AuthTurn(cfg, s, attempt);
            var right := attempt.Login? && (cfg.username == "" || (attempt.username == cfg.username && attempt.password == cfg.password));
            && t.session == (if !cfg.auth.AuthDisabled? && !s.authenticated && right
                             then s.(authenticated := true, username := attempt.username) else s)
            && (cfg.auth.AuthDisabled? ==> t.code == Some(502))
            && (!cfg.auth.AuthDisabled? && s.authenticated ==> t.code == Some(503))
            && (!cfg.auth.AuthDisabled? && !s.authenticated && attempt.Login? ==> t.code == Some(if right then 235 else 535))
  {
  }

  // ---------------------------------------------------------------------------
  // The envelope
  // ---------------------------------------------------------------------------

  /** The arguments are the keyword and this address in brackets, with any parameters. */
  ghost predicate Gives(args: string, keyword: string, address: string) {
    exists params :: IsPath(args, keyword, address, params)
  }

  lemma AddressGiven(args: string, address: string)
    ensures Gives(args, "from:", address) ==> AddressIn(args, "FROM:") == TrimSpace(address)
    ensures Gives(args, "to:", address) ==> AddressIn(args, "TO:") == TrimSpace(address)
  {
    FromIsLower();
    ToIsLower();
    if Gives(args, "from:", address) {
      var params :| IsPath(args, "from:", address, params);
      PathBehind(args, "FROM:", address, params);
    }
    if Gives(args, "to:", address) {
      var params :| IsPath(args, "to:", address, params);
      PathBehind(args, "TO:", address, params);
    }
  }

  /** The accepted RCPTs, in order, give these addresses. */
  ghost predicate GiveEach(xs: seq<Exchange>, addresses: seq<string>) {
    if xs == [] then addresses == []
    else
      var x := xs[|xs| - 1];
      if AcceptedRcpt(x) then
        && addresses != [] && Gives(x.command.args, "to:", addresses[|addresses| - 1])
        && GiveEach(xs[..|xs| - 1], addresses[..|addresses| - 1])
      else GiveEach(xs[..|xs| - 1], addresses)
  }

  function Trimmed(addresses: seq<string>): (r: seq<string>)
    ensures |r| == |addresses| && forall i | 0 <= i < |r| :: r[i] == TrimSpace(addresses[i])
  {
    seq(|addresses|, i requires 0 <= i < |addresses| => TrimSpace(addresses[i]))
  }

  lemma {:induction false} RecipientsGiven(xs: seq<Exchange>, addresses: seq<string>)
    requires GiveEach(xs, addresses)
    ensures Recipients(xs) == Trimmed(addresses)
  {
    if xs != [] {
      var x := xs[|xs| - 1];
      if AcceptedRcpt(x) {
        var init, last := addresses[..|addresses| - 1], addresses[|addresses| - 1];
        RecipientsGiven(xs[..|xs| - 1], init);
        AddressGiven(x.command.args, last);
        assert Trimmed(addresses) == Trimmed(init) + [TrimSpace(last)];
      } else {
        RecipientsGiven(xs[..|xs| - 1], addresses);
        assert Recipients(xs) == Recipients(xs[..|xs| - 1]);
      }
    }
  }

  /**
   What a dialogue with bracketed addresses puts into the envelope: the sender of the last accepted MAIL
   and, in order, the recipients accepted since, each as it stood between its brackets, trimmed.
   */
  lemma EnvelopeOfBrackets(xs: seq<Exchange>, i: nat, e: Envelope, from: string, to: seq<string>)
    requires OpenSince(xs, i, e.from, e.to)
    requires Gives(xs[i].command.args, "from:", from) && GiveEach(xs[i + 1..], to)
    ensures e.from == TrimSpace(from) && e.to == Trimmed(to)
  {
    AddressGiven(xs[i].command.args, from);
    RecipientsGiven(xs[i + 1..], to);
  }

  // ---------------------------------------------------------------------------
  // The greeting
  // ---------------------------------------------------------------------------

  /** A greeting with a name, white space around it aside, is remembered and begins anew. */
  lemma GreetingGivesName(s: Session, before: string, name: string, behind: string)
    requires (forall c | c in before :: IsAsciiSpace(c)) && forall c | c in behind :: IsAsciiSpace(c)
    requires AllVisible(name)
    ensures HelloTurn(s, before + name + behind) == Reply(s.(helo := name, from := "", rcpts := [], inMail := false), 250)
  {
    assert name[0] in name && name[|name| - 1] in name;
    TrimSpaceAround(before, name, behind);
  }

  /** A blank one is refused, and the greeting there was is forgotten. */
  lemma BlankGreeting(s: Session, args: string)
    requires TrimSpace(args) == ""
    ensures HelloTurn(s, args) == Reply(s.(helo := ""), 501)
  {
  }
}
