/** The AUTH exchange: what a client's answers come to (section 4 of RFC 4954). */
module Auth {
  import opened Bytes
  import opened Sequences
  import opened Text
  import opened Wire
  import opened Chunks
  import opened Transfer

  /** How the exchange came out: no answer, an answer refused with a code, or a login. */
  datatype Attempt = NoAnswer | Unusable(code: nat) | Login(username: string, password: string)

  const NUL: byte := 0

  /** The strict decoder: line breaks are skipped, anything else must be whole padded groups. */
  function DecodeStd(s: Bytes): Option<Bytes> {
    var t := Filter(s, c => c != CR && c != LF);
    var u := TrimPadding(t);
    if |t| % 4 != 0 || |t| > |u| + 2 then None else DecodeUnpadded(u)
  }

  function DecodeText(token: string): Option<Bytes> {
    DecodeStd(Octets(token))
  }

  /** The next line the client sends, trimmed. */
  function Answer(input: Bytes): Option<string> {
    match LineOf(input)
    case None => None
    case Some(line) => Some(TrimSpace(Chars(line)))
  }

  /** The first word, and the rest. */
  function SplitCommand(line: string): (string, string) {
    var text := TrimSpace(line);
    match Cut(text, ' ')
    case None => (Lower(text), "")
    case Some(p) => (Lower(p.0), TrimSpace(p.1))
  }

  /** Authorization identity, user name and password with NUL between. */
  function PlainAttempt(token: string): Attempt {
    match DecodeText(token)
    case None => Unusable(501)
    case Some(decoded) =>
      var parts := Split(decoded, {NUL});
      if |parts| != 3 then Unusable(501) else Login(Chars(parts[1]), Chars(parts[2]))
  }

  function LoginAttempt(username: string, password: string): Attempt {
    match DecodeText(username)
    case None => Unusable(501)
    case Some(name) =>
      match DecodeText(password)
      case None => Unusable(501)
      case Some(secret) => Login(Chars(name), Chars(secret))
  }

  /** The arguments of AUTH and what the client sends after it. */
  function AttemptOf(args: string, input: Bytes): Attempt {
    var words := SplitCommand(args);
    if words.0 == "plain" then
      match (if words.1 != "" then Some(words.1) else Answer(input))
      case None => NoAnswer
      case Some(token) => PlainAttempt(token)
    else if words.0 == "login" then
      match (if words.1 != "" then Some(words.1) else Answer(input))
      case None => NoAnswer
      case Some(name) =>
        match Answer(BehindFirst(words.1, input))
        case None => NoAnswer
        case Some(secret) => LoginAttempt(name, secret)
    else Unusable(504)
  }

  /** The first answer may come with the command. */
  function BehindFirst(given: string, input: Bytes): Bytes {
    if given != "" then input else LeftAfter(0, input)
  }

  /** What the exchange leaves for the commands behind it. */
  function AttemptLeft(args: string, input: Bytes): Bytes {
    var words := SplitCommand(args);
    if words.0 == "plain" then BehindFirst(words.1, input)
    else if words.0 == "login" then
      var behind := BehindFirst(words.1, input);
      if words.1 == "" && Answer(input).None? then behind else LeftAfter(0, behind)
    else input
  }

  // ---------------------------------------------------------------------------
  // What a client encodes is what the server decodes
  // ---------------------------------------------------------------------------

  lemma {:induction false} EncodeLength(content: Bytes)
    ensures |Encode(content)| % 4 == 0 && |Encode(content)| <= |Unpadded(content)| + 2
    ensures content != [] ==> Encode(content) != []
  {
    if |content| >= 3 {
      EncodeLength(content[3..]);
    }
  }

  lemma {:induction false} FilterAll(s: Bytes, keep: byte -> bool)
    requires forall c | c in s :: keep(c)
    ensures Filter(s, keep) == s
  {
    if s != [] {
      assert s[0] in s;
      FilterAll(s[1..], keep);
      assert s == [s[0]] + s[1..];
    }
  }

  /** There is nothing to skip in a code. */
  lemma NothingSkipped(content: Bytes)
    ensures Filter(Encode(content), c => c != CR && c != LF) == Encode(content)
  {
    NoBreakInCode(content);
    FilterAll(Encode(content), c => c != CR && c != LF);
  }

  lemma PaddingTrimmed(content: Bytes)
    ensures TrimPadding(Encode(content)) == Unpadded(content)
  {
    EncodeIsPadded(content);
    UnpaddedDecodes(content);
    TrimPaddingAway(Unpadded(content));
  }

  /** Strict decoding undoes encoding, for every byte string. */
  lemma DecodeUndoesEncode(content: Bytes)
    ensures DecodeStd(Encode(content)) == Some(content)
  {
    NothingSkipped(content);
    PaddingTrimmed(content);
    UnpaddedDecodes(content);
    EncodeLength(content);
  }

  lemma NoBreakInCode(content: Bytes)
    ensures forall c | c in Encode(content) :: c == PAD || Value(c) >= 0
  {
    EncodeIsPadded(content);
    UnpaddedDecodes(content);
  }

  function Token(content: Bytes): string {
    Chars(Encode(content))
  }

  lemma TokenDecodes(content: Bytes)
    ensures DecodeText(Token(content)) == Some(content)
  {
    OctetsOfChars(Encode(content));
    DecodeUndoesEncode(content);
  }

  /** A token has no white space in it. */
  lemma TokenIsOneWord(content: Bytes)
    ensures forall c | c in Token(content) :: IsVisible(c)
    ensures IsTrimmed(Token(content)) && (content != [] ==> Token(content) != "")
  {
    var t := Token(content);
    NoBreakInCode(content);
    EncodeLength(content);
    forall i | 0 <= i < |t| ensures IsVisible(t[i]) {
      assert Encode(content)[i] in Encode(content);
    }
    VisibleIsTrimmed(t);
  }

  lemma OneArgument(word: string, token: string)
    requires word == "PLAIN" || word == "LOGIN"
    requires token != "" && forall c | c in token :: IsVisible(c)
    ensures SplitCommand(word + " " + token) == (Lower(word), token)
  {
    var text := word + " " + token;
    VisibleIsTrimmed(token);
    GluedIsTrimmed(word, ' ', token);
    assert text == word + [' '] + token;
    TrimSpaceOfTrimmed(text);
    CutAt(word, ' ', token);
    TrimSpaceOfTrimmed(token);
  }

  lemma NoArgument(word: string)
    requires word == "PLAIN" || word == "LOGIN"
    ensures SplitCommand(word) == (Lower(word), "")
  {
    TrimSpaceOfTrimmed(word);
    assert ' ' !in word;
    CutNowhere(word, ' ');
  }

  /** Only two mechanisms are offered; a request for any other is refused, and nothing is read for it. */
  lemma UnknownMechanism(word: string, token: string, input: Bytes)
    requires AllVisible(word) && Lower(word) !in {"plain", "login"} && forall c | c in token :: IsVisible(c)
    ensures var args := if token == "" then word else word + " " + token;
            AttemptOf(args, input) == Unusable(504) && AttemptLeft(args, input) == input
  {
    assert ' ' !in word;
    VisibleIsTrimmed(word);
    VisibleIsTrimmed(token);
    if token == "" {
      CutNowhere(word, ' ');
    } else {
      GluedIsTrimmed(word, ' ', token);
      assert word + " " + token == word + [' '] + token;
      CutAt(word, ' ', token);
    }
  }

  /** What is no code is refused, wherever it stands. */
  lemma NoCode(token: string, other: string)
    requires DecodeText(token) == None
    ensures PlainAttempt(token) == LoginAttempt(token, other) == LoginAttempt(other, token) == Unusable(501)
  {
  }

  lemma WordsInLowerCase()
    ensures Lower("PLAIN") == "plain" && Lower("LOGIN") == "login"
  {
    assert Lower("PLAIN") == "plain";
    assert Lower("LOGIN") == "login";
  }

  function Credentials(identity: Bytes, username: Bytes, password: Bytes): Bytes {
    identity + [NUL] + (username + [NUL] + password)
  }

  lemma ThreeParts(identity: Bytes, username: Bytes, password: Bytes)
    ensures var parts := Split(Credentials(identity, username, password), {NUL});
            && (|parts| == 3 <==> NUL !in identity && NUL !in username && NUL !in password)
            && (|parts| == 3 ==> parts == [identity, username, password])
  {
    SplitBreak(identity, NUL, username + [NUL] + password, {NUL});
    SplitBreak(username, NUL, password, {NUL});
    SplitOnceIff(identity, {NUL});
    SplitOnceIff(username, {NUL});
    SplitOnceIff(password, {NUL});
  }

  lemma PlainToken(identity: Bytes, username: Bytes, password: Bytes)
    ensures PlainAttempt(Token(Credentials(identity, username, password)))
            == if NUL !in identity && NUL !in username && NUL !in password
               then Login(Chars(username), Chars(password)) else Unusable(501)
  {
    TokenDecodes(Credentials(identity, username, password));
    ThreeParts(identity, username, password);
  }

  lemma PlainArgument(content: Bytes, input: Bytes)
    requires content != []
    ensures AttemptOf("PLAIN " + Token(content), input) == PlainAttempt(Token(content))
    ensures AttemptLeft("PLAIN " + Token(content), input) == input
  {
    TokenIsOneWord(content);
    OneArgument("PLAIN", Token(content));
    WordsInLowerCase();
    assert "PLAIN" + " " == "PLAIN ";
  }

  /** AUTH PLAIN delivers what the client encoded exactly when no part contains NUL. */
  lemma PlainIff(identity: Bytes, username: Bytes, password: Bytes, input: Bytes)
    ensures AttemptOf("PLAIN " + Token(Credentials(identity, username, password)), input)
            == if NUL !in identity && NUL !in username && NUL !in password
               then Login(Chars(username), Chars(password)) else Unusable(501)
    ensures AttemptLeft("PLAIN " + Token(Credentials(identity, username, password)), input) == input
  {
    PlainArgument(Credentials(identity, username, password), input);
    PlainToken(identity, username, password);
  }

  lemma AnswerOfToken(content: Bytes, rest: Bytes)
    requires |Encode(content)| <= MAX_LINE_BYTES
    ensures var input := Encode(content) + CRLF + rest;
            Answer(input) == Some(Token(content)) && LeftAfter(0, input) == rest
  {
    NoBreakInCode(content);
    ReadLineOfLine(Encode(content), rest, MAX_LINE_BYTES);
    LeftOfLine(Encode(content) + CRLF + rest);
    TokenIsOneWord(content);
    TrimSpaceOfTrimmed(Token(content));
  }

  ghost predicate AllBlank(s: Bytes) {
    forall c | c in s :: c == SPACE || c == TAB
  }

  /** Blanks around an answer do not count. */
  lemma AnswerIsTrimmed(before: Bytes, content: Bytes, behind: Bytes, rest: Bytes)
    requires content != [] && AllBlank(before) && AllBlank(behind)
    requires |before + Encode(content) + behind| <= MAX_LINE_BYTES
    ensures Answer(before + Encode(content) + behind + CRLF + rest) == Some(Token(content))
  {
    var line, t := before + Encode(content) + behind, Token(content);
    NoBreakInCode(content);
    TokenIsOneWord(content);
    EncodeLength(content);
    assert LF !in before && LF !in behind && LF !in Encode(content);
    ReadLineOfLine(line, rest, MAX_LINE_BYTES);
    CharsJoined(before + Encode(content), behind);
    CharsJoined(before, Encode(content));
    BlankOctets(before);
    BlankOctets(behind);
    assert t[0] in t && t[|t| - 1] in t;
    TrimSpaceAround(Chars(before), t, Chars(behind));
  }

  lemma BlankOctets(blanks: Bytes)
    requires AllBlank(blanks)
    ensures forall c | c in Chars(blanks) :: IsAsciiSpace(c)
  {
    forall i | 0 <= i < |blanks| ensures IsAsciiSpace(Chars(blanks)[i]) {
      assert blanks[i] in blanks;
    }
  }

  lemma LoginWithoutArgument(input: Bytes)
    ensures SplitCommand("LOGIN") == ("login", "")
    ensures AttemptLeft("LOGIN", input)
            == if Answer(input).None? then LeftAfter(0, input) else LeftAfter(0, LeftAfter(0, input))
    ensures Answer(input).Some? && Answer(LeftAfter(0, input)).Some? ==>
              AttemptOf("LOGIN", input) == LoginAttempt(Answer(input).value, Answer(LeftAfter(0, input)).value)
  {
    NoArgument("LOGIN");
    WordsInLowerCase();
  }

  lemma TokensLogIn(username: Bytes, password: Bytes)
    ensures LoginAttempt(Token(username), Token(password)) == Login(Chars(username), Chars(password))
  {
    TokenDecodes(username);
    TokenDecodes(password);
  }

  /** AUTH LOGIN delivers any user name and password whose lines are within the limit, and takes nothing else. */
  lemma LoginDelivers(username: Bytes, password: Bytes, rest: Bytes)
    requires |Encode(username)| <= MAX_LINE_BYTES && |Encode(password)| <= MAX_LINE_BYTES
    ensures var input := Encode(username) + CRLF + (Encode(password) + CRLF + rest);
            AttemptOf("LOGIN", input) == Login(Chars(username), Chars(password)) && AttemptLeft("LOGIN", input) == rest
  {
    var behind := Encode(password) + CRLF + rest;
    AnswerOfToken(username, behind);
    AnswerOfToken(password, rest);
    LoginWithoutArgument(Encode(username) + CRLF + behind);
    TokensLogIn(username, password);
  }

  /** There is nothing to skip in a code without its padding. */
  lemma NothingSkippedUnpadded(content: Bytes)
    ensures Filter(Unpadded(content), c => c != CR && c != LF) == Unpadded(content)
  {
    var u := Unpadded(content);
    UnpaddedDecodes(content);
    forall c | c in u ensures c != CR && c != LF {
      var i :| 0 <= i < |u| && u[i] == c;
      assert Value(u[i]) >= 0;
    }
    FilterAll(u, c => c != CR && c != LF);
  }

  /** The strict decoder wants the padding. */
  lemma PaddingRequired(content: Bytes)
    requires |content| % 3 != 0
    ensures DecodeStd(Unpadded(content)) == None
  {
    NothingSkippedUnpadded(content);
    UnpaddedLength(content);
  }

  lemma {:induction false} UnpaddedLength(content: Bytes)
    ensures |Unpadded(content)| % 4 == 0 <==> |content| % 3 == 0
  {
    if |content| >= 3 {
      UnpaddedLength(content[3..]);
    }
  }
}
