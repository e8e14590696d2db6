/** Trimming, case and cutting of texts; a character stands for one octet of the UTF-8 form. */
module Text {
  import opened Bytes
  import opened Sequences

  predicate IsAsciiSpace(c: char) {
    '\t' <= c <= '\r' || c == ' '
  }

  /** White space of two octets: U+0085 and U+00A0. */
  predicate IsSpace2(a: char, b: char) {
    a == '\U{C2}' && (b == '\U{85}' || b == '\U{A0}')
  }

  /** White space of three octets: U+1680, U+2000 to U+200A, U+2028, U+2029, U+202F, U+205F and U+3000. */
  predicate IsSpace3(a: char, b: char, c: char) {
    || (a == '\U{E1}' && b == '\U{9A}' && c == '\U{80}')
    || (a == '\U{E2}' && b == '\U{80}' && ('\U{80}' <= c <= '\U{8A}' || c == '\U{A8}' || c == '\U{A9}' || c == '\U{AF}'))
    || (a == '\U{E2}' && b == '\U{81}' && c == '\U{9F}')
    || (a == '\U{E3}' && b == '\U{80}' && c == '\U{80}')
  }

  /** The octets of the white space that `s` starts with, or 0. */
  function BlankAt(s: string): (k: nat)
    ensures k <= |s|
  {
    if |s| >= 1 && IsAsciiSpace(s[0]) then 1
    else if |s| >= 2 && IsSpace2(s[0], s[1]) then 2
    else if |s| >= 3 && IsSpace3(s[0], s[1], s[2]) then 3
    else 0
  }

  /** The octets of the white space that `s` ends with, or 0. */
  function BlankBefore(s: string): (k: nat)
    ensures k <= |s|
  {
    var n := |s|;
    if n >= 1 && IsAsciiSpace(s[n - 1]) then 1
    else if n >= 2 && IsSpace2(s[n - 2], s[n - 1]) then 2
    else if n >= 3 && IsSpace3(s[n - 3], s[n - 2], s[n - 1]) then 3
    else 0
  }

  /** The octets of a character in UTF-8, up to three (section 3 of RFC 3629). */
  function Utf8(c: nat): string
    requires c < 0x1_0000
  {
    if c < 0x80 then [c as char]
    else if c < 0x800 then [(0xC0 + c / 64) as char, (0x80 + c % 64) as char]
    else [(0xE0 + c / 4096) as char, (0x80 + c / 64 % 64) as char, (0x80 + c % 64) as char]
  }

  /** The characters with the Unicode property White_Space. */
  predicate IsWhiteSpace(c: nat) {
    || 9 <= c <= 13 || c in {0x20, 0x85, 0xA0, 0x1680, 0x2028, 0x2029, 0x202F, 0x205F, 0x3000} || 0x2000 <= c <= 0x200A
  }

  /** A text begins with white space if and only if its first character has that property. */
  lemma BlankIsWhiteSpace(c: nat, rest: string)
    requires c < 0x1_0000
    ensures BlankAt(Utf8(c) + rest) == if IsWhiteSpace(c) then |Utf8(c)| else 0
  {
    var s := Utf8(c) + rest;
    if c < 0x80 {
      assert s[0] == c as char;
    } else if c < 0x800 {
      assert s[0] == (0xC0 + c / 64) as char && s[1] == (0x80 + c % 64) as char;
    } else {
      assert s[0] == (0xE0 + c / 4096) as char && s[1] == (0x80 + c / 64 % 64) as char && s[2] == (0x80 + c % 64) as char;
    }
  }

  function TrimLeft(s: string): string
    decreases |s|
  {
    if BlankAt(s) > 0 then TrimLeft(s[BlankAt(s)..]) else s
  }

  function TrimRight(s: string): string
    decreases |s|
  {
    if BlankBefore(s) > 0 then TrimRight(s[..|s| - BlankBefore(s)]) else s
  }

  function TrimSpace(s: string): string {
    TrimRight(TrimLeft(s))
  }

  /** Neither starts nor ends with white space. */
  predicate IsTrimmed(s: string) {
    BlankAt(s) == 0 && BlankBefore(s) == 0
  }

  lemma TrimSpaceOfTrimmed(s: string)
    requires IsTrimmed(s)
    ensures TrimSpace(s) == s
  {
  }

  lemma {:induction false} TrimLeftIsSuffix(s: string)
    ensures |TrimLeft(s)| <= |s| && TrimLeft(s) == s[|s| - |TrimLeft(s)|..]
    ensures BlankAt(TrimLeft(s)) == 0
    decreases |s|
  {
    var k := BlankAt(s);
    if k > 0 {
      TrimLeftIsSuffix(s[k..]);
      var t := TrimLeft(s[k..]);
      assert s[k..][|s| - k - |t|..] == s[|s| - |t|..];
    }
  }

  lemma {:induction false} TrimRightIsPrefix(s: string)
    ensures TrimRight(s) <= s
    ensures BlankBefore(TrimRight(s)) == 0
    decreases |s|
  {
    if BlankBefore(s) > 0 {
      TrimRightIsPrefix(s[..|s| - BlankBefore(s)]);
    }
  }

  /** A text does not start with white space if a longer one does not. */
  lemma NoBlankInFront(s: string, t: string)
    requires t <= s && BlankAt(s) == 0
    ensures BlankAt(t) == 0
  {
    assert forall i | 0 <= i < |t| :: t[i] == s[i];
  }

  lemma TrimSpaceTrims(s: string)
    ensures IsTrimmed(TrimSpace(s))
    ensures forall c | c in TrimSpace(s) :: c in s
  {
    var left := TrimLeft(s);
    TrimLeftIsSuffix(s);
    TrimRightIsPrefix(left);
    NoBlankInFront(left, TrimSpace(s));
    forall c | c in TrimSpace(s) ensures c in s {
      assert c in left;
    }
  }

  /** Two trimmed texts with an ASCII character between them. */
  lemma GluedIsTrimmed(a: string, glue: char, b: string)
    requires a != "" && BlankAt(a) == 0 && b != "" && BlankBefore(b) == 0 && glue < '\U{80}'
    ensures IsTrimmed(a + [glue] + b)
  {
    var s, n, m := a + [glue] + b, |a|, |b|;
    assert s[n] == glue && forall i | 0 <= i < n :: s[i] == a[i];
    assert forall i | 0 <= i < m :: s[n + 1 + i] == b[i];
  }

  /** Visible ASCII throughout. */
  predicate IsVisible(c: char) {
    c < '\U{80}' && !IsAsciiSpace(c)
  }

  /** Trimming takes no visible character away. */
  lemma {:induction false} TrimLeftKeeps(s: string, c: char)
    requires c in s && IsVisible(c)
    ensures c in TrimLeft(s)
    decreases |s|
  {
    var k := BlankAt(s);
    if k > 0 {
      assert forall i | 0 <= i < k :: !IsVisible(s[i]);
      assert s == s[..k] + s[k..];
      TrimLeftKeeps(s[k..], c);
    }
  }

  lemma {:induction false} TrimRightKeeps(s: string, c: char)
    requires c in s && IsVisible(c)
    ensures c in TrimRight(s)
    decreases |s|
  {
    var n := |s| - BlankBefore(s);
    if n < |s| {
      assert forall i | n <= i < |s| :: !IsVisible(s[i]);
      assert s == s[..n] + s[n..];
      TrimRightKeeps(s[..n], c);
    }
  }

  lemma TrimSpaceKeeps(s: string, c: char)
    requires c in s && IsVisible(c)
    ensures c in TrimSpace(s)
  {
    TrimLeftKeeps(s, c);
    TrimRightKeeps(TrimLeft(s), c);
  }

  lemma VisibleIsTrimmed(s: string)
    requires forall c | c in s :: IsVisible(c)
    ensures IsTrimmed(s)
  {
    assert forall i | 0 <= i < |s| :: s[i] in s;
  }

  lemma {:induction false} TrimLeftBlanks(blanks: string, s: string)
    requires (forall c | c in blanks :: IsAsciiSpace(c)) && BlankAt(s) == 0
    ensures TrimLeft(blanks + s) == s
  {
    if blanks == "" {
      assert blanks + s == s;
    } else {
      assert blanks[0] in blanks && (blanks + s)[1..] == blanks[1..] + s;
      TrimLeftBlanks(blanks[1..], s);
    }
  }

  lemma {:induction false} TrimRightBlanks(s: string, blanks: string)
    requires (forall c | c in blanks :: IsAsciiSpace(c)) && BlankBefore(s) == 0
    ensures TrimRight(s + blanks) == s
  {
    if blanks == "" {
      assert s + blanks == s;
    } else {
      var t := s + blanks;
      assert blanks[|blanks| - 1] in blanks && t[..|t| - 1] == s + blanks[..|blanks| - 1];
      TrimRightBlanks(s, blanks[..|blanks| - 1]);
    }
  }

  /** Trimming takes off the white space around a text and nothing else. */
  lemma TrimSpaceAround(before: string, text: string, behind: string)
    requires (forall c | c in before :: IsAsciiSpace(c)) && forall c | c in behind :: IsAsciiSpace(c)
    requires text != "" && IsVisible(text[0]) && IsVisible(text[|text| - 1])
    ensures TrimSpace(before + text + behind) == text
  {
    assert (text + behind)[0] == text[0];
    assert before + text + behind == before + (text + behind);
    TrimLeftBlanks(before, text + behind);
    TrimRightBlanks(text, behind);
  }

  function LowerChar(c: char): char {
    if 'A' <= c <= 'Z' then c + ' ' else c
  }

  function Lower(s: string): (r: string)
    ensures |r| == |s|
    ensures forall i | 0 <= i < |s| :: r[i] == LowerChar(s[i])
  {
    seq(|s|, i requires 0 <= i < |s| => LowerChar(s[i]))
  }

  lemma LowerIdempotent(s: string)
    ensures Lower(Lower(s)) == Lower(s)
  {
  }

  lemma LowerKeepsShape(s: string, avoid: set<char>)
    requires IsTrimmed(s) && Free(s, avoid)
    requires forall c | c in avoid :: !('a' <= c <= 'z')
    ensures IsTrimmed(Lower(s)) && Free(Lower(s), avoid)
  {
    forall c | c in Lower(s) ensures c !in avoid {
      var i :| 0 <= i < |s| && Lower(s)[i] == c;
      assert s[i] in s;
    }
  }

  /** The parts before and after the first `sep`, if there is one. */
  function Cut(s: string, sep: char): (r: Option<(string, string)>)
    ensures r.None? ==> sep !in s
    ensures r.Some? ==> s == r.value.0 + [sep] + r.value.1 && sep !in r.value.0
  {
    if s == [] then None
    else if s[0] == sep then
      assert s == [] + [sep] + s[1..];
      Some(([], s[1..]))
    else
      match Cut(s[1..], sep)
      case None => assert s == [s[0]] + s[1..]; None
      case Some(p) =>
        assert s == [s[0]] + s[1..];
        Some(([s[0]] + p.0, p.1))
  }

  lemma {:induction false} CutAt(a: string, sep: char, b: string)
    requires sep !in a
    ensures Cut(a + [sep] + b, sep) == Some((a, b))
  {
    var s := a + [sep] + b;
    if a == [] {
      assert s[1..] == b;
    } else {
      CutAt(a[1..], sep, b);
      assert s[1..] == a[1..] + [sep] + b;
      assert [a[0]] + a[1..] == a;
    }
  }

  lemma {:induction false} CutNowhere(s: string, sep: char)
    requires sep !in s
    ensures Cut(s, sep) == None
  {
    if s != [] {
      CutNowhere(s[1..], sep);
      assert s[0] in s;
    }
  }

  function Count(s: string, c: char): nat {
    if s == [] then 0 else (if s[0] == c then 1 else 0) + Count(s[1..], c)
  }

  /** Where the first word of `s` ends. */
  function WordEnd(s: string): (k: nat)
    ensures k <= |s| && (s != [] && BlankAt(s) == 0 ==> k > 0)
  {
    if s == [] || BlankAt(s) > 0 then 0 else 1 + WordEnd(s[1..])
  }

  /** The words between runs of white space. */
  function Fields(s: string): seq<string>
    decreases |s|
  {
    TrimLeftIsSuffix(s);
    var t := TrimLeft(s);
    if t == [] then [] else [t[..WordEnd(t)]] + Fields(t[WordEnd(t)..])
  }

  ghost predicate AllVisible(word: string) {
    word != "" && forall c | c in word :: IsVisible(c)
  }

  ghost predicate Words(words: seq<string>) {
    forall i | 0 <= i < |words| :: AllVisible(words[i])
  }

  /** Each word with a blank before it. */
  function Spaced(words: seq<string>): string {
    if words == [] then "" else " " + words[0] + Spaced(words[1..])
  }

  lemma {:induction false} WordEndOf(word: string, rest: string)
    requires (forall c | c in word :: IsVisible(c)) && (rest == "" || rest[0] == ' ')
    ensures WordEnd(word + rest) == |word|
  {
    if word == "" {
      assert word + rest == rest;
    } else {
      assert word[0] in word && (word + rest)[0] == word[0];
      assert (word + rest)[1..] == word[1..] + rest;
      WordEndOf(word[1..], rest);
    }
  }

  lemma VisibleFirst(word: string, rest: string)
    requires AllVisible(word)
    ensures BlankAt(word + rest) == 0 && TrimLeft(word + rest) == word + rest
  {
    assert word[0] in word && (word + rest)[0] == word[0];
  }

  lemma BlankThenWord(word: string, rest: string)
    requires AllVisible(word)
    ensures TrimLeft(" " + word + rest) == word + rest
  {
    VisibleFirst(word, rest);
    assert (" " + word + rest)[1..] == word + rest;
  }

  lemma FieldsCons(word: string, rest: string)
    requires AllVisible(word) && (rest == "" || rest[0] == ' ')
    ensures Fields(" " + word + rest) == [word] + Fields(rest)
  {
    var t := word + rest;
    BlankThenWord(word, rest);
    WordEndOf(word, rest);
    assert t[..|word|] == word && t[|word|..] == rest;
  }

  /** Words written with blanks before them are read as these words. */
  lemma {:induction false} FieldsOfSpaced(words: seq<string>)
    requires Words(words)
    ensures Fields(Spaced(words)) == words
  {
    if words != [] {
      var rest := Spaced(words[1..]);
      assert AllVisible(words[0]);
      assert rest == "" || rest[0] == ' ';
      FieldsOfSpaced(words[1..]);
      FieldsCons(words[0], rest);
      assert words == [words[0]] + words[1..];
    }
  }

  lemma FieldsFrom(word: string, words: seq<string>)
    requires AllVisible(word) && Words(words)
    ensures Fields(word + Spaced(words)) == [word] + words
  {
    var t, rest := word + Spaced(words), Spaced(words);
    assert rest == "" || rest[0] == ' ';
    VisibleFirst(word, rest);
    WordEndOf(word, rest);
    assert t[..|word|] == word && t[|word|..] == rest;
    FieldsOfSpaced(words);
  }

  lemma {:induction false} SpacedEndsVisible(words: seq<string>)
    requires Words(words) && words != []
    ensures Spaced(words) != "" && IsVisible(Spaced(words)[|Spaced(words)| - 1])
  {
    assert AllVisible(words[0]) && words[0][|words[0]| - 1] in words[0];
    if |words| == 1 {
      assert Spaced(words[1..]) == "";
    } else {
      SpacedEndsVisible(words[1..]);
    }
  }

  lemma EndsVisible(s: string)
    requires s != "" && IsVisible(s[|s| - 1])
    ensures BlankBefore(s) == 0
  {
  }

  lemma BlankBeforeBehind(front: string, rest: string)
    requires front != "" && IsVisible(front[|front| - 1])
    ensures BlankBefore(front + rest) == BlankBefore(rest)
  {
    var t := front + rest;
    assert rest != "" ==> t[|t| - 1] == rest[|rest| - 1];
    assert |rest| >= 2 ==> t[|t| - 2] == rest[|rest| - 2];
    assert |rest| >= 3 ==> t[|t| - 3] == rest[|rest| - 3];
    assert t[|front| - 1] == front[|front| - 1];
  }

  /** White space behind a visible character is trimmed as if it stood alone. */
  lemma {:induction false} TrimRightBehind(front: string, rest: string)
    requires front != "" && IsVisible(front[|front| - 1])
    ensures TrimRight(front + rest) == front + TrimRight(rest)
    decreases |rest|
  {
    var t, k := front + rest, BlankBefore(rest);
    BlankBeforeBehind(front, rest);
    if k > 0 {
      assert t[..|t| - k] == front + rest[..|rest| - k];
      TrimRightBehind(front, rest[..|rest| - k]);
    } else {
      assert TrimRight(rest) == rest;
    }
  }

  /** A text is one character of white space. */
  predicate IsBlankChar(b: string) {
    b != "" && BlankAt(b) == |b|
  }

  lemma BlankStaysAt(s: string, b: string)
    requires s != "" && IsBlankChar(b)
    ensures BlankAt(s + b) == BlankAt(s)
  {
    var t := s + b;
    assert t[0] == s[0] && t[|s|] == b[0];
    assert |s| >= 2 ==> t[1] == s[1];
    assert |s| >= 3 ==> t[2] == s[2];
  }

  lemma {:induction false} TrimLeftThenBlank(s: string, b: string)
    requires IsBlankChar(b)
    ensures TrimLeft(s + b) == if TrimLeft(s) == "" then "" else TrimLeft(s) + b
    decreases |s|
  {
    if s == "" {
      assert s + b == b && b[|b|..] == "";
    } else {
      BlankStaysAt(s, b);
      var k := BlankAt(s);
      if k > 0 {
        assert (s + b)[k..] == s[k..] + b;
        TrimLeftThenBlank(s[k..], b);
      }
    }
  }

  lemma {:induction false} WordEndThenBlank(s: string, b: string)
    requires IsBlankChar(b)
    ensures WordEnd(s + b) == WordEnd(s)
  {
    if s == "" {
      assert s + b == b;
    } else {
      BlankStaysAt(s, b);
      assert (s + b)[1..] == s[1..] + b;
      WordEndThenBlank(s[1..], b);
    }
  }

  lemma {:induction false} FieldsThenBlank(s: string, b: string)
    requires IsBlankChar(b)
    ensures Fields(s + b) == Fields(s)
    decreases |s|
  {
    TrimLeftThenBlank(s, b);
    TrimLeftIsSuffix(s);
    var t := TrimLeft(s);
    if t != "" {
      var k := WordEnd(t);
      WordEndThenBlank(t, b);
      assert (t + b)[..k] == t[..k] && (t + b)[k..] == t[k..] + b;
      FieldsThenBlank(t[k..], b);
    }
  }

  lemma LastBlank(s: string)
    requires BlankBefore(s) > 0
    ensures IsBlankChar(s[|s| - BlankBefore(s)..])
  {
  }

  /** White space at the end makes no word. */
  lemma {:induction false} FieldsTrimmed(s: string)
    ensures Fields(TrimRight(s)) == Fields(s)
    decreases |s|
  {
    var k := BlankBefore(s);
    if k > 0 {
      var front, b := s[..|s| - k], s[|s| - k..];
      LastBlank(s);
      assert s == front + b;
      FieldsThenBlank(front, b);
      FieldsTrimmed(front);
    }
  }

  // ---------------------------------------------------------------------------
  // Octets
  // ---------------------------------------------------------------------------

  /** The octets of a text whose characters stand for octets. */
  function Octets(text: string): (r: Bytes)
    ensures |r| == |text|
    ensures forall i | 0 <= i < |text| :: r[i] as int == text[i] as int % 256
  {
    seq(|text|, i requires 0 <= i < |text| => (text[i] as int % 256) as byte)
  }

  function Chars(octets: Bytes): (r: string)
    ensures |r| == |octets|
    ensures forall i | 0 <= i < |octets| :: r[i] as int == octets[i] as int
  {
    seq(|octets|, i requires 0 <= i < |octets| => octets[i] as int as char)
  }

  lemma OctetsOfChars(octets: Bytes)
    ensures Octets(Chars(octets)) == octets
  {
  }

  lemma CharsJoined(a: Bytes, b: Bytes)
    ensures Chars(a + b) == Chars(a) + Chars(b)
  {
  }

  // ---------------------------------------------------------------------------
  // Numbers and logins
  // ---------------------------------------------------------------------------

  const MAX_INT64: int := 0x7FFF_FFFF_FFFF_FFFF

  predicate IsDigit(c: char) {
    '0' <= c <= '9'
  }

  function LeadingDigits(s: string): (k: nat)
    ensures k <= |s|
  {
    if s != "" && IsDigit(s[0]) then 1 + LeadingDigits(s[1..]) else 0
  }

  function DecimalValue(digits: string): nat {
    if digits == "" then 0
    else
      var last := digits[|digits| - 1];
      10 * DecimalValue(digits[..|digits| - 1]) + if IsDigit(last) then (last - '0') as nat else 0
  }

  function Unsigned(s: string): string {
    if s != "" && (s[0] == '-' || s[0] == '+') then s[1..] else s
  }

  /** Scans a signed number that fits 64 bits off the front; anything may follow it. */
  function ScanInt(s: string): Option<int> {
    var body := Unsigned(s);
    var k := LeadingDigits(body);
    var magnitude: int := DecimalValue(body[..k]);
    var value := if s != "" && s[0] == '-' then -magnitude else magnitude;
    if k == 0 || value < -MAX_INT64 - 1 || value > MAX_INT64 then None else Some(value)
  }

  /** A signed number that fits 64 bits, and nothing else. */
  function Atoi(s: string): Option<int> {
    if LeadingDigits(Unsigned(s)) < |Unsigned(s)| then None else ScanInt(s)
  }

  function Decimal(n: nat): (s: string)
    ensures s != "" && '.' !in s
  {
    if n < 10 then ["0123456789"[n]] else Decimal(n / 10) + ["0123456789"[n % 10]]
  }

  lemma DigitOf(d: nat)
    requires d < 10
    ensures IsDigit("0123456789"[d]) && ("0123456789"[d] - '0') as int == d
  {
  }

  /** Writing a number and reading it. */
  lemma {:induction false} ValueOfDecimal(n: nat)
    ensures (forall c | c in Decimal(n) :: IsDigit(c)) && DecimalValue(Decimal(n)) == n
  {
    var s := Decimal(n);
    DigitOf(n % 10);
    if n >= 10 {
      ValueOfDecimal(n / 10);
      assert s[..|s| - 1] == Decimal(n / 10) && s[|s| - 1] == "0123456789"[n % 10];
    } else {
      assert s[..|s| - 1] == "";
    }
  }

  lemma {:induction false} AllLeading(s: string)
    ensures LeadingDigits(s) == |s| <==> forall c | c in s :: IsDigit(c)
  {
    if s != "" {
      AllLeading(s[1..]);
      assert s[0] in s && s == [s[0]] + s[1..];
    }
  }

  predicate InRange64(v: int) {
    -MAX_INT64 - 1 <= v <= MAX_INT64
  }

  /** What is read as a number: an optional sign and at least one digit, within 64 bits. */
  lemma AtoiIff(s: string)
    ensures var body, minus := Unsigned(s), s != "" && s[0] == '-';
            var v := if minus then -(DecimalValue(body) as int) else DecimalValue(body) as int;
            Atoi(s) == if body != "" && (forall c | c in body :: IsDigit(c)) && InRange64(v) then Some(v) else None
  {
    var body := Unsigned(s);
    AllLeading(body);
    assert body[..|body|] == body;
  }

  /** A written number is read as itself, up to 64 bits. */
  lemma AtoiOfDecimal(n: nat)
    ensures Atoi(Decimal(n)) == if n <= MAX_INT64 then Some(n) else None
    ensures TrimSpace(Decimal(n)) == Decimal(n)
  {
    var s := Decimal(n);
    ValueOfDecimal(n);
    assert s[0] in s && IsDigit(s[0]);
    AtoiIff(s);
    VisibleIsTrimmed(s);
    TrimSpaceOfTrimmed(s);
  }

  /** With a sign as well. */
  lemma AtoiOfSigned(n: nat)
    ensures Atoi("+" + Decimal(n)) == if n <= MAX_INT64 then Some(n) else None
    ensures Atoi("-" + Decimal(n)) == if n <= MAX_INT64 + 1 then Some(-(n as int)) else None
  {
    var plus, minus := "+" + Decimal(n), "-" + Decimal(n);
    ValueOfDecimal(n);
    assert plus[1..] == Decimal(n) && minus[1..] == Decimal(n);
    AtoiIff(plus);
    AtoiIff(minus);
  }

  /** With no user name configured any login is accepted. */
  predicate CredentialsValid(wanted: string, secret: string, username: string, password: string) {
    wanted == "" || (username == wanted && password == secret)
  }
}
