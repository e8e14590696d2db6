/** Which of the four ways decides where a message goes, and what each of them comes to. */
module RoutingOrder {
  import opened Bytes
  import opened Sequences
  import opened Text
  import opened Wire
  import opened Headers
  import opened Routes
  import opened Routing

  // ---------------------------------------------------------------------------
  // One recipient
  // ---------------------------------------------------------------------------

  /** Rule `k` is the first that applies to the recipient. */
  ghost predicate Decides(routes: seq<Route>, recipient: string, k: nat) {
    && k < |routes| && routes[k].Matches(recipient)
    && forall j | 0 <= j < k :: !routes[j].Matches(recipient)
  }

  /** A recipient goes where the first rule that applies sends it. */
  lemma FirstRuleDecides(routes: seq<Route>, recipient: string, k: nat)
    requires Decides(routes, recipient, k)
    ensures Named(routes, recipient) == routes[k].mailboxes
  {
    FirstMatchFrom(routes, k, recipient);
    assert routes[k..][0] == routes[k];
  }

  /** A recipient goes nowhere if no rule applies. */
  lemma NoRuleApplies(routes: seq<Route>, recipient: string)
    requires forall j | 0 <= j < |routes| :: !routes[j].Matches(recipient)
    ensures Named(routes, recipient) == []
  {
    FirstMatchFrom(routes, |routes|, recipient);
  }

  // ---------------------------------------------------------------------------
  // The routing header
  // ---------------------------------------------------------------------------

  /** The lines of a payload as text. */
  function Texts(lines: seq<Bytes>): (r: seq<string>)
    ensures |r| == |lines| && forall i | 0 <= i < |r| :: r[i] == Chars(lines[i])
  {
    seq(|lines|, i requires 0 <= i < |lines| => Chars(lines[i]))
  }

  /** Each line with its end. */
  function Ended(lines: seq<string>): string {
    if lines == [] then "" else lines[0] + "\r\n" + Ended(lines[1..])
  }

  lemma CharsOfCrlf()
    ensures Chars(CRLF) == "\r\n"
  {
  }

  lemma {:induction false} CharsOfLines(lines: seq<Bytes>)
    ensures Chars(Crlf(lines)) == Ended(Texts(lines))
  {
    if lines != [] {
      CharsOfLines(lines[1..]);
      CharsJoined(lines[0] + CRLF, Crlf(lines[1..]));
      CharsJoined(lines[0], CRLF);
      CharsOfCrlf();
      assert Texts(lines)[1..] == Texts(lines[1..]);
    }
  }

  ghost predicate NoBreaks(lines: seq<string>) {
    forall i | 0 <= i < |lines| :: Free(lines[i], {'\n'})
  }

  /** The lines before the first blank line that is not the very first one. */
  function HeadOf(lines: seq<string>): seq<string>
    requires lines != []
  {
    if |lines| == 1 then lines
    else if lines[1] == "" then [lines[0]]
    else [lines[0]] + HeadOf(lines[1..])
  }

  /** Such a line is there. */
  predicate HasBlank(lines: seq<string>)
    requires lines != []
  {
    |lines| > 1 && (lines[1] == "" || HasBlank(lines[1..]))
  }

  lemma EndedStartsBlankIff(lines: seq<string>)
    requires NoBreaks(lines)
    ensures "\r\n" <= Ended(lines) <==> lines != [] && lines[0] == ""
  {
    var t := Ended(lines);
    StartsBreakIff(t);
    if lines != [] {
      assert Free(lines[0], {'\n'});
      assert forall k | 0 <= k < |lines[0]| :: t[k] == lines[0][k] && lines[0][k] in lines[0];
      assert t[|lines[0]|] == '\r' && t[|lines[0]| + 1] == '\n';
    }
  }

  lemma {:induction false} EndedIsJoined(lines: seq<string>)
    requires lines != []
    ensures Ended(lines) == Join(lines, "\r\n") + "\r\n"
  {
    if |lines| == 1 {
      assert Ended(lines[1..]) == "";
    } else {
      EndedIsJoined(lines[1..]);
      assert lines == [lines[0]] + lines[1..];
      JoinCons(lines[0], lines[1..], "\r\n");
    }
  }

  lemma IndexIs(s: string, pattern: string, i: nat)
    requires pattern != "" && i <= |s| && (i < |s| ==> pattern <= s[i..])
    requires forall j | 0 <= j < i :: !(pattern <= s[j..])
    ensures IndexOf(s, pattern) == i
  {
    var k := IndexOf(s, pattern);
    assert k < |s| ==> pattern <= s[k..];
  }

  lemma NoBlankAlone(line: string)
    requires Free(line, {'\n'})
    ensures IndexOf(line + "\r\n", BLANK_LINE) == |line + "\r\n"|
  {
    var s := line + "\r\n" + "";
    assert s == line + "\r\n";
    forall j | 0 <= j < |s| ensures !(BLANK_LINE <= s[j..]) {
      BlankLineNotInLine(line, "", j);
    }
    IndexIs(s, BLANK_LINE, |s|);
  }

  lemma BlankNext(line: string, t: string)
    requires Free(line, {'\n'}) && "\r\n" <= t
    ensures IndexOf(line + "\r\n" + t, BLANK_LINE) == |line|
  {
    var s := line + "\r\n" + t;
    assert t == "\r\n" + t[2..];
    assert s == line + BLANK_LINE + t[2..];
    NoEarlierBlankLine(line, t[2..]);
    assert s[|line|..] == BLANK_LINE + t[2..];
    IndexIs(s, BLANK_LINE, |line|);
  }

  lemma BlankLater(line: string, t: string)
    requires Free(line, {'\n'}) && !("\r\n" <= t)
    ensures IndexOf(line + "\r\n" + t, BLANK_LINE) == |line| + 2 + IndexOf(t, BLANK_LINE)
  {
    var s, i := line + "\r\n" + t, IndexOf(t, BLANK_LINE);
    forall j | 0 <= j < |line| + 2 + i ensures !(BLANK_LINE <= s[j..]) {
      BlankLineLater(line, t, j);
    }
    assert s[|line| + 2 + i..] == t[i..];
    IndexIs(s, BLANK_LINE, |line| + 2 + i);
  }

  /** Where the head of the message ends. */
  ghost predicate EndsThere(lines: seq<string>)
    requires lines != []
  {
    if HasBlank(lines) then
      && IndexOf(Ended(lines), BLANK_LINE) == |Join(HeadOf(lines), "\r\n")|
      && Join(HeadOf(lines), "\r\n") <= Ended(lines)
    else IndexOf(Ended(lines), BLANK_LINE) == |Ended(lines)| && HeadOf(lines) == lines
  }

  lemma EndsAlone(line: string)
    requires Free(line, {'\n'})
    ensures EndsThere([line])
  {
    assert [line][1..] == [];
    assert Ended([line]) == line + "\r\n" + "" == line + "\r\n";
    NoBlankAlone(line);
  }

  lemma EndedCons(line: string, rest: seq<string>)
    ensures Ended([line] + rest) == line + "\r\n" + Ended(rest)
  {
    assert ([line] + rest)[1..] == rest;
  }

  lemma EndsHere(line: string, rest: seq<string>)
    requires Free(line, {'\n'}) && NoBreaks(rest) && rest != [] && rest[0] == ""
    ensures EndsThere([line] + rest)
  {
    var lines := [line] + rest;
    assert lines[1] == "" && HeadOf(lines) == [line];
    EndedCons(line, rest);
    EndedStartsBlankIff(rest);
    BlankNext(line, Ended(rest));
  }

  lemma EndsLater(line: string, rest: seq<string>)
    requires Free(line, {'\n'}) && NoBreaks(rest) && rest != [] && rest[0] != "" && EndsThere(rest)
    ensures EndsThere([line] + rest)
  {
    var lines := [line] + rest;
    assert lines[1] == rest[0] && lines[1..] == rest;
    assert HasBlank(lines) == HasBlank(rest) && HeadOf(lines) == [line] + HeadOf(rest);
    EndedCons(line, rest);
    EndedStartsBlankIff(rest);
    BlankLater(line, Ended(rest));
    JoinCons(line, HeadOf(rest), "\r\n");
  }

  lemma {:induction false} HeadEnds(lines: seq<string>)
    requires lines != [] && NoBreaks(lines)
    ensures EndsThere(lines)
  {
    var line, rest := lines[0], lines[1..];
    assert Free(line, {'\n'}) && NoBreaks(rest);
    assert lines == [line] + rest;
    if rest == [] {
      assert lines == [line];
      EndsAlone(line);
    } else if rest[0] == "" {
      EndsHere(line, rest);
    } else {
      HeadEnds(rest);
      EndsLater(line, rest);
    }
  }

  lemma BreakAfter(line: string, t: string)
    requires Free(line, {'\n'})
    ensures IndexOf(line + "\r\n" + t, "\r\n") == |line|
  {
    var s := line + "\r\n" + t;
    assert forall k | 0 <= k < |line| :: s[k] == line[k] && line[k] in line;
    forall j | 0 <= j < |line| ensures !("\r\n" <= s[j..]) {
      StartsBreakIff(s[j..]);
      assert s[j..][0] == s[j] && s[j..][1] == s[j + 1];
      assert j + 1 == |line| ==> s[j + 1] == '\r';
    }
    assert s[|line|..] == "\r\n" + t;
    IndexIs(s, "\r\n", |line|);
  }

  lemma NoBreakIn(line: string)
    requires Free(line, {'\n'})
    ensures IndexOf(line, "\r\n") == |line|
  {
    forall j | 0 <= j < |line| ensures !("\r\n" <= line[j..]) {
      StartsBreakIff(line[j..]);
      assert |line[j..]| >= 2 ==> line[j..][1] == line[j + 1] && line[j + 1] in line;
    }
    IndexIs(line, "\r\n", |line|);
  }

  lemma {:induction false} LinesOfJoined(lines: seq<string>)
    requires lines != [] && NoBreaks(lines)
    ensures LinesOf(Join(lines, "\r\n")) == lines
  {
    var line, rest := lines[0], lines[1..];
    assert Free(line, {'\n'}) && NoBreaks(rest);
    if rest == [] {
      NoBreakIn(line);
    } else {
      var t := Join(rest, "\r\n");
      var s := line + "\r\n" + t;
      assert lines == [line] + rest;
      JoinCons(line, rest, "\r\n");
      BreakAfter(line, t);
      LinesOfJoined(rest);
      assert s[..|line|] == line && s[|line| + 2..] == t;
    }
  }

  /** What the lines of the head are, for every payload. */
  lemma HeadLines(lines: seq<string>)
    requires lines != [] && NoBreaks(lines)
    ensures var text := Ended(lines);
            LinesOf(text[..IndexOf(text, BLANK_LINE)]) == if HasBlank(lines) then HeadOf(lines) else lines + [""]
  {
    var text := Ended(lines);
    HeadEnds(lines);
    HeadIsPrefix(lines);
    if HasBlank(lines) {
      assert text[..IndexOf(text, BLANK_LINE)] == Join(HeadOf(lines), "\r\n");
      LinesOfJoined(HeadOf(lines));
    } else {
      assert text[..|text|] == text;
      WithLastEmpty(lines);
      LinesOfJoined(lines + [""]);
    }
  }

  lemma {:induction false} HeadIsPrefix(lines: seq<string>)
    requires lines != []
    ensures HeadOf(lines) <= lines && HeadOf(lines) != []
  {
    if |lines| > 1 && lines[1] != "" {
      HeadIsPrefix(lines[1..]);
      assert lines == [lines[0]] + lines[1..];
    }
  }

  lemma {:induction false} WithLastEmpty(lines: seq<string>)
    requires lines != []
    ensures Join(lines + [""], "\r\n") == Ended(lines)
  {
    EndedIsJoined(lines);
    if |lines| == 1 {
      assert lines + [""] == [lines[0]] + [""];
      JoinCons(lines[0], [""], "\r\n");
      assert Join([""], "\r\n") == "";
    } else {
      WithLastEmpty(lines[1..]);
      EndedIsJoined(lines[1..]);
      assert lines + [""] == [lines[0]] + (lines[1..] + [""]);
      JoinCons(lines[0], lines[1..] + [""], "\r\n");
    }
  }

  /** The line begins with the name and a colon, in any case. */
  ghost predicate StartsWith(line: string, name: string) {
    |line| > |name| && Lower(line[..|name|]) == Lower(name) && line[|name|] == ':'
  }

  lemma StartsWithIff(line: string, name: string)
    ensures StartsWith(line, name) <==> HasPrefix(Lower(line), Lower(name) + ":")
  {
    var p := Lower(name) + ":";
    if |line| > |name| {
      assert Lower(line)[..|p|] == Lower(line[..|name|]) + [LowerChar(line[|name|])];
      assert p[|name|] == ':';
    }
  }

  /** The first line with this name counts. */
  lemma {:induction false} FirstHeaderCounts(before: seq<string>, line: string, behind: seq<string>, name: string)
    requires (forall i | 0 <= i < |before| :: !StartsWith(before[i], name)) && StartsWith(line, name)
    ensures HeaderIn(before + [line] + behind, Lower(name) + ":") == TrimSpace(line[|name| + 1..])
  {
    var lines := before + [line] + behind;
    StartsWithIff(lines[0], name);
    if before != [] {
      assert lines[1..] == before[1..] + [line] + behind;
      assert !StartsWith(before[0], name);
      FirstHeaderCounts(before[1..], line, behind, name);
    }
  }

  lemma {:induction false} NoHeaderCounts(lines: seq<string>, name: string)
    requires forall i | 0 <= i < |lines| :: !StartsWith(lines[i], name)
    ensures HeaderIn(lines, Lower(name) + ":") == ""
  {
    if lines != [] {
      StartsWithIff(lines[0], name);
      NoHeaderCounts(lines[1..], name);
    }
  }

  /** The head of a payload, blank line aside. */
  function HeadLinesOf(lines: seq<Bytes>): seq<string> {
    if lines == [] then [] else HeadOf(Texts(lines))
  }

  /** Line `i` is the first of the head with this name. */
  ghost predicate IsFirst(head: seq<string>, name: string, i: nat) {
    i < |head| && StartsWith(head[i], name) && forall j | 0 <= j < i :: !StartsWith(head[j], name)
  }

  lemma PayloadText(lines: seq<Bytes>, name: string)
    requires NoLF(lines)
    ensures HeaderValue(Crlf(lines), name) == HeaderIn(HeadLinesOf(lines), Lower(name) + ":")
  {
    var text := Ended(Texts(lines));
    CharsOfLines(lines);
    if lines == [] {
      assert text == "" && LinesOf("") == [""];
      assert text[..IndexOf(text, BLANK_LINE)] == "";
      assert HeaderIn([""], Lower(name) + ":") == "" by {
        assert [""][1..] == [];
      }
    } else {
      TextsHaveNoBreak(lines);
      HeadLines(Texts(lines));
      if !HasBlank(Texts(lines)) {
        HeadEnds(Texts(lines));
        LastEmptyCountsNothing(Texts(lines), Lower(name) + ":");
      }
    }
  }

  lemma TextsHaveNoBreak(lines: seq<Bytes>)
    requires NoLF(lines)
    ensures NoBreaks(Texts(lines))
  {
    forall i, c | 0 <= i < |lines| && c in Texts(lines)[i] ensures c != '\n' {
      var k :| 0 <= k < |lines[i]| && Chars(lines[i])[k] == c;
      assert lines[i][k] in lines[i];
    }
  }

  lemma {:induction false} LastEmptyCountsNothing(lines: seq<string>, prefix: string)
    requires prefix != ""
    ensures HeaderIn(lines + [""], prefix) == HeaderIn(lines, prefix)
  {
    if lines == [] {
      assert lines + [""] == [""] && [""][1..] == [];
    } else {
      assert (lines + [""])[1..] == lines[1..] + [""];
      LastEmptyCountsNothing(lines[1..], prefix);
    }
  }

  /** For every payload: the value of the first head line with this name, trimmed. */
  lemma HeaderIsFirst(lines: seq<Bytes>, name: string, i: nat)
    requires NoLF(lines) && IsFirst(HeadLinesOf(lines), name, i)
    ensures HeaderValue(Crlf(lines), name) == TrimSpace(HeadLinesOf(lines)[i][|name| + 1..])
  {
    var head := HeadLinesOf(lines);
    PayloadText(lines, name);
    assert head == head[..i] + [head[i]] + head[i + 1..];
    FirstHeaderCounts(head[..i], head[i], head[i + 1..], name);
  }

  /** Without such a line there is no value. */
  lemma HeaderIsMissing(lines: seq<Bytes>, name: string)
    requires NoLF(lines) && forall j | 0 <= j < |HeadLinesOf(lines)| :: !StartsWith(HeadLinesOf(lines)[j], name)
    ensures HeaderValue(Crlf(lines), name) == ""
  {
    PayloadText(lines, name);
    NoHeaderCounts(HeadLinesOf(lines), name);
  }

  // ---------------------------------------------------------------------------
  // The order of precedence
  // ---------------------------------------------------------------------------

  /** Header routing is on, and the first routing header of the payload names this existing mailbox. */
  ghost predicate PickedByHeader(options: RoutingOptions, lines: seq<Bytes>, boxes: set<string>, mailbox: string) {
    && options.headerRouting && mailbox in boxes
    && exists i: nat :: IsFirst(HeadLinesOf(lines), ROUTING_HEADER, i) && Picks(HeadLinesOf(lines)[i], mailbox)
  }

  ghost predicate Picks(line: string, mailbox: string)
    requires StartsWith(line, ROUTING_HEADER)
  {
    var value := TrimSpace(line[|ROUTING_HEADER| + 1..]);
    value != "" && mailbox == Lower(value)
  }

  /** Some recipient's first applying rule names this existing mailbox. */
  ghost predicate PickedByRoute(options: RoutingOptions, recipients: seq<string>, boxes: set<string>, mailbox: string) {
    mailbox in boxes
    && exists r: nat, k: nat :: r < |recipients| && Decides(options.routes, recipients[r], k) && mailbox in options.routes[k].mailboxes
  }

  /** User routing is on, and this existing mailbox has the user's name. */
  ghost predicate PickedByUser(options: RoutingOptions, username: string, boxes: set<string>, mailbox: string) {
    options.userRouting && username != "" && mailbox in boxes && mailbox == Lower(TrimSpace(username))
  }

  lemma TrimmedTwice(s: string)
    ensures TrimSpace(TrimSpace(s)) == TrimSpace(s)
  {
    TrimSpaceTrims(s);
    TrimSpaceOfTrimmed(TrimSpace(s));
  }

  lemma ByHeaderIff(options: RoutingOptions, lines: seq<Bytes>, boxes: set<string>, mailbox: string)
    requires NoLF(lines)
    ensures ByHeader(options, Crlf(lines), boxes) == Some(mailbox) <==> PickedByHeader(options, lines, boxes, mailbox)
  {
    var head := HeadLinesOf(lines);
    if exists i: nat :: IsFirst(head, ROUTING_HEADER, i) {
      var i: nat :| IsFirst(head, ROUTING_HEADER, i);
      HeaderIsFirst(lines, ROUTING_HEADER, i);
      TrimmedTwice(head[i][|ROUTING_HEADER| + 1..]);
      forall k: nat | IsFirst(head, ROUTING_HEADER, k) ensures k == i {
      }
    } else {
      NoFirst(head, ROUTING_HEADER, |head|);
      HeaderIsMissing(lines, ROUTING_HEADER);
    }
  }

  lemma {:induction false} NoFirst(head: seq<string>, name: string, n: nat)
    requires n <= |head| && forall i: nat :: !IsFirst(head, name, i)
    ensures forall j | 0 <= j < n :: !StartsWith(head[j], name)
  {
    if n > 0 {
      NoFirst(head, name, n - 1);
      assert !IsFirst(head, name, n - 1);
    }
  }

  lemma RoutedMeans(options: RoutingOptions, recipients: seq<string>, boxes: set<string>, mailbox: string)
    ensures mailbox in Routed(options.routes, recipients, boxes) <==> PickedByRoute(options, recipients, boxes, mailbox)
  {
    RoutedIff(options.routes, recipients, boxes);
    forall r | 0 <= r < |recipients|
      ensures mailbox in Named(options.routes, recipients[r])
              <==> exists k: nat :: Decides(options.routes, recipients[r], k) && mailbox in options.routes[k].mailboxes
    {
      NamedMeans(options.routes, recipients[r], mailbox);
    }
  }

  lemma NamedMeans(routes: seq<Route>, recipient: string, mailbox: string)
    ensures mailbox in Named(routes, recipient) <==> exists k: nat :: Decides(routes, recipient, k) && mailbox in routes[k].mailboxes
  {
    if exists k: nat :: Decides(routes, recipient, k) {
      var k: nat :| Decides(routes, recipient, k);
      FirstRuleDecides(routes, recipient, k);
      forall j: nat | Decides(routes, recipient, j) ensures j == k {
      }
    } else {
      NoneDecides(routes, recipient, |routes|);
      NoRuleApplies(routes, recipient);
    }
  }

  lemma {:induction false} NoneDecides(routes: seq<Route>, recipient: string, n: nat)
    requires n <= |routes| && forall k: nat :: !Decides(routes, recipient, k)
    ensures forall j | 0 <= j < n :: !routes[j].Matches(recipient)
  {
    if n > 0 {
      NoneDecides(routes, recipient, n - 1);
      assert !Decides(routes, recipient, n - 1);
    }
  }

  /**
   The four ways in their order: the routing header, then the recipients' rules, then the user's name,
   then the default. Only the rules can name several mailboxes; these are all that they name.
   */
  lemma ResolvedInOrder(options: RoutingOptions, username: string, lines: seq<Bytes>, recipients: seq<string>,
                        boxes: set<string>, mailbox: string)
    requires NoLF(lines)
    ensures var r := ResolveMailboxes(options, username, Crlf(lines), recipients, boxes);
            if exists m :: PickedByHeader(options, lines, boxes, m) then
              PickedByHeader(options, lines, boxes, mailbox) <==> r == [mailbox]
            else if exists m :: PickedByRoute(options, recipients, boxes, m) then
              Distinct(r) && (mailbox in r <==> PickedByRoute(options, recipients, boxes, mailbox))
            else if exists m :: PickedByUser(options, username, boxes, m) then
              PickedByUser(options, username, boxes, mailbox) <==> r == [mailbox]
            else r == [options.defaultMailbox]
  {
    var routed := Routed(options.routes, recipients, boxes);
    ByHeaderIff(options, lines, boxes, mailbox);
    RoutedMeans(options, recipients, boxes, mailbox);
    RoutedIff(options.routes, recipients, boxes);
    forall m ensures ByHeader(options, Crlf(lines), boxes) == Some(m) <==> PickedByHeader(options, lines, boxes, m) {
      ByHeaderIff(options, lines, boxes, m);
    }
    forall m ensures m in routed <==> PickedByRoute(options, recipients, boxes, m) {
      RoutedMeans(options, recipients, boxes, m);
    }
    forall m ensures ByUser(options, username, boxes) == Some(m) <==> PickedByUser(options, username, boxes, m) {
    }
    assert routed != [] ==> routed[0] in routed;
  }
}
