/**
 The dot-stuffed multi-line format, in the direction POP3 writes it (section 3 of
 RFC 1939) and in the direction SMTP reads it (section 4.5.2 of RFC 5321).
 */
module Wire {
  import opened Bytes
  import opened Sequences

  /** The longest line, without its terminator, that the SMTP reader accepts. */
  const MAX_LINE_BYTES: nat := 0x10_0000

  /** The size of the connection's read buffer. */
  const BUFFER_BYTES: nat := 4096

  ghost predicate NoLF(lines: seq<Bytes>) {
    forall i | 0 <= i < |lines| :: LF !in lines[i]
  }

  // ---------------------------------------------------------------------------
  // Logical lines of a stored message
  // ---------------------------------------------------------------------------

  function TrimEach(lines: seq<Bytes>): (r: seq<Bytes>)
    ensures |r| == |lines|
    ensures forall i | 0 <= i < |r| :: r[i] == TrimSuffix(lines[i], CR)
  {
    seq(|lines|, i requires 0 <= i < |lines| => TrimSuffix(lines[i], CR))
  }

  function SplitLines(raw: Bytes): seq<Bytes> {
    if raw == [] then [] else TrimEach(Split(TrimSuffix(TrimSuffix(raw, LF), CR), {LF}))
  }

  /** Every line followed by CRLF: the form in which DATA is stored. */
  function Crlf(lines: seq<Bytes>): Bytes {
    if lines == [] then [] else lines[0] + CRLF + Crlf(lines[1..])
  }

  lemma SplitLinesHaveNoLF(raw: Bytes)
    ensures NoLF(SplitLines(raw))
  {
    if raw != [] {
      var s := TrimSuffix(TrimSuffix(raw, LF), CR);
      SplitPiecesAreFree(s, {LF});
      assert forall i | 0 <= i < |Split(s, {LF})| :: Free(Split(s, {LF})[i], {LF});
    }
  }

  lemma {:induction false} CrlfIsJoined(lines: seq<Bytes>)
    requires lines != []
    ensures Crlf(lines) == Join(lines, CRLF) + CRLF
  {
    if |lines| == 1 {
      assert Crlf(lines[1..]) == [];
      assert Crlf(lines) == lines[0] + CRLF;
    } else {
      CrlfIsJoined(lines[1..]);
      assert Crlf(lines) == lines[0] + CRLF + (Join(lines[1..], CRLF) + CRLF);
    }
  }

  /**
   What survives of a list of lines once it has been stored with CRLF endings and
   cut up again: the last line loses one more trailing CR than the others.
   */
  ghost function Settled(lines: seq<Bytes>): seq<Bytes> {
    if lines == [] then []
    else lines[..|lines| - 1] + [TrimSuffix(lines[|lines| - 1], CR)]
  }

  lemma {:induction false} TrimmedSplitOfJoined(lines: seq<Bytes>)
    requires lines != [] && NoLF(lines)
    ensures TrimEach(Split(Join(lines, CRLF), {LF})) == Settled(lines)
  {
    if |lines| == 1 {
      SplitWhole(lines[0], {LF});
    } else {
      var rest := lines[1..];
      TrimmedSplitOfJoined(rest);
      SplitPiece(lines[0] + [CR], LF, Join(rest, CRLF), {LF});
      assert Join(lines, CRLF) == lines[0] + [CR] + [LF] + Join(rest, CRLF);
      var pieces := Split(Join(lines, CRLF), {LF});
      assert pieces == [lines[0] + [CR]] + Split(Join(rest, CRLF), {LF});
      assert TrimEach(pieces) == [lines[0]] + TrimEach(Split(Join(rest, CRLF), {LF}));
      assert lines[..|lines| - 1] == [lines[0]] + rest[..|rest| - 1];
    }
  }

  /** Storing lines and splitting them again, for every list of LF-free lines. */
  lemma SplitLinesOfCrlf(lines: seq<Bytes>)
    requires NoLF(lines)
    ensures SplitLines(Crlf(lines)) == Settled(lines)
  {
    if lines != [] {
      CrlfIsJoined(lines);
      var raw := Crlf(lines);
      assert TrimSuffix(raw, LF) == Join(lines, CRLF) + [CR];
      assert TrimSuffix(Join(lines, CRLF) + [CR], CR) == Join(lines, CRLF);
      TrimmedSplitOfJoined(lines);
    }
  }

  /** A message whose last line has no end: whatever the others end in, LF or CRLF, none is lost. */
  lemma SplitLinesUnterminated(lines: seq<Bytes>)
    requires lines != [] && NoLF(lines) && lines[|lines| - 1] != [] && !EndsInCR(lines)
    ensures SplitLines(Join(lines, [LF])) == TrimEach(lines)
  {
    var last := lines[|lines| - 1];
    JoinEndsWithLast(lines);
    assert last[|last| - 1] in last;
    NothingTrimmed(Join(lines, [LF]), last);
    SplitOfJoin(lines, LF, {LF});
  }

  lemma NothingTrimmed(raw: Bytes, last: Bytes)
    requires HasSuffix(raw, last) && last != [] && last[|last| - 1] != LF && last[|last| - 1] != CR
    ensures raw != [] && TrimSuffix(TrimSuffix(raw, LF), CR) == raw
  {
    assert raw[|raw| - 1] == raw[|raw| - |last|..][|last| - 1];
  }

  lemma {:induction false} JoinEndsWithLast(lines: seq<Bytes>)
    requires lines != []
    ensures HasSuffix(Join(lines, [LF]), lines[|lines| - 1])
  {
    if |lines| > 1 {
      JoinEndsWithLast(lines[1..]);
    }
  }

  /** The last line ends in a bare CR. */
  predicate EndsInCR(lines: seq<Bytes>) {
    lines != [] && lines[|lines| - 1] != [] && lines[|lines| - 1][|lines[|lines| - 1]| - 1] == CR
  }

  lemma SettledIff(lines: seq<Bytes>)
    ensures Settled(lines) == lines <==> !EndsInCR(lines)
  {
    if lines != [] {
      var last := lines[|lines| - 1];
      assert lines == lines[..|lines| - 1] + [last];
      assert Settled(lines)[|lines| - 1] == TrimSuffix(last, CR);
    }
  }

  /** The exact condition under which no line is altered. */
  lemma SplitLinesUndoesCrlfIff(lines: seq<Bytes>)
    requires NoLF(lines)
    ensures SplitLines(Crlf(lines)) == lines <==> !EndsInCR(lines)
  {
    SplitLinesOfCrlf(lines);
    SettledIff(lines);
  }

  // ---------------------------------------------------------------------------
  // Stuffing and the POP3 multi-line response
  // ---------------------------------------------------------------------------

  function Stuffed(line: Bytes): Bytes {
    if line != [] && line[0] == DOT then [DOT] + line else line
  }

  function Unstuffed(line: Bytes): Bytes {
    if line != [] && line[0] == DOT then line[1..] else line
  }

  function Stuff(lines: seq<Bytes>): Bytes {
    if lines == [] then [] else Stuffed(lines[0]) + CRLF + Stuff(lines[1..])
  }

  /** A whole multi-line response, terminator included. */
  function Multiline(lines: seq<Bytes>): Bytes {
    Stuff(lines) + [DOT] + CRLF
  }

  /** The octets RETR sends after its status line. */
  function RetrWire(raw: Bytes): Bytes {
    Multiline(SplitLines(raw))
  }

  /** Only a line that starts with a dot is sent with another one. */
  function Dots(lines: seq<Bytes>): nat {
    if lines == [] then 0 else (if [DOT] <= lines[0] then 1 else 0) + Dots(lines[1..])
  }

  /** The announced size is that of the lines with CRLF and one more octet for each leading dot. */
  lemma {:induction false} StuffedSize(lines: seq<Bytes>)
    ensures |Stuff(lines)| == |Crlf(lines)| + Dots(lines)
    ensures Dots(lines) == 0 ==> Stuff(lines) == Crlf(lines)
  {
    if lines != [] {
      StuffedSize(lines[1..]);
      assert [DOT] <= lines[0] <==> lines[0] != [] && lines[0][0] == DOT;
    }
  }

  lemma {:induction false} StuffAppend(a: seq<Bytes>, b: seq<Bytes>)
    ensures Stuff(a + b) == Stuff(a) + Stuff(b)
  {
    if a == [] {
      assert a + b == b;
    } else {
      assert (a + b)[1..] == a[1..] + b && (a + b)[0] == a[0];
      calc {
        Stuff(a + b);
        Stuffed(a[0]) + CRLF + Stuff(a[1..] + b);
        { StuffAppend(a[1..], b); }
        Stuffed(a[0]) + CRLF + (Stuff(a[1..]) + Stuff(b));
        Stuff(a) + Stuff(b);
      }
    }
  }

  lemma {:induction false} CrlfAppend(a: seq<Bytes>, b: seq<Bytes>)
    ensures Crlf(a + b) == Crlf(a) + Crlf(b)
  {
    if a == [] {
      assert a + b == b;
    } else {
      assert (a + b)[1..] == a[1..] + b && (a + b)[0] == a[0];
      calc {
        Crlf(a + b);
        a[0] + CRLF + Crlf(a[1..] + b);
        { CrlfAppend(a[1..], b); }
        a[0] + CRLF + (Crlf(a[1..]) + Crlf(b));
        Crlf(a) + Crlf(b);
      }
    }
  }

  // ---------------------------------------------------------------------------
  // The SMTP reader's view of a byte stream
  // ---------------------------------------------------------------------------

  /** The index of the first line feed, or the length when there is none. */
  function FindLF(s: Bytes): (i: nat)
    ensures i <= |s|
    ensures LF !in s[..i]
    ensures i < |s| ==> s[i] == LF
  {
    if s == [] || s[0] == LF then 0
    else
      var i := 1 + FindLF(s[1..]);
      assert s[..i] == [s[0]] + s[1..][..i - 1];
      i
  }

  lemma FindLFUnique(s: Bytes, i: nat)
    requires i < |s| && s[i] == LF && LF !in s[..i]
    ensures FindLF(s) == i
  {
    var j := FindLF(s);
    assert forall k | 0 <= k < i :: s[k] == s[..i][k];
    assert forall k | 0 <= k < j :: s[k] == s[..j][k];
  }

  datatype ReadResult =
    | Line(line: Bytes, rest: Bytes)
    | TooLong
    | Truncated

  /** Without a line feed to come, reading buffer by buffer ends exactly at the end of the input. */
  predicate FillsBuffers(s: Bytes)
    decreases |s|
  {
    if |s| < BUFFER_BYTES then s == []
    else FillsBuffers(s[|TrimSuffix(s[..BUFFER_BYTES], CR)|..])
  }

  /**
   One line, without its LF and one CR before it. What comes behind the last LF is a line
   as well, unless it just fills the read buffer.
   */
  function ReadLine(input: Bytes, limit: nat): (r: ReadResult)
    ensures r.Line? ==> |r.rest| < |input|
  {
    var i := FindLF(input);
    if i == |input| then
      if |input| > limit then TooLong
      else if FillsBuffers(input) then Truncated
      else Line(input, [])
    else if |TrimSuffix(input[..i], CR)| > limit then TooLong
    else Line(TrimSuffix(input[..i], CR), input[i + 1..])
  }

  /** The un-stuffed lines up to the first lone dot and what follows it. */
  function Payload(input: Bytes, limit: nat): (r: Option<(seq<Bytes>, Bytes)>)
    decreases |input|
  {
    match ReadLine(input, limit)
    case TooLong => None
    case Truncated => None
    case Line(line, rest) =>
      if line == [DOT] then Some(([], rest))
      else
        match Payload(rest, limit)
        case None => None
        case Some(p) => Some(([Unstuffed(line)] + p.0, p.1))
  }

  ghost predicate Fits(lines: seq<Bytes>, limit: nat) {
    forall i | 0 <= i < |lines| :: |Stuffed(lines[i])| <= limit
  }

  lemma ReadLineOfLine(line: Bytes, rest: Bytes, limit: nat)
    requires LF !in line
    ensures ReadLine(line + CRLF + rest, limit)
            == if |line| <= limit then Line(line, rest) else TooLong
  {
    var s := line + CRLF + rest;
    assert s[..|line| + 1] == line + [CR];
    FindLFUnique(s, |line| + 1);
    assert TrimSuffix(line + [CR], CR) == line;
    assert s[|line| + 2..] == rest;
  }

  lemma FitsSplit(lines: seq<Bytes>, limit: nat)
    requires lines != []
    ensures Fits(lines, limit) <==> |Stuffed(lines[0])| <= limit && Fits(lines[1..], limit)
  {
    assert lines == [lines[0]] + lines[1..];
  }

  lemma MultilineCons(lines: seq<Bytes>, rest: Bytes)
    requires lines != []
    ensures Multiline(lines) + rest == Stuffed(lines[0]) + CRLF + (Multiline(lines[1..]) + rest)
  {
  }

  lemma PayloadOfLine(line: Bytes, after: Bytes, limit: nat)
    requires LF !in line
    ensures Payload(Stuffed(line) + CRLF + after, limit)
            == if |Stuffed(line)| > limit then None
               else match Payload(after, limit)
                    case None => None
                    case Some(p) => Some(([line] + p.0, p.1))
  {
    ReadLineOfLine(Stuffed(line), after, limit);
    assert Stuffed(line) != [DOT] && Unstuffed(Stuffed(line)) == line;
  }

  /** What the reader makes of a dot-stuffed block, whatever follows the block. */
  lemma {:induction false} PayloadOfMultiline(lines: seq<Bytes>, rest: Bytes, limit: nat)
    requires NoLF(lines) && limit >= 1
    ensures Payload(Multiline(lines) + rest, limit)
            == if Fits(lines, limit) then Some((lines, rest)) else None
  {
    if lines == [] {
      assert Multiline(lines) + rest == [DOT] + CRLF + rest;
      ReadLineOfLine([DOT], rest, limit);
    } else {
      MultilineCons(lines, rest);
      PayloadOfLine(lines[0], Multiline(lines[1..]) + rest, limit);
      PayloadOfMultiline(lines[1..], rest, limit);
      FitsSplit(lines, limit);
      assert lines == [lines[0]] + lines[1..];
    }
  }

  /** SMTP reads back what RETR writes, for every stored byte string. */
  lemma ReadDataOfRetrWire(raw: Bytes, rest: Bytes)
    ensures Payload(RetrWire(raw) + rest, MAX_LINE_BYTES)
            == if Fits(SplitLines(raw), MAX_LINE_BYTES) then Some((SplitLines(raw), rest)) else None
  {
    SplitLinesHaveNoLF(raw);
    PayloadOfMultiline(SplitLines(raw), rest, MAX_LINE_BYTES);
  }

  // ---------------------------------------------------------------------------
  // A POP3 client that ends lines at CRLF only, as section 3 of RFC 1939 has it
  // ---------------------------------------------------------------------------

  function ClientLines(wire: Bytes): Option<(seq<Bytes>, Bytes)>
    decreases |wire|
  {
    var i := IndexOf(wire, CRLF);
    if i == |wire| then None
    else if wire[..i] == [DOT] then Some(([], wire[i + 2..]))
    else
      match ClientLines(wire[i + 2..])
      case None => None
      case Some(p) => Some(([Unstuffed(wire[..i])] + p.0, p.1))
  }

  lemma CrlfIndexOfLine(line: Bytes, rest: Bytes)
    requires LF !in line
    ensures IndexOf(line + CRLF + rest, CRLF) == |line|
  {
    var s := line + CRLF + rest;
    var i := IndexOf(s, CRLF);
    assert CRLF <= s[|line|..];
    assert i < |s| ==> s[i..][1] == s[i + 1];
    assert forall k | 0 <= k < |line| :: s[k] == line[k];
  }

  lemma ClientStep(first: Bytes, after: Bytes)
    requires LF !in first
    ensures ClientLines(first + CRLF + after)
            == if first == [DOT] then Some(([], after))
               else match ClientLines(after)
                    case None => None
                    case Some(p) => Some(([Unstuffed(first)] + p.0, p.1))
  {
    var wire := first + CRLF + after;
    CrlfIndexOfLine(first, after);
    assert wire[..|first|] == first;
    assert wire[|first| + 2..] == after;
  }

  lemma ClientOfLine(line: Bytes, after: Bytes)
    requires LF !in line
    ensures ClientLines(Stuffed(line) + CRLF + after)
            == match ClientLines(after)
               case None => None
               case Some(p) => Some(([line] + p.0, p.1))
  {
    ClientStep(Stuffed(line), after);
    assert Stuffed(line) != [DOT] && Unstuffed(Stuffed(line)) == line;
  }

  lemma ClientAtDot(rest: Bytes)
    ensures ClientLines([DOT] + CRLF + rest) == Some(([], rest))
  {
    ClientStep([DOT], rest);
  }

  lemma ClientMore(line: Bytes, tail: seq<Bytes>, after: Bytes, rest: Bytes)
    requires LF !in line && ClientLines(after) == Some((tail, rest))
    ensures ClientLines(Stuffed(line) + CRLF + after) == Some(([line] + tail, rest))
  {
    ClientOfLine(line, after);
  }

  lemma {:induction false} ClientReadsMultiline(lines: seq<Bytes>, rest: Bytes)
    requires NoLF(lines)
    ensures ClientLines(Multiline(lines) + rest) == Some((lines, rest))
  {
    if lines == [] {
      assert Multiline(lines) + rest == [DOT] + CRLF + rest;
      ClientAtDot(rest);
    } else {
      var after := Multiline(lines[1..]) + rest;
      assert NoLF(lines[1..]);
      ClientReadsMultiline(lines[1..], rest);
      ClientMore(lines[0], lines[1..], after, rest);
      MultilineCons(lines, rest);
      assert lines == [lines[0]] + lines[1..];
    }
  }

  // ---------------------------------------------------------------------------
  // End to end: DATA in, store, RETR out
  // ---------------------------------------------------------------------------

  /**
   Lines sent dot-stuffed over SMTP, stored behind a block of trace lines (none
   when the Received header is off) and fetched over POP3.
   */
  lemma EndToEnd(lines: seq<Bytes>, trace: seq<Bytes>, rest: Bytes)
    requires NoLF(lines) && NoLF(trace)
    requires Fits(lines, MAX_LINE_BYTES)
    ensures Payload(Multiline(lines) + rest, MAX_LINE_BYTES) == Some((lines, rest))
    ensures ClientLines(RetrWire(Crlf(trace) + Crlf(lines)))
            == Some((Settled(trace + lines), []))
  {
    PayloadOfMultiline(lines, rest, MAX_LINE_BYTES);
    CrlfAppend(trace, lines);
    SplitLinesOfCrlf(trace + lines);
    SplitLinesHaveNoLF(Crlf(trace + lines));
    ClientReadsMultiline(Settled(trace + lines), []);
    assert RetrWire(Crlf(trace + lines)) + [] == RetrWire(Crlf(trace + lines));
  }

  /** The client gets exactly the sent lines, unless the last one ends in CR. */
  lemma EndToEndExactIff(lines: seq<Bytes>, trace: seq<Bytes>)
    requires NoLF(lines) && NoLF(trace) && Fits(lines, MAX_LINE_BYTES)
    requires lines != []
    ensures ClientLines(RetrWire(Crlf(trace) + Crlf(lines))) == Some((trace + lines, []))
            <==> !EndsInCR(lines)
  {
    EndToEnd(lines, trace, []);
    SettledIff(trace + lines);
    assert (trace + lines)[|trace + lines| - 1] == lines[|lines| - 1];
  }

  // ---------------------------------------------------------------------------
  // TOP (section 7 of RFC 1939)
  // ---------------------------------------------------------------------------

  /** The index of the first empty line, or the number of lines. */
  function FirstBlank(lines: seq<Bytes>): (k: nat)
    ensures k <= |lines|
    ensures forall i | 0 <= i < k :: lines[i] != []
    ensures k < |lines| ==> lines[k] == []
  {
    if lines == [] || lines[0] == [] then 0 else 1 + FirstBlank(lines[1..])
  }

  /** Header lines, the blank line and at most `n` lines of body; `n < 0` means everything. */
  function TopLines(lines: seq<Bytes>, n: int): seq<Bytes> {
    var k := FirstBlank(lines);
    if n < 0 || k + 1 + n >= |lines| then lines else lines[..k + 1 + n]
  }

  lemma TopIsPrefixOfRetr(raw: Bytes, n: nat)
    ensures Stuff(TopLines(SplitLines(raw), n)) <= Stuff(SplitLines(raw))
    ensures Stuff(TopLines(SplitLines(raw), n)) == Stuff(SplitLines(raw))
            <==> n >= |SplitLines(raw)| - (FirstBlank(SplitLines(raw)) + 1)
  {
    var lines := SplitLines(raw);
    var top := TopLines(lines, n);
    assert lines == top + lines[|top|..];
    StuffAppend(top, lines[|top|..]);
  }
}
