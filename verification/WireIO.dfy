/**
 The loops that move lines between a connection and memory: the buffered SMTP line
 reader, the DATA reader, and the POP3 multi-line writer with its octet count.
 */
module WireIO {
  import opened Bytes
  import opened Sequences
  import opened Wire
  import opened Chunks

  /** The reader has taken `got` from `start` and `input` is what is left. */
  ghost predicate InStep(start: Bytes, got: seq<Bytes>, input: Bytes) {
    Payload(start, MAX_LINE_BYTES)
    == match Payload(input, MAX_LINE_BYTES)
       case None => None
       case Some(p) => Some((got + p.0, p.1))
  }

  lemma StepsOn(start: Bytes, got: seq<Bytes>, input: Bytes)
    requires InStep(start, got, input)
    ensures match ReadLine(input, MAX_LINE_BYTES)
            case Line(line, rest) =>
              if line == [DOT] then Payload(start, MAX_LINE_BYTES) == Some((got, rest))
              else InStep(start, got + [Unstuffed(line)], rest)
            case TooLong => Payload(start, MAX_LINE_BYTES).None?
            case Truncated => Payload(start, MAX_LINE_BYTES).None?
  {
    match ReadLine(input, MAX_LINE_BYTES)
    case Line(line, rest) =>
      if line == [DOT] {
        assert got + [] == got;
      } else if Payload(rest, MAX_LINE_BYTES).Some? {
        var after := Payload(rest, MAX_LINE_BYTES).value.0;
        assert got + ([Unstuffed(line)] + after) == got + [Unstuffed(line)] + after;
      }
    case TooLong =>
    case Truncated =>
  }

  class LineSource {
    /** The octets the peer has sent and the server has not consumed. */
    var input: Bytes

    constructor (input: Bytes)
      ensures this.input == input
    {
      this.input := input;
    }

    /** A new reader over another stream: what the old one held is dropped. */
    method SwitchTo(other: Bytes)
      modifies this
      ensures input == other
    {
      input := other;
    }

    /** Assembles one line from buffer-sized chunks; None is an error, behind which reading goes on. */
    method NextLine() returns (r: Option<Bytes>)
      modifies this
      ensures r == LineOf(old(input)) && input == LeftAfter(0, old(input))
      ensures r.Some? ==> |input| < |old(input)|
    {
      LineIsAssembled(input);
      ghost var start := input;
      var line: Bytes := [];
      while true
        invariant Assembled(line, input) == Assembled([], start) && |input| <= |start|
        decreases |input|
      {
        var c := NextChunk(input);
        if c.EndOfInput? {
          return None;
        }
        input := c.rest;
        if |line| + |c.data| > MAX_LINE_BYTES {
          return None;
        }
        line := line + c.data;
        if !c.isPrefix {
          return Some(line);
        }
      }
    }

    /**
     Reads the DATA payload, undoing dot-stuffing. An oversized message is read to
     its end, so the session stays in step with the client.
     */
    method ReadData(maxSize: nat) returns (body: Bytes, tooLarge: bool, ok: bool)
      modifies this
      ensures match Payload(old(input), MAX_LINE_BYTES)
              case Some(p) =>
                && ok && input == p.1 && |body| <= maxSize
                && (tooLarge <==> |Crlf(p.0)| > maxSize)
                && (!tooLarge ==> body == Crlf(p.0))
              case None => !ok && body == [] && !tooLarge
      ensures input == PayloadLeft(old(input))
    {
      ghost var start, left := input, PayloadLeft(input);
      ghost var got: seq<Bytes> := [];
      body, tooLarge := [], false;
      assert Payload(start, MAX_LINE_BYTES).Some? ==>
          [] + Payload(start, MAX_LINE_BYTES).value.0 == Payload(start, MAX_LINE_BYTES).value.0;
      while true
        invariant |body| <= maxSize
        invariant if tooLarge then |Crlf(got)| > maxSize else body == Crlf(got)
        invariant InStep(start, got, input) && PayloadLeft(input) == left
        decreases |input|
      {
        ghost var before := input;
        var r := NextLine();
        if r.None? {
          return [], false, false;
        }
        StepsOn(start, got, before);
        LeftOfLine(before);
        var line := r.value;
        if line == [DOT] {
          return body, tooLarge, true;
        }
        if line != [] && line[0] == DOT {
          line := line[1..];
        }
        GrowBody(got, line);
        got := got + [line];
        if |body| + |line| + 2 > maxSize {
          tooLarge := true;
        } else if !tooLarge {
          body := body + line + CRLF;
        }
      }
    }
  }

  lemma GrowBody(got: seq<Bytes>, line: Bytes)
    ensures Crlf(got + [line]) == Crlf(got) + line + CRLF
  {
    CrlfAppend(got, [line]);
    assert Crlf([line][1..]) == [];
    assert Crlf([line]) == line + CRLF;
  }

  lemma StuffNext(lines: seq<Bytes>, i: nat)
    requires i < |lines|
    ensures Stuff(lines[..i + 1]) == Stuff(lines[..i]) + (Stuffed(lines[i]) + CRLF)
  {
    assert lines[..i + 1] == lines[..i] + [lines[i]];
    StuffAppend(lines[..i], [lines[i]]);
    assert Stuff([lines[i]][1..]) == [];
  }

  lemma SentNext(base: Bytes, sent: Bytes, lines: seq<Bytes>, i: nat)
    requires i < |lines| && sent == base + Stuff(lines[..i])
    ensures sent + (Stuffed(lines[i]) + CRLF) == base + Stuff(lines[..i + 1])
  {
    StuffNext(lines, i);
    Assoc(base, Stuff(lines[..i]), Stuffed(lines[i]) + CRLF);
  }

  /** Where the loop stops is where TOP ends. */
  lemma TopEnds(lines: seq<Bytes>, i: nat, bodyLines: int)
    requires i <= |lines|
    requires if i == |lines| then bodyLines >= 0 ==> i <= FirstBlank(lines) + 1 + bodyLines
             else bodyLines >= 0 && i == FirstBlank(lines) + 1 + bodyLines
    ensures lines[..i] == TopLines(lines, bodyLines)
  {
  }

  lemma Closing(base: Bytes, stuffed: Bytes)
    ensures (base + stuffed) + ([DOT] + CRLF) == base + (stuffed + [DOT] + CRLF)
  {
    Assoc(base, stuffed, [DOT] + CRLF);
    Assoc(stuffed, [DOT], CRLF);
  }

  lemma Terminated(base: Bytes, sent: Bytes, lines: seq<Bytes>, i: nat, bodyLines: int)
    requires i <= |lines| && sent == base + Stuff(lines[..i])
    requires if i == |lines| then bodyLines >= 0 ==> i <= FirstBlank(lines) + 1 + bodyLines
             else bodyLines >= 0 && i == FirstBlank(lines) + 1 + bodyLines
    ensures sent + ([DOT] + CRLF) == base + Multiline(TopLines(lines, bodyLines))
  {
    TopEnds(lines, i, bodyLines);
    Closing(base, Stuff(lines[..i]));
  }

  class LineSink {
    /** The octets written to the client. */
    var out: Bytes

    constructor ()
      ensures out == []
    {
      out := [];
    }

    method WriteLine(line: Bytes)
      modifies this
      ensures out == old(out) + (Stuffed(line) + CRLF)
    {
      if line != [] && line[0] == DOT {
        out := out + [DOT];
      }
      out := out + line;
      out := out + CRLF;
    }

    /** Writes line `i` after the lines before it. */
    method WriteNext(ghost base: Bytes, lines: seq<Bytes>, i: nat)
      requires i < |lines| && out == base + Stuff(lines[..i])
      modifies this
      ensures out == base + Stuff(lines[..i + 1])
    {
      SentNext(base, out, lines, i);
      WriteLine(lines[i]);
    }

    /** A negative `bodyLines` sends the whole message (RETR). */
    method WriteDotStuffed(raw: Bytes, bodyLines: int)
      modifies this
      ensures out == old(out) + Multiline(TopLines(SplitLines(raw), bodyLines))
    {
      var lines := SplitLines(raw);
      ghost var k, base := FirstBlank(lines), out;
      var inHeaders, emitted, i := bodyLines >= 0, 0, 0;
      while i < |lines|
        invariant 0 <= i <= |lines|
        invariant out == base + Stuff(lines[..i])
        invariant inHeaders ==> bodyLines >= 0 && i <= k && emitted == 0
        invariant bodyLines >= 0 && !inHeaders ==> k < |lines| && emitted == i - (k + 1) && 0 <= emitted <= bodyLines
      {
        var line := lines[i];
        if inHeaders && line == [] {
          inHeaders := false;
          WriteNext(base, lines, i);
          i := i + 1;
          if bodyLines == 0 {
            break;
          }
          continue;
        }
        if !inHeaders && bodyLines >= 0 {
          if emitted >= bodyLines {
            break;
          }
          emitted := emitted + 1;
        }
        WriteNext(base, lines, i);
        i := i + 1;
      }
      Terminated(base, out, lines, i, bodyLines);
      out := out + ([DOT] + CRLF);
    }
  }

  /** The octet count that STAT, LIST and RETR announce. */
  method CrlfSize(raw: Bytes) returns (total: nat)
    ensures total == |Stuff(SplitLines(raw))|
    ensures total + |[DOT] + CRLF| == |RetrWire(raw)|
  {
    var lines := SplitLines(raw);
    total := 0;
    for i := 0 to |lines|
      invariant total == |Stuff(lines[..i])|
    {
      var line := lines[i];
      StuffNext(lines, i);
      total := total + |line| + 2;
      if line != [] && line[0] == DOT {
        total := total + 1;
      }
    }
    assert lines[..|lines|] == lines;
  }
}
