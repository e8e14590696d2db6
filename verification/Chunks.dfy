/** The buffered reader of SMTP lines: how lines come out of buffer-sized chunks, and what is left unread. */
module Chunks {
  import opened Bytes
  import opened Sequences
  import opened Wire

  datatype Chunk =
    | Chunk(data: Bytes, isPrefix: bool, rest: Bytes)
    | EndOfInput

  /**
   One step of the buffered reader: a whole line, or a full buffer of a longer one.
   A CR at the end of a full buffer is left for the next step.
   */
  function NextChunk(input: Bytes): (c: Chunk)
    ensures c.Chunk? ==> |c.rest| < |input|
  {
    var i := FindLF(input);
    if i < |input| && i < BUFFER_BYTES then
      Chunk(TrimSuffix(input[..i], CR), false, input[i + 1..])
    else if |input| >= BUFFER_BYTES then
      var data := TrimSuffix(input[..BUFFER_BYTES], CR);
      Chunk(data, true, input[|data|..])
    else if input == [] then EndOfInput
    else Chunk(input, false, [])
  }

  lemma FindLFAfter(a: Bytes, b: Bytes)
    requires LF !in a
    ensures FindLF(a + b) == |a| + FindLF(b)
  {
    var s, i := a + b, FindLF(b);
    assert s[..|a| + i] == a + b[..i];
    if i < |b| {
      FindLFUnique(s, |a| + i);
    } else {
      assert b[..i] == b;
      FindLFNone(s);
    }
  }

  lemma FindLFNone(s: Bytes)
    requires LF !in s
    ensures FindLF(s) == |s|
  {
    assert forall k | 0 <= k < |s| :: s[k] != LF;
  }

  /** `line` has been assembled from the front of `start`, and `input` is still unread. */
  ghost predicate Partial(start: Bytes, line: Bytes, input: Bytes) {
    && start == line + input
    && |line| <= MAX_LINE_BYTES
    && LF !in line
    && (LF !in start ==> FillsBuffers(start) == FillsBuffers(input))
    && (line != [] && line[|line| - 1] == CR ==> input != [] && input[0] == CR)
  }

  lemma PartialAtEnd(start: Bytes, line: Bytes)
    requires Partial(start, line, [])
    ensures ReadLine(start, MAX_LINE_BYTES) == Truncated
  {
    FindLFAfter(line, []);
    assert start == line;
  }

  /** The chunk at hand neither ends the line nor makes it too long. */
  predicate GoesOn(taken: nat, input: Bytes) {
    var c := NextChunk(input);
    c.Chunk? && c.isPrefix && taken + |c.data| <= MAX_LINE_BYTES
  }

  /** A full buffer without a line feed, but for a CR at its end. */
  lemma PrefixData(input: Bytes)
    requires NextChunk(input).Chunk? && NextChunk(input).isPrefix
    ensures var c := NextChunk(input);
            && input == c.data + c.rest && LF !in c.data
            && (c.data != [] && c.data[|c.data| - 1] == CR ==> c.rest != [] && c.rest[0] == CR)
            && (LF !in input ==> FillsBuffers(input) == FillsBuffers(c.rest))
  {
    var c := NextChunk(input);
    assert c.data <= input[..FindLF(input)];
  }

  lemma PartialGrows(start: Bytes, line: Bytes, data: Bytes, rest: Bytes)
    requires Partial(start, line, data + rest) && |line| + |data| <= MAX_LINE_BYTES && LF !in data
    requires data != [] && data[|data| - 1] == CR ==> rest != [] && rest[0] == CR
    requires LF !in data + rest ==> FillsBuffers(data + rest) == FillsBuffers(rest)
    ensures Partial(start, line + data, rest)
  {
    Assoc(line, data, rest);
    assert LF !in line + data;
    if data == [] {
      assert line + data == line && data + rest == rest;
    }
  }

  lemma PrefixChunk(start: Bytes, line: Bytes, input: Bytes)
    requires Partial(start, line, input) && GoesOn(|line|, input)
    ensures NextChunk(input).Chunk? && Partial(start, line + NextChunk(input).data, NextChunk(input).rest)
  {
    PrefixData(input);
    PartialGrows(start, line, NextChunk(input).data, NextChunk(input).rest);
  }

  lemma CutAround(a: Bytes, b: Bytes, i: nat)
    requires i < |b|
    ensures (a + b)[..|a| + i] == a + b[..i] && (a + b)[|a| + i + 1..] == b[i + 1..]
  {
  }

  lemma ReadLineAt(s: Bytes, i: nat, line: Bytes, rest: Bytes)
    requires i == FindLF(s) < |s| && TrimSuffix(s[..i], CR) == line && s[i + 1..] == rest && |line| <= MAX_LINE_BYTES
    ensures ReadLine(s, MAX_LINE_BYTES) == Line(line, rest)
  {
  }

  /** The line feed comes in this chunk. */
  lemma LineEnds(line: Bytes, input: Bytes)
    requires LF !in line && FindLF(input) < |input|
    requires line != [] && line[|line| - 1] == CR ==> input[0] == CR
    requires |line| + |TrimSuffix(input[..FindLF(input)], CR)| <= MAX_LINE_BYTES
    ensures ReadLine(line + input, MAX_LINE_BYTES)
            == Line(line + TrimSuffix(input[..FindLF(input)], CR), input[FindLF(input) + 1..])
  {
    var i := FindLF(input);
    FindLFAfter(line, input);
    CutAround(line, input, i);
    TrimAfter(line, input[..i], input);
    ReadLineAt(line + input, |line| + i, line + TrimSuffix(input[..i], CR), input[i + 1..]);
  }

  /** No line feed will come, and the buffer is not full. */
  lemma InputEnds(line: Bytes, input: Bytes)
    requires LF !in line && FindLF(input) == |input| && !FillsBuffers(line + input)
    requires |line| + |input| <= MAX_LINE_BYTES
    ensures ReadLine(line + input, MAX_LINE_BYTES) == Line(line + input, [])
  {
    FindLFAfter(line, input);
  }

  lemma LastChunk(start: Bytes, line: Bytes, input: Bytes)
    requires Partial(start, line, input)
    requires NextChunk(input).Chunk? && !NextChunk(input).isPrefix
    requires |line| + |NextChunk(input).data| <= MAX_LINE_BYTES
    ensures ReadLine(start, MAX_LINE_BYTES) == Line(line + NextChunk(input).data, NextChunk(input).rest)
  {
    if FindLF(input) < |input| {
      LineEnds(line, input);
    } else {
      InputEnds(line, input);
    }
  }

  /** What is trimmed off a line is in its last piece. */
  lemma TrimAfter(line: Bytes, last: Bytes, input: Bytes)
    requires last <= input && |last| < |input| && input[|last|] == LF
    requires line != [] && line[|line| - 1] == CR ==> input[0] == CR
    ensures TrimSuffix(line + last, CR) == line + TrimSuffix(last, CR)
  {
  }

  lemma LongLine(start: Bytes, line: Bytes, input: Bytes)
    requires Partial(start, line, input)
    requires NextChunk(input).Chunk?
    requires |line| + |NextChunk(input).data| > MAX_LINE_BYTES
    ensures ReadLine(start, MAX_LINE_BYTES) == TooLong
  {
    var i := FindLF(input);
    FindLFAfter(line, input);
    if i < |input| {
      assert start[..|line| + i] == line + input[..i];
      LongBeforeLF(line, input, i);
    }
  }

  lemma LongBeforeLF(line: Bytes, input: Bytes, i: nat)
    requires i == FindLF(input) < |input| && |line| + |NextChunk(input).data| > MAX_LINE_BYTES
    requires line != [] && line[|line| - 1] == CR ==> input[0] == CR
    ensures |TrimSuffix(line + input[..i], CR)| > MAX_LINE_BYTES
  {
    if i >= BUFFER_BYTES {
      assert input[..i][BUFFER_BYTES - 1] == input[..BUFFER_BYTES][BUFFER_BYTES - 1];
    } else {
      TrimAfter(line, input[..i], input);
    }
  }

  /** The line that reading comes to, if it is not an error. */
  function LineOf(input: Bytes): Option<Bytes> {
    match ReadLine(input, MAX_LINE_BYTES)
    case Line(line, _) => Some(line)
    case TooLong => None
    case Truncated => None
  }

  // ---------------------------------------------------------------------------
  // What is left unread
  // ---------------------------------------------------------------------------

  /** What the reader leaves behind a line or an error, with `taken` octets of the line in hand. */
  function LeftAfter(taken: nat, input: Bytes): Bytes
    decreases |input|
  {
    match NextChunk(input)
    case EndOfInput => []
    case Chunk(data, isPrefix, rest) =>
      if isPrefix && taken + |data| <= MAX_LINE_BYTES then LeftAfter(taken + |data|, rest) else rest
  }

  /** What the DATA reader leaves behind the lone dot or an error. */
  function PayloadLeft(input: Bytes): Bytes
    decreases |input|
  {
    match ReadLine(input, MAX_LINE_BYTES)
    case Line(line, rest) => if line == [DOT] then rest else PayloadLeft(rest)
    case TooLong => LeftAfter(0, input)
    case Truncated => LeftAfter(0, input)
  }

  /** What an attempt on `total` octets leaves behind: of a line that is too long, more than the limit is gone. */
  ghost predicate Leaves(r: ReadResult, total: nat, left: Bytes) {
    match r
    case Line(_, rest) => left == rest
    case TooLong => |left| + MAX_LINE_BYTES < total
    case Truncated => left == []
  }

  lemma LeftNext(taken: nat, input: Bytes)
    requires GoesOn(taken, input)
    ensures NextChunk(input).Chunk? && |NextChunk(input).rest| < |input|
    ensures LeftAfter(taken, input) == LeftAfter(taken + |NextChunk(input).data|, NextChunk(input).rest)
  {
  }

  lemma LeftLast(start: Bytes, line: Bytes, input: Bytes)
    requires Partial(start, line, input)
    requires !GoesOn(|line|, input)
    ensures Leaves(ReadLine(start, MAX_LINE_BYTES), |start|, LeftAfter(|line|, input))
  {
    var c := NextChunk(input);
    if c.EndOfInput? {
      PartialAtEnd(start, line);
    } else if |line| + |c.data| > MAX_LINE_BYTES {
      LongLine(start, line, input);
    } else {
      LastChunk(start, line, input);
    }
  }

  lemma {:induction false} LeftOfPartial(start: Bytes, line: Bytes, input: Bytes, r: ReadResult, total: nat, left: Bytes)
    requires Partial(start, line, input) && r == ReadLine(start, MAX_LINE_BYTES) && total == |start| && left == LeftAfter(|line|, input)
    ensures Leaves(r, total, left)
    decreases |input|
  {
    if GoesOn(|line|, input) {
      PrefixChunk(start, line, input);
      LeftNext(|line|, input);
      LeftOfPartial(start, line + NextChunk(input).data, NextChunk(input).rest, r, total, left);
    } else {
      LeftLast(start, line, input);
    }
  }

  /** Behind a line the reader goes on right after it; at the end of the input nothing is left. */
  lemma LeftOfLine(input: Bytes)
    ensures Leaves(ReadLine(input, MAX_LINE_BYTES), |input|, LeftAfter(0, input))
  {
    assert [] + input == input;
    LeftOfPartial(input, [], input, ReadLine(input, MAX_LINE_BYTES), |input|, LeftAfter(0, input));
  }

  ghost predicate EndOf(left: Bytes, input: Bytes) {
    |left| <= |input| && left == input[|input| - |left|..]
  }

  lemma EndOfMore(left: Bytes, front: Bytes, after: Bytes)
    requires EndOf(left, after)
    ensures EndOf(left, front + after)
  {
  }

  lemma LeftHere(taken: nat, input: Bytes)
    requires !GoesOn(taken, input)
    ensures LeftAfter(taken, input) == if NextChunk(input).EndOfInput? then [] else NextChunk(input).rest
  {
  }

  lemma RestIsEnd(input: Bytes)
    ensures NextChunk(input).Chunk? ==> EndOf(NextChunk(input).rest, input)
    ensures NextChunk(input).EndOfInput? ==> input == []
  {
  }

  lemma EndOfEnd(left: Bytes, rest: Bytes, input: Bytes)
    requires EndOf(left, rest) && EndOf(rest, input)
    ensures EndOf(left, input)
  {
    assert input == input[..|input| - |rest|] + rest;
  }

  /** What is left is the end of the input. */
  lemma {:induction false} LeftIsEnd(taken: nat, input: Bytes, left: Bytes)
    requires left == LeftAfter(taken, input)
    ensures EndOf(left, input)
    decreases |input|
  {
    RestIsEnd(input);
    if GoesOn(taken, input) {
      LeftNext(taken, input);
      LeftIsEnd(taken + |NextChunk(input).data|, NextChunk(input).rest, left);
      EndOfEnd(left, NextChunk(input).rest, input);
    } else {
      LeftHere(taken, input);
    }
  }

  lemma OneChunkTakes(input: Bytes)
    requires NextChunk(input).Chunk?
    ensures var taken := |input| - |NextChunk(input).rest|;
            && taken <= BUFFER_BYTES && taken <= FindLF(input) + 1
            && (NextChunk(input).isPrefix ==>
                  taken == |NextChunk(input).data| && FindLF(input) == taken + FindLF(NextChunk(input).rest))
  {
    var c := NextChunk(input);
    if c.isPrefix {
      PrefixData(input);
      FindLFAfter(c.data, c.rest);
    }
  }

  /** The reader never goes past a line feed, nor more than a buffer past the limit. */
  lemma {:induction false} LeftIsMuch(taken: nat, input: Bytes, left: Bytes)
    requires taken <= MAX_LINE_BYTES && left == LeftAfter(taken, input)
    ensures |input| <= |left| + FindLF(input) + 1
    ensures taken + |input| <= |left| + MAX_LINE_BYTES + BUFFER_BYTES
    decreases |input|
  {
    RestIsEnd(input);
    if NextChunk(input).Chunk? {
      OneChunkTakes(input);
    }
    if GoesOn(taken, input) {
      LeftNext(taken, input);
      LeftIsMuch(taken + |NextChunk(input).data|, NextChunk(input).rest, left);
    } else {
      LeftHere(taken, input);
    }
  }

  /** When the payload is read to its end, what is left is what follows it. */
  lemma {:induction false} PayloadLeftBehind(input: Bytes)
    ensures Payload(input, MAX_LINE_BYTES).Some? ==> PayloadLeft(input) == Payload(input, MAX_LINE_BYTES).value.1
    decreases |input|
  {
    var r := ReadLine(input, MAX_LINE_BYTES);
    if r.Line? && r.line != [DOT] {
      PayloadLeftBehind(r.rest);
    }
  }

  lemma PayloadLeftOfLine(line: Bytes, after: Bytes)
    requires LF !in line
    ensures var input := Stuffed(line) + CRLF + after;
            PayloadLeft(input) == if |Stuffed(line)| <= MAX_LINE_BYTES then PayloadLeft(after) else LeftAfter(0, input)
  {
    ReadLineOfLine(Stuffed(line), after, MAX_LINE_BYTES);
    assert Stuffed(line) != [DOT];
  }

  /** Whatever becomes of a line, what comes behind it is not touched. */
  lemma BehindIsSafe(line: Bytes, after: Bytes)
    requires LF !in line
    ensures |LeftAfter(0, line + CRLF + after)| >= |after|
  {
    var input := line + CRLF + after;
    LeftIsMuch(0, input, LeftAfter(0, input));
    assert input[..|line| + 1] == line + [CR];
    FindLFUnique(input, |line| + 1);
  }

  /** The reader stands right behind the payload, or inside it. */
  ghost predicate StandsBehind(sent: Bytes, rest: Bytes, left: Bytes, behind: bool) {
    (left == rest <==> behind) && (!behind ==> |rest| < |left| && EndOf(left, sent))
  }

  lemma StopsInLine(line: Bytes, after: Bytes, rest: Bytes)
    requires LF !in line && |Stuffed(line)| > MAX_LINE_BYTES && |after| > |rest|
    ensures var sent := Stuffed(line) + CRLF + after;
            StandsBehind(sent, rest, PayloadLeft(sent), false)
  {
    var sent := Stuffed(line) + CRLF + after;
    PayloadLeftOfLine(line, after);
    BehindIsSafe(Stuffed(line), after);
    LeftIsEnd(0, sent, LeftAfter(0, sent));
  }

  lemma StopsLater(line: Bytes, after: Bytes, rest: Bytes, behind: bool)
    requires LF !in line && |Stuffed(line)| <= MAX_LINE_BYTES && StandsBehind(after, rest, PayloadLeft(after), behind)
    ensures var sent := Stuffed(line) + CRLF + after;
            StandsBehind(sent, rest, PayloadLeft(sent), behind)
  {
    PayloadLeftOfLine(line, after);
    if !behind {
      EndOfMore(PayloadLeft(after), Stuffed(line) + CRLF, after);
    }
  }

  /**
   The reader stands right behind the lone dot exactly when every line, as it was sent, is within the
   limit; otherwise it stands inside the payload.
   */
  lemma {:induction false} PayloadLeftIff(lines: seq<Bytes>, rest: Bytes)
    requires NoLF(lines)
    ensures StandsBehind(Multiline(lines) + rest, rest, PayloadLeft(Multiline(lines) + rest), Fits(lines, MAX_LINE_BYTES))
  {
    if lines == [] {
      assert Multiline(lines) + rest == [DOT] + CRLF + rest;
      ReadLineOfLine([DOT], rest, MAX_LINE_BYTES);
    } else {
      var after := Multiline(lines[1..]) + rest;
      MultilineCons(lines, rest);
      FitsSplit(lines, MAX_LINE_BYTES);
      if |Stuffed(lines[0])| > MAX_LINE_BYTES {
        StopsInLine(lines[0], after, rest);
      } else {
        PayloadLeftIff(lines[1..], rest);
        StopsLater(lines[0], after, rest, Fits(lines[1..], MAX_LINE_BYTES));
      }
    }
  }

  // ---------------------------------------------------------------------------
  // The loop over the chunks
  // ---------------------------------------------------------------------------

  /** What the loop makes of the rest of a line, and what it leaves. */
  function Assembled(line: Bytes, input: Bytes): (Option<Bytes>, Bytes)
    decreases |input|
  {
    match NextChunk(input)
    case EndOfInput => (None, [])
    case Chunk(data, isPrefix, rest) =>
      if |line| + |data| > MAX_LINE_BYTES then (None, rest)
      else if isPrefix then Assembled(line + data, rest)
      else (Some(line + data), rest)
  }

  lemma AssembledNext(line: Bytes, input: Bytes)
    requires GoesOn(|line|, input)
    ensures Assembled(line, input) == Assembled(line + NextChunk(input).data, NextChunk(input).rest)
  {
  }

  lemma AssembledHere(start: Bytes, line: Bytes, input: Bytes)
    requires Partial(start, line, input) && !GoesOn(|line|, input)
    ensures Assembled(line, input) == (LineOf(start), LeftAfter(|line|, input))
  {
    LeftHere(|line|, input);
    var c := NextChunk(input);
    if c.EndOfInput? {
      PartialAtEnd(start, line);
    } else if |line| + |c.data| > MAX_LINE_BYTES {
      LongLine(start, line, input);
    } else {
      LastChunk(start, line, input);
    }
  }

  lemma {:induction false} AssembledIs(start: Bytes, line: Bytes, input: Bytes, left: Bytes, r: (Option<Bytes>, Bytes))
    requires Partial(start, line, input) && left == LeftAfter(|line|, input) && r == Assembled(line, input)
    ensures r == (LineOf(start), left)
    decreases |input|
  {
    if GoesOn(|line|, input) {
      PrefixChunk(start, line, input);
      LeftNext(|line|, input);
      AssembledNext(line, input);
      AssembledIs(start, line + NextChunk(input).data, NextChunk(input).rest, left, r);
    } else {
      AssembledHere(start, line, input);
    }
  }

  /** Chunk by chunk, the loop comes to the line. */
  lemma LineIsAssembled(input: Bytes)
    ensures Assembled([], input) == (LineOf(input), LeftAfter(0, input))
  {
    assert [] + input == input;
    AssembledIs(input, [], input, LeftAfter(0, input), Assembled([], input));
  }
}
