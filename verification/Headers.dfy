/**
 Header blocks: how a composed message prints its fields and how the message parser
 reads them back.
 */
module Headers {
  import opened Bytes
  import opened Sequences
  import opened Text

  datatype Field = Field(name: string, value: string)

  const BLANK_LINE: string := "\r\n\r\n"

  // ---------------------------------------------------------------------------
  // Printing
  // ---------------------------------------------------------------------------

  function LineOf(field: Field): string {
    field.name + ": " + field.value
  }

  function FieldLines(fields: seq<Field>): (r: seq<string>)
    ensures |r| == |fields|
    ensures forall i | 0 <= i < |r| :: r[i] == LineOf(fields[i])
  {
    seq(|fields|, i requires 0 <= i < |fields| => LineOf(fields[i]))
  }

  function Written(fields: seq<Field>): string {
    if fields == [] then "" else LineOf(fields[0]) + "\r\n" + Written(fields[1..])
  }

  function Printed(fields: seq<Field>, body: string): string {
    Written(fields) + "\r\n" + body
  }

  /** On the wire a field is its name, a colon, a blank and its value, on a line of its own. */
  lemma PrintedField(name: string, value: string, fields: seq<Field>, body: string)
    ensures Printed([Field(name, value)] + fields, body) == name + ": " + value + "\r\n" + Printed(fields, body)
    ensures Printed([], body) == "\r\n" + body
  {
    assert ([Field(name, value)] + fields)[1..] == fields;
    Assoc(name + ": " + value + "\r\n", Written(fields), "\r\n" + body);
  }

  // ---------------------------------------------------------------------------
  // Parsing
  // ---------------------------------------------------------------------------

  /** The head and the body, separated at the first empty line. */
  function SplitMessage(raw: string): (string, string) {
    var i := IndexOf(raw, BLANK_LINE);
    if i < |raw| then (raw[..i], raw[i + 4..])
    else
      var j := IndexOf(raw, "\n\n");
      if j < |raw| then (raw[..j], raw[j + 2..]) else (raw, "")
  }

  /** The effect of one line on the fields read so far: skip, unfold or add. */
  function AddLine(fields: seq<Field>, line: string): seq<Field> {
    if line == "" then fields
    else if (line[0] == ' ' || line[0] == '\t') && |fields| > 0 then
      var last := fields[|fields| - 1];
      fields[|fields| - 1 := last.(value := last.value + " " + TrimSpace(line))]
    else
      match Cut(line, ':')
      case None => fields
      case Some(parts) => fields + [Field(TrimSpace(parts.0), TrimSpace(parts.1))]
  }

  function AddLines(fields: seq<Field>, lines: seq<string>): seq<Field>
    decreases lines
  {
    if lines == [] then fields else AddLines(AddLine(fields, lines[0]), lines[1..])
  }

  function Parsed(block: string): seq<Field> {
    AddLines([], Split(Collapse(block, '\r', '\n'), {'\n'}))
  }

  /** The parser as it runs: unfold, split, and grow the field list line by line. */
  method ParseHeaders(block: string) returns (fields: seq<Field>)
    ensures fields == Parsed(block)
  {
    var lines := Split(Collapse(block, '\r', '\n'), {'\n'});
    fields := [];
    assert lines[0..] == lines;
    for i := 0 to |lines|
      invariant AddLines(fields, lines[i..]) == Parsed(block)
    {
      var line := lines[i];
      assert lines[i..][1..] == lines[i + 1..];
      if line == "" {
        continue;
      }
      if (line[0] == ' ' || line[0] == '\t') && |fields| > 0 {
        var last := fields[|fields| - 1];
        fields := fields[|fields| - 1 := last.(value := last.value + " " + TrimSpace(line))];
        continue;
      }
      var cut := Cut(line, ':');
      if cut.None? {
        continue;
      }
      fields := fields + [Field(TrimSpace(cut.value.0), TrimSpace(cut.value.1))];
    }
  }

  // ---------------------------------------------------------------------------
  // Reading back what was printed
  // ---------------------------------------------------------------------------

  /** What a caller can check about the names before printing. */
  ghost predicate PlainNames(fields: seq<Field>) {
    forall i | 0 <= i < |fields| :: Free(fields[i].name, {':', '\n'})
  }

  /** What printing relies on: trimmed names and one-line values. */
  ghost predicate Printable(fields: seq<Field>) {
    forall i | 0 <= i < |fields| :: IsTrimmed(fields[i].name) && Free(fields[i].value, {'\n'})
  }

  function TrimValues(fields: seq<Field>): (r: seq<Field>)
    ensures |r| == |fields|
    ensures forall i | 0 <= i < |r| :: r[i] == Field(fields[i].name, TrimSpace(fields[i].value))
  {
    seq(|fields|, i requires 0 <= i < |fields| => Field(fields[i].name, TrimSpace(fields[i].value)))
  }

  ghost predicate OneLiners(lines: seq<string>) {
    forall i | 0 <= i < |lines| :: lines[i] != "" && Free(lines[i], {'\n'})
  }

  lemma {:induction false} WrittenIsJoined(fields: seq<Field>)
    requires fields != []
    ensures Written(fields) == Join(FieldLines(fields), "\r\n") + "\r\n"
  {
    if |fields| == 1 {
      assert Written(fields[1..]) == "";
    } else {
      WrittenIsJoined(fields[1..]);
      assert FieldLines(fields)[1..] == FieldLines(fields[1..]);
    }
  }

  lemma {:induction false} CollapseLine(a: string, b: string)
    requires Free(a, {'\n'})
    ensures Collapse(a + "\r\n" + b, '\r', '\n') == a + "\n" + Collapse(b, '\r', '\n')
  {
    var s := a + "\r\n" + b;
    if a == "" {
      assert s[2..] == b;
    } else {
      assert a[0] in a;
      assert s[1..] == a[1..] + "\r\n" + b;
      assert |a| >= 2 ==> a[1] in a;
      CollapseLine(a[1..], b);
      assert [a[0]] + a[1..] == a;
    }
  }

  lemma {:induction false} CollapseOneLine(a: string)
    requires Free(a, {'\n'})
    ensures Collapse(a, '\r', '\n') == a
  {
    if a != "" {
      assert |a| >= 2 ==> a[1] in a;
      CollapseOneLine(a[1..]);
      assert [a[0]] + a[1..] == a;
    }
  }

  lemma {:induction false} CollapseJoined(lines: seq<string>)
    requires OneLiners(lines)
    ensures Collapse(Join(lines, "\r\n"), '\r', '\n') == Join(lines, "\n")
  {
    if |lines| == 1 {
      CollapseOneLine(lines[0]);
    } else if |lines| > 1 {
      CollapseLine(lines[0], Join(lines[1..], "\r\n"));
      CollapseJoined(lines[1..]);
    }
  }

  lemma BlankLineNotInLine(line: string, t: string, j: nat)
    requires Free(line, {'\n'}) && !("\r\n" <= t) && j < |line| + 2
    ensures !(BLANK_LINE <= (line + "\r\n" + t)[j..])
  {
    var s := line + "\r\n" + t;
    assert forall k | 0 <= k < |line| :: s[k] == line[k] && line[k] in line;
    assert s[|line|] == '\r' && s[|line| + 1] == '\n';
    assert forall k | 0 <= k < |t| :: s[|line| + 2 + k] == t[k];
    StartsBlankIff(s, j);
    StartsBreakIff(t);
  }

  lemma StartsBlankIff(s: string, j: nat)
    requires j <= |s|
    ensures BLANK_LINE <= s[j..]
            <==> j + 4 <= |s| && s[j] == '\r' && s[j + 1] == '\n' && s[j + 2] == '\r' && s[j + 3] == '\n'
  {
    if j + 4 <= |s| {
      assert s[j..][..4] == [s[j], s[j + 1], s[j + 2], s[j + 3]];
    }
  }

  lemma StartsBreakIff(t: string)
    ensures "\r\n" <= t <==> 2 <= |t| && t[0] == '\r' && t[1] == '\n'
  {
    if 2 <= |t| {
      assert t[..2] == [t[0], t[1]];
    }
  }

  lemma JoinedStartsWithLine(lines: seq<string>, rest: string)
    requires lines != [] && OneLiners(lines)
    ensures !("\r\n" <= Join(lines, "\r\n") + BLANK_LINE + rest)
  {
    var t := Join(lines, "\r\n") + BLANK_LINE + rest;
    StartsBreakIff(t);
    var first := lines[0];
    assert forall k | 0 <= k < |first| :: first[k] in first;
    if |lines| == 1 {
      assert t == first + ("\r\n\r\n" + rest);
    } else {
      assert t == first + ("\r\n" + Join(lines[1..], "\r\n") + BLANK_LINE + rest);
    }
  }

  /** Behind a line and its break there is no blank line before the first one of what follows. */
  lemma BlankLineLater(line: string, t: string, j: nat)
    requires Free(line, {'\n'}) && !("\r\n" <= t) && j < |line| + 2 + IndexOf(t, BLANK_LINE)
    ensures !(BLANK_LINE <= (line + "\r\n" + t)[j..])
  {
    if j < |line| + 2 {
      BlankLineNotInLine(line, t, j);
    } else {
      assert (line + "\r\n" + t)[j..] == t[j - |line| - 2..];
    }
  }

  lemma {:induction false} BlankLineIndex(lines: seq<string>, rest: string)
    requires lines != [] && OneLiners(lines)
    ensures IndexOf(Join(lines, "\r\n") + BLANK_LINE + rest, BLANK_LINE) == |Join(lines, "\r\n")|
  {
    var s := Join(lines, "\r\n") + BLANK_LINE + rest;
    assert BLANK_LINE <= s[|Join(lines, "\r\n")|..];
    if |lines| == 1 {
      NoEarlierBlankLine(lines[0], rest);
      assert s == lines[0] + BLANK_LINE + rest;
    } else {
      var t := Join(lines[1..], "\r\n") + BLANK_LINE + rest;
      assert s == lines[0] + "\r\n" + t;
      BlankLineIndex(lines[1..], rest);
      JoinedStartsWithLine(lines[1..], rest);
      forall j | 0 <= j < |Join(lines, "\r\n")| ensures !(BLANK_LINE <= s[j..]) {
        BlankLineLater(lines[0], t, j);
      }
    }
  }

  lemma NoEarlierBlankLine(line: string, rest: string)
    requires Free(line, {'\n'})
    ensures forall j | 0 <= j < |line| :: !(BLANK_LINE <= (line + BLANK_LINE + rest)[j..])
  {
    var s := line + BLANK_LINE + rest;
    assert forall k | 0 <= k < |line| :: s[k] == line[k] && line[k] in line;
    forall j | 0 <= j < |line| ensures !(BLANK_LINE <= s[j..]) {
      StartsBlankIff(s, j);
    }
  }

  lemma SplitMessageOfPrinted(fields: seq<Field>, body: string)
    requires fields != [] && OneLiners(FieldLines(fields))
    ensures SplitMessage(Printed(fields, body)) == (Join(FieldLines(fields), "\r\n"), body)
  {
    var lines := FieldLines(fields);
    var head := Join(lines, "\r\n");
    WrittenIsJoined(fields);
    assert Printed(fields, body) == head + BLANK_LINE + body;
    BlankLineIndex(lines, body);
    var raw := head + BLANK_LINE + body;
    assert raw[..|head|] == head && raw[|head| + 4..] == body;
  }

  lemma AddPrintedLine(read: seq<Field>, field: Field)
    requires IsTrimmed(field.name) && Free(field.name, {':', '\n'})
    ensures AddLine(read, LineOf(field)) == read + [Field(field.name, TrimSpace(field.value))]
  {
    var line := LineOf(field);
    assert line == field.name + ":" + (" " + field.value);
    CutAt(field.name, ':', " " + field.value);
    assert line[0] == if field.name == "" then ':' else field.name[0];
    TrimSpaceOfTrimmed(field.name);
    assert TrimLeft(" " + field.value) == TrimLeft(field.value) by {
      assert BlankAt(" " + field.value) == 1;
      assert (" " + field.value)[1..] == field.value;
    }
  }

  lemma {:induction false} AddPrintedLines(read: seq<Field>, fields: seq<Field>)
    requires Printable(fields) && PlainNames(fields)
    ensures AddLines(read, FieldLines(fields)) == read + TrimValues(fields)
    decreases fields
  {
    if fields != [] {
      var next := read + [Field(fields[0].name, TrimSpace(fields[0].value))];
      AddPrintedLine(read, fields[0]);
      assert FieldLines(fields)[1..] == FieldLines(fields[1..]);
      AddPrintedLines(next, fields[1..]);
      var first := Field(fields[0].name, TrimSpace(fields[0].value));
      assert TrimValues(fields) == [first] + TrimValues(fields[1..]);
      AppendMoves(read, first, TrimValues(fields[1..]));
    }
  }

  /** Printing and parsing returns the fields in order and the body octet for octet. */
  lemma ParseUndoesPrint(fields: seq<Field>, body: string)
    requires fields != [] && Printable(fields) && PlainNames(fields)
    ensures SplitMessage(Printed(fields, body)).1 == body
    ensures Parsed(SplitMessage(Printed(fields, body)).0) == TrimValues(fields)
  {
    var lines := FieldLines(fields);
    forall i | 0 <= i < |lines| ensures lines[i] != "" && Free(lines[i], {'\n'}) {
      assert lines[i] == LineOf(fields[i]);
      assert Free(fields[i].name, {':', '\n'}) && Free(fields[i].value, {'\n'});
    }
    SplitMessageOfPrinted(fields, body);
    CollapseJoined(lines);
    SplitOfJoin(lines, '\n', {'\n'});
    AddPrintedLines([], fields);
  }

  lemma {:induction false} ReadNamesArePlain(read: seq<Field>, lines: seq<string>)
    requires PlainNames(read)
    requires forall i | 0 <= i < |lines| :: Free(lines[i], {'\n'})
    ensures PlainNames(AddLines(read, lines))
    decreases lines
  {
    if lines != [] {
      var line := lines[0];
      assert Free(line, {'\n'});
      var cut := Cut(line, ':');
      if cut.Some? {
        TrimSpaceTrims(cut.value.0);
        assert forall c | c in cut.value.0 :: c in line;
      }
      ReadNamesArePlain(AddLine(read, line), lines[1..]);
    }
  }

  /** The exact condition on names under which printed fields are read back. */
  lemma ParseUndoesPrintIff(fields: seq<Field>, body: string)
    requires fields != [] && Printable(fields)
    ensures SplitMessage(Printed(fields, body)).1 == body
              && Parsed(SplitMessage(Printed(fields, body)).0) == TrimValues(fields)
            <==> PlainNames(fields)
  {
    if PlainNames(fields) {
      ParseUndoesPrint(fields, body);
    }
    var block := SplitMessage(Printed(fields, body)).0;
    SplitPiecesAreFree(Collapse(block, '\r', '\n'), {'\n'});
    ReadNamesArePlain([], Split(Collapse(block, '\r', '\n'), {'\n'}));
    if Parsed(block) == TrimValues(fields) {
      forall i | 0 <= i < |fields| ensures Free(fields[i].name, {':', '\n'}) {
        assert TrimValues(fields)[i].name == fields[i].name;
      }
    }
  }

  // ---------------------------------------------------------------------------
  // Composing a message
  // ---------------------------------------------------------------------------

  const SET_BY_BUILDER: set<string> := {
    "from", "to", "cc", "bcc", "subject", "date", "message-id", "reply-to",
    "mime-version", "content-type", "content-transfer-encoding"
  }

  /** Turns CR and LF into blanks, so a value stays on its line. */
  function Sanitized(value: string): string {
    TrimSpace(seq(|value|, i requires 0 <= i < |value| =>
      if value[i] == '\r' || value[i] == '\n' then ' ' else value[i]))
  }

  /** A composed message after its values were encoded; `free` is in iteration order. */
  datatype Draft = Draft(
    date: string, messageId: string, from: string, to: string,
    cc: Option<string>, bcc: Option<string>, replyTo: Option<string>, subject: string,
    free: seq<Field>, content: seq<Field>, body: string)

  function Optional(name: string, value: Option<string>): seq<Field> {
    match value
    case None => []
    case Some(v) => [Field(name, v)]
  }

  /** The free-form fields that are not reserved for the builder. */
  function Allowed(free: seq<Field>, reserved: set<string>): seq<Field> {
    if free == [] then []
    else
      var name := TrimSpace(free[0].name);
      (if name == "" || Lower(name) in reserved then []
       else [Field(name, Sanitized(free[0].value))]) + Allowed(free[1..], reserved)
  }

  function Leading(d: Draft): seq<Field> {
    [Field("Date", d.date), Field("Message-ID", d.messageId), Field("From", d.from), Field("To", d.to)]
    + Optional("Cc", d.cc) + Optional("Bcc", d.bcc) + Optional("Reply-To", d.replyTo)
    + [Field("Subject", d.subject)]
  }

  function Trailing(d: Draft): seq<Field> {
    [Field("MIME-Version", "1.0")] + d.content
  }

  function AllFields(d: Draft): seq<Field> {
    Leading(d) + Allowed(d.free, SET_BY_BUILDER) + Trailing(d)
  }

  class Buffer {
    var text: string

    constructor ()
      ensures text == ""
    {
      text := "";
    }

    method WriteHeader(name: string, value: string)
      modifies this
      ensures text == old(text) + Written([Field(name, value)])
    {
      assert Written([Field(name, value)]) == LineOf(Field(name, value)) + "\r\n" + Written([]);
      text := text + name;
      text := text + ": ";
      text := text + value;
      text := text + "\r\n";
    }

    /** Writes several fields one after the other. */
    method WriteHeaders(fields: seq<Field>)
      modifies this
      ensures text == old(text) + Written(fields)
    {
      ghost var base := text;
      for i := 0 to |fields|
        invariant text == base + Written(fields[..i])
      {
        WroteOne(base, fields[..i], fields[i]);
        WriteHeader(fields[i].name, fields[i].value);
        assert fields[..i + 1] == fields[..i] + [fields[i]];
      }
      assert fields[..|fields|] == fields;
    }

    /** The loop over the free-form fields. */
    method WriteFree(free: seq<Field>, reserved: set<string>)
      modifies this
      ensures text == old(text) + Written(Allowed(free, reserved))
    {
      ghost var base := text;
      ghost var written: seq<Field> := [];
      assert free[0..] == free;
      for i := 0 to |free|
        invariant text == base + Written(written)
        invariant written + Allowed(free[i..], reserved) == Allowed(free, reserved)
      {
        AllowedStep(free, i, reserved);
        var name := TrimSpace(free[i].name);
        if name == "" || Lower(name) in reserved {
          continue;
        }
        var value := Sanitized(free[i].value);
        WroteOne(base, written, Field(name, value));
        AppendMoves(written, Field(name, value), Allowed(free[i + 1..], reserved));
        WriteHeader(name, value);
        written := written + [Field(name, value)];
      }
      assert written + [] == written;
    }
  }

  lemma AllowedStep(free: seq<Field>, i: nat, reserved: set<string>)
    requires i < |free|
    ensures var name := TrimSpace(free[i].name);
            Allowed(free[i..], reserved)
            == if name == "" || Lower(name) in reserved then Allowed(free[i + 1..], reserved)
               else [Field(name, Sanitized(free[i].value))] + Allowed(free[i + 1..], reserved)
  {
    assert free[i..][0] == free[i] && free[i..][1..] == free[i + 1..];
    assert [] + Allowed(free[i + 1..], reserved) == Allowed(free[i + 1..], reserved);
  }

  lemma AppendMoves(a: seq<Field>, f: Field, b: seq<Field>)
    ensures a + ([f] + b) == (a + [f]) + b
  {
  }

  lemma {:induction false} WrittenAppend(a: seq<Field>, b: seq<Field>)
    ensures Written(a + b) == Written(a) + Written(b)
  {
    if a == [] {
      assert a + b == b;
    } else {
      assert (a + b)[1..] == a[1..] + b;
      calc {
        Written(a + b);
        LineOf(a[0]) + "\r\n" + Written(a[1..] + b);
        { WrittenAppend(a[1..], b); }
        LineOf(a[0]) + "\r\n" + (Written(a[1..]) + Written(b));
        Written(a) + Written(b);
      }
    }
  }

  /** The head in the order the builder writes it, then the body. */
  method Build(d: Draft) returns (text: string)
    ensures text == Printed(AllFields(d), d.body)
  {
    var head := new Buffer();
    head.WriteHeaders(Leading(d));
    head.WriteFree(d.free, SET_BY_BUILDER);
    head.WriteHeaders(Trailing(d));
    BuiltHead(Leading(d), Allowed(d.free, SET_BY_BUILDER), Trailing(d));
    return head.text + "\r\n" + d.body;
  }

  lemma WroteOne(base: string, written: seq<Field>, f: Field)
    ensures base + Written(written) + Written([f]) == base + Written(written + [f])
  {
    WrittenAppend(written, [f]);
    Assoc(base, Written(written), Written([f]));
  }

  lemma BuiltHead(a: seq<Field>, b: seq<Field>, c: seq<Field>)
    ensures "" + Written(a) + Written(b) + Written(c) == Written(a + b + c)
  {
    WrittenAppend(a, b);
    WrittenAppend(a + b, c);
  }

  predicate IsNamed(field: Field, name: string) {
    Lower(field.name) == name
  }

  lemma {:induction false} AllowedAreFree(free: seq<Field>, reserved: set<string>)
    ensures forall f | f in Allowed(free, reserved) :: Lower(f.name) !in reserved && IsTrimmed(f.name) && f.name != "" && Free(f.value, {'\r', '\n'})
  {
    if free != [] {
      AllowedAreFree(free[1..], reserved);
      TrimSpaceTrims(free[0].name);
      var v := free[0].value;
      var replaced := seq(|v|, i requires 0 <= i < |v| => if v[i] == '\r' || v[i] == '\n' then ' ' else v[i]);
      TrimSpaceTrims(replaced);
      assert Free(replaced, {'\r', '\n'});
    }
  }

  lemma {:induction false} FilterNone(fields: seq<Field>, keep: Field -> bool)
    requires forall f | f in fields :: !keep(f)
    ensures Filter(fields, keep) == []
  {
    if fields != [] {
      FilterNone(fields[1..], keep);
    }
  }

  /**
   What the parser of a composed message finds under a reserved name is what the
   builder wrote there, whatever the free-form fields are, as long as their names
   stay clear of ':' and LF.
   */
  lemma FreeFieldsCannotOverride(d: Draft, reserved: string)
    requires reserved in SET_BY_BUILDER
    requires Printable(Leading(d)) && Printable(d.content)
    requires PlainNames(d.content) && PlainNames(Allowed(d.free, SET_BY_BUILDER))
    ensures var read := Parsed(SplitMessage(Printed(AllFields(d), d.body)).0);
            Filter(read, f => IsNamed(f, reserved))
            == Filter(TrimValues(Leading(d)), f => IsNamed(f, reserved))
               + Filter(TrimValues(Trailing(d)), f => IsNamed(f, reserved))
  {
    var keep := f => IsNamed(f, reserved);
    AllowedArePrintable(d.free, SET_BY_BUILDER);
    AllFieldsPrintable(d);
    ParseUndoesPrint(AllFields(d), d.body);
    var leading, free, trailing := TrimValues(Leading(d)), TrimValues(Allowed(d.free, SET_BY_BUILDER)), TrimValues(Trailing(d));
    assert TrimValues(AllFields(d)) == leading + free + trailing by {
      TrimValuesAppend(Leading(d) + Allowed(d.free, SET_BY_BUILDER), Trailing(d));
      TrimValuesAppend(Leading(d), Allowed(d.free, SET_BY_BUILDER));
    }
    FilterAppend(leading + free, trailing, keep);
    FilterAppend(leading, free, keep);
    AllowedFilterToNothing(d.free, SET_BY_BUILDER, reserved);
    assert Filter(leading, keep) + [] == Filter(leading, keep);
  }

  lemma TrimValuesAppend(a: seq<Field>, b: seq<Field>)
    ensures TrimValues(a + b) == TrimValues(a) + TrimValues(b)
  {
  }

  lemma AllowedArePrintable(free: seq<Field>, reserved: set<string>)
    ensures Printable(Allowed(free, reserved))
  {
    AllowedAreFree(free, reserved);
    var allowed := Allowed(free, reserved);
    forall i | 0 <= i < |allowed| ensures IsTrimmed(allowed[i].name) && Free(allowed[i].value, {'\n'}) {
      assert allowed[i] in allowed;
    }
  }

  lemma AllowedFilterToNothing(free: seq<Field>, reserved: set<string>, name: string)
    requires name in reserved
    ensures Filter(TrimValues(Allowed(free, reserved)), f => IsNamed(f, name)) == []
  {
    AllowedAreFree(free, reserved);
    var allowed := Allowed(free, reserved);
    forall f | f in TrimValues(allowed) ensures !IsNamed(f, name) {
      var i :| 0 <= i < |allowed| && TrimValues(allowed)[i] == f;
      assert allowed[i] in allowed;
    }
    FilterNone(TrimValues(allowed), f => IsNamed(f, name));
  }

  lemma PlainJoins(a: seq<Field>, b: seq<Field>)
    requires PlainNames(a) && PlainNames(b)
    ensures PlainNames(a + b)
  {
  }

  lemma AddressNamesArePlain(d: Draft)
    ensures PlainNames([Field("Date", d.date), Field("Message-ID", d.messageId), Field("From", d.from), Field("To", d.to)])
  {
  }

  lemma OptionalNamesArePlain(d: Draft)
    ensures PlainNames(Optional("Cc", d.cc)) && PlainNames(Optional("Bcc", d.bcc))
    ensures PlainNames(Optional("Reply-To", d.replyTo))
  {
  }

  lemma FixedNamesArePlain(d: Draft)
    ensures PlainNames([Field("Subject", d.subject)]) && PlainNames([Field("MIME-Version", "1.0")])
    ensures Printable([Field("MIME-Version", "1.0")])
  {
  }

  lemma LeadingNamesArePlain(d: Draft)
    ensures PlainNames(Leading(d))
  {
    var first := [Field("Date", d.date), Field("Message-ID", d.messageId), Field("From", d.from), Field("To", d.to)];
    var cc, bcc, reply := Optional("Cc", d.cc), Optional("Bcc", d.bcc), Optional("Reply-To", d.replyTo);
    AddressNamesArePlain(d);
    OptionalNamesArePlain(d);
    FixedNamesArePlain(d);
    PlainJoins(first, cc);
    PlainJoins(first + cc, bcc);
    PlainJoins(first + cc + bcc, reply);
    PlainJoins(first + cc + bcc + reply, [Field("Subject", d.subject)]);
  }

  lemma AllFieldsPrintable(d: Draft)
    requires Printable(Leading(d)) && Printable(Allowed(d.free, SET_BY_BUILDER)) && Printable(d.content)
    requires PlainNames(Allowed(d.free, SET_BY_BUILDER)) && PlainNames(d.content)
    ensures Printable(AllFields(d)) && PlainNames(AllFields(d))
  {
    LeadingNamesArePlain(d);
    FixedNamesArePlain(d);
  }

  lemma ReservedHaveNoColon(name: string)
    requires |name| >= 2 && name[1] == ':'
    ensures name !in SET_BY_BUILDER
  {
  }

  /** A free-form name with a line break does get past the reserved names. */
  lemma OverrideByLineBreak(name: string, body: string)
    requires name == "X: 1\r\nSubject"
    ensures Allowed([Field(name, "2")], SET_BY_BUILDER) == [Field(name, "2")]
    ensures Printed([Field(name, "2")], body) == Printed([Field("X", "1"), Field("Subject", "2")], body)
    ensures Parsed(SplitMessage(Printed([Field(name, "2")], body)).0) == [Field("X", "1"), Field("Subject", "2")]
  {
    var two := [Field("X", "1"), Field("Subject", "2")];
    ReservedHaveNoColon(Lower(name));
    TrimSpaceOfTrimmed(name);
    TrimSpaceOfTrimmed("2");
    assert Sanitized("2") == "2";
    assert Allowed([Field(name, "2")], SET_BY_BUILDER) == [Field(name, "2")] + Allowed([], SET_BY_BUILDER);
    SameText(name);
    TwoArePlain(two);
    ParseUndoesPrint(two, body);
  }

  lemma TwoArePlain(two: seq<Field>)
    requires two == [Field("X", "1"), Field("Subject", "2")]
    ensures Printable(two) && PlainNames(two) && TrimValues(two) == two
  {
    TrimSpaceOfTrimmed("1");
    TrimSpaceOfTrimmed("2");
  }

  lemma SameText(name: string)
    requires name == "X: 1\r\nSubject"
    ensures Written([Field(name, "2")]) == Written([Field("X", "1"), Field("Subject", "2")])
  {
    var f, g, h := Field(name, "2"), Field("X", "1"), Field("Subject", "2");
    assert [g, h][1..] == [h] && [h][1..] == [] && [f][1..] == [];
    assert Written([h]) == LineOf(h) + "\r\n" + "";
    assert Written([g, h]) == LineOf(g) + "\r\n" + Written([h]);
    assert Written([f]) == LineOf(f) + "\r\n" + "";
    assert LineOf(f) == LineOf(g) + "\r\n" + LineOf(h);
  }

  // ---------------------------------------------------------------------------
  // Folded values and bare line feeds
  // ---------------------------------------------------------------------------

  /** The further lines of a folded value, each with a blank or a tab before it. */
  function Folded(parts: seq<string>, tab: bool): (r: seq<string>)
    ensures |r| == |parts| && forall i | 0 <= i < |r| :: r[i] == (if tab then "\t" else " ") + parts[i]
  {
    seq(|parts|, i requires 0 <= i < |parts| => (if tab then "\t" else " ") + parts[i])
  }

  lemma FoldedLine(read: seq<Field>, last: Field, part: string, tab: bool)
    requires IsTrimmed(part)
    ensures AddLine(read + [last], (if tab then "\t" else " ") + part) == read + [last.(value := last.value + " " + part)]
  {
    var line := (if tab then "\t" else " ") + part;
    assert line[1..] == part && BlankAt(line) == 1;
    TrimSpaceOfTrimmed(part);
    assert (read + [last])[|read| := last.(value := last.value + " " + part)] == read + [last.(value := last.value + " " + part)];
  }

  /** A folded value is read as its lines with single blanks between them. */
  lemma {:induction false} FoldedIsRead(read: seq<Field>, name: string, first: string, parts: seq<string>, tab: bool)
    requires forall i | 0 <= i < |parts| :: IsTrimmed(parts[i])
    ensures AddLines(read + [Field(name, first)], Folded(parts, tab)) == read + [Field(name, Join([first] + parts, " "))]
    decreases parts
  {
    if parts == [] {
      assert [first] + parts == [first];
    } else {
      var next := first + " " + parts[0];
      FoldedLine(read, Field(name, first), parts[0], tab);
      assert Folded(parts, tab)[1..] == Folded(parts[1..], tab);
      FoldedIsRead(read, name, next, parts[1..], tab);
      JoinFirstTwo(first, parts);
    }
  }

  lemma Glued(a: string, b: string, c: string)
    ensures a + " " + (b + " " + c) == a + " " + b + " " + c
  {
  }

  lemma JoinFirstTwo(first: string, parts: seq<string>)
    requires parts != []
    ensures Join([first] + parts, " ") == Join([first + " " + parts[0]] + parts[1..], " ")
  {
    var head, tail := parts[0], parts[1..];
    assert parts == [head] + tail;
    JoinCons(first, parts, " ");
    JoinCons(head, tail, " ");
    JoinCons(first + " " + head, tail, " ");
    if tail != [] {
      Glued(first, head, Join(tail, " "));
    }
  }

  /** Without a CRLF blank line anywhere, the first one of bare line feeds ends the head. */
  lemma SplitAtBareBlankLine(head: string, body: string)
    requires IndexOf(head + "\n\n" + body, BLANK_LINE) == |head + "\n\n" + body|
    requires IndexOf(head + "\n\n" + body, "\n\n") == |head|
    ensures SplitMessage(head + "\n\n" + body) == (head, body)
  {
    var raw := head + "\n\n" + body;
    assert raw[..|head|] == head && raw[|head| + 2..] == body;
  }

  /** Without any blank line everything is head. */
  lemma NothingToSplit(raw: string)
    requires IndexOf(raw, BLANK_LINE) == |raw| && IndexOf(raw, "\n\n") == |raw|
    ensures SplitMessage(raw) == (raw, "")
  {
  }
}
