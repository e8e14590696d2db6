/**
 The rule that the structured header fields of a composed message cannot be overridden
 through its free-form fields: exactly which free-form names keep it.
 */
module Overrides {
  import opened Bytes
  import opened Sequences
  import opened Text
  import opened Headers

  // ---------------------------------------------------------------------------
  // The rule
  // ---------------------------------------------------------------------------

  /** What the parser finds in the composed message. */
  function ReadBack(d: Draft): seq<Field> {
    Parsed(SplitMessage(Printed(AllFields(d), d.body)).0)
  }

  function Under(fields: seq<Field>, reserved: string): seq<Field> {
    Filter(fields, f => IsNamed(f, reserved))
  }

  /** Under every reserved name the parser finds what the builder wrote, and nothing else. */
  ghost predicate Respected(d: Draft) {
    forall r | r in SET_BY_BUILDER ::
      Under(ReadBack(d), r) == Under(TrimValues(Leading(d)), r) + Under(TrimValues(Trailing(d)), r)
  }

  lemma UnderAppend(a: seq<Field>, b: seq<Field>, r: string)
    ensures Under(a + b, r) == Under(a, r) + Under(b, r)
  {
    FilterAppend(a, b, f => IsNamed(f, r));
  }

  // ---------------------------------------------------------------------------
  // Reading behind the leading fields
  // ---------------------------------------------------------------------------

  /** What lines add behind fields that are there: texts unfolded into the last of them, and fields. */
  datatype Added = Added(unfolded: seq<string>, own: seq<Field>)

  predicate Continues(line: string) {
    line != "" && (line[0] == ' ' || line[0] == '\t')
  }

  function AddTo(a: Added, line: string): Added {
    if Continues(line) && a.own == [] then a.(unfolded := a.unfolded + [TrimSpace(line)])
    else a.(own := AddLine(a.own, line))
  }

  function AddAll(a: Added, lines: seq<string>): Added
    decreases lines
  {
    if lines == [] then a else AddAll(AddTo(a, lines[0]), lines[1..])
  }

  function Extended(value: string, texts: seq<string>): string {
    if texts == [] then value else Extended(value, texts[..|texts| - 1]) + " " + texts[|texts| - 1]
  }

  /** The fields with texts unfolded into the last one. */
  function WithUnfolded(base: seq<Field>, texts: seq<string>): (r: seq<Field>)
    requires base != []
    ensures |r| == |base|
  {
    base[..|base| - 1] + [base[|base| - 1].(value := Extended(base[|base| - 1].value, texts))]
  }

  lemma AddToBehind(base: seq<Field>, a: Added, line: string)
    requires base != []
    ensures AddLine(WithUnfolded(base, a.unfolded) + a.own, line)
            == WithUnfolded(base, AddTo(a, line).unfolded) + AddTo(a, line).own
  {
    var front := WithUnfolded(base, a.unfolded);
    var all := front + a.own;
    if Continues(line) {
      var last := all[|all| - 1];
      var new_ := last.(value := last.value + " " + TrimSpace(line));
      if a.own == [] {
        assert all == front;
        assert (a.unfolded + [TrimSpace(line)])[..|a.unfolded|] == a.unfolded;
        assert front[|all| - 1 := new_] == WithUnfolded(base, a.unfolded + [TrimSpace(line)]);
      } else {
        assert all[|all| - 1 := new_] == front + a.own[|a.own| - 1 := new_];
      }
    } else if line != "" && Cut(line, ':').Some? {
      var f := Field(TrimSpace(Cut(line, ':').value.0), TrimSpace(Cut(line, ':').value.1));
      Assoc(front, a.own, [f]);
    }
  }

  lemma {:induction false} AddAllBehind(base: seq<Field>, a: Added, lines: seq<string>)
    requires base != []
    ensures AddLines(WithUnfolded(base, a.unfolded) + a.own, lines)
            == WithUnfolded(base, AddAll(a, lines).unfolded) + AddAll(a, lines).own
    decreases lines
  {
    if lines != [] {
      AddToBehind(base, a, lines[0]);
      AddAllBehind(base, AddTo(a, lines[0]), lines[1..]);
    }
  }

  lemma {:induction false} AddAllAppend(a: Added, x: seq<string>, y: seq<string>)
    ensures AddAll(a, x + y) == AddAll(AddAll(a, x), y)
    decreases x
  {
    if x == [] {
      assert x + y == y;
    } else {
      assert (x + y)[1..] == x[1..] + y;
      AddAllAppend(AddTo(a, x[0]), x[1..], y);
    }
  }

  lemma {:induction false} AddLinesAppend(fields: seq<Field>, x: seq<string>, y: seq<string>)
    ensures AddLines(fields, x + y) == AddLines(AddLines(fields, x), y)
    decreases x
  {
    if x == [] {
      assert x + y == y;
    } else {
      assert (x + y)[1..] == x[1..] + y;
      AddLinesAppend(AddLine(fields, x[0]), x[1..], y);
    }
  }

  // ---------------------------------------------------------------------------
  // Lines of the printed text
  // ---------------------------------------------------------------------------

  function LinesIn(block: string): seq<string> {
    Split(Collapse(block, '\r', '\n'), {'\n'})
  }

  lemma {:induction false} CollapseBreak(a: string, b: string)
    ensures Collapse(a + "\r\n" + b, '\r', '\n') == Collapse(a, '\r', '\n') + "\n" + Collapse(b, '\r', '\n')
    decreases |a|
  {
    var s := a + "\r\n" + b;
    if a == "" {
      assert s[2..] == b;
    } else if |a| >= 2 && a[0] == '\r' && a[1] == '\n' {
      assert s[2..] == a[2..] + "\r\n" + b;
      CollapseBreak(a[2..], b);
    } else {
      assert s[1..] == a[1..] + "\r\n" + b;
      assert |a| == 1 ==> s[1] == '\r';
      CollapseBreak(a[1..], b);
    }
  }

  lemma LinesBreak(a: string, b: string)
    ensures LinesIn(a + "\r\n" + b) == LinesIn(a) + LinesIn(b)
  {
    CollapseBreak(a, b);
    SplitBreak(Collapse(a, '\r', '\n'), '\n', Collapse(b, '\r', '\n'), {'\n'});
  }

  lemma OneLine(line: string)
    requires Free(line, {'\n'})
    ensures LinesIn(line) == [line]
  {
    CollapseOneLine(line);
    SplitWhole(line, {'\n'});
  }

  // ---------------------------------------------------------------------------
  // Where the head ends
  // ---------------------------------------------------------------------------

  function HeadOf(text: string): string {
    SplitMessage(text).0
  }

  /** A blank line comes, but not at once. */
  ghost predicate EndsLater(text: string) {
    !("\r\n" <= text) && IndexOf(text, BLANK_LINE) < |text|
  }

  /** There is no blank line inside. */
  ghost predicate NoBlankLine(chunk: string) {
    forall j | 0 <= j < |chunk| :: !(BLANK_LINE <= chunk[j..])
  }

  /** Text that is followed by a line break of its own. */
  ghost predicate Closed(chunk: string) {
    chunk != "" && chunk[|chunk| - 1] != '\r' && chunk[|chunk| - 1] != '\n' && !("\r\n" <= chunk)
  }

  lemma FirstBlankLine(text: string, i: nat)
    requires i < |text| && BLANK_LINE <= text[i..]
    requires forall j | 0 <= j < i :: !(BLANK_LINE <= text[j..])
    ensures IndexOf(text, BLANK_LINE) == i
  {
  }

  /** The first blank line behind a chunk without one is the first one of what follows. */
  lemma HeadGrows(chunk: string, text: string)
    requires EndsLater(text)
    requires forall j | 0 <= j < |chunk| + 2 :: !(BLANK_LINE <= (chunk + "\r\n" + text)[j..])
    ensures HeadOf(chunk + "\r\n" + text) == chunk + "\r\n" + HeadOf(text)
    ensures IndexOf(chunk + "\r\n" + text, BLANK_LINE) < |chunk + "\r\n" + text|
  {
    var s, i, n := chunk + "\r\n" + text, IndexOf(text, BLANK_LINE), |chunk| + 2;
    assert s[n + i..] == text[i..];
    forall j | 0 <= j < n + i ensures !(BLANK_LINE <= s[j..]) {
      if j >= n {
        assert s[j..] == text[j - n..];
      }
    }
    FirstBlankLine(s, n + i);
    assert s[..n + i] == chunk + "\r\n" + text[..i];
  }

  lemma HeadBehindLine(line: string, text: string)
    requires Free(line, {'\n'}) && EndsLater(text)
    ensures HeadOf(line + "\r\n" + text) == line + "\r\n" + HeadOf(text)
    ensures IndexOf(line + "\r\n" + text, BLANK_LINE) < |line + "\r\n" + text|
  {
    forall j | 0 <= j < |line| + 2 ensures !(BLANK_LINE <= (line + "\r\n" + text)[j..]) {
      BlankLineLater(line, text, j);
    }
    HeadGrows(line, text);
  }

  lemma NotAcrossTheEnd(chunk: string, text: string, j: nat)
    requires Closed(chunk) && NoBlankLine(chunk) && !("\r\n" <= text) && j < |chunk| + 2
    ensures !(BLANK_LINE <= (chunk + "\r\n" + text)[j..])
  {
    var s := chunk + "\r\n" + text;
    StartsBlankIff(s, j);
    StartsBreakIff(text);
    assert forall k | 0 <= k < |chunk| :: s[k] == chunk[k];
    assert s[|chunk|] == '\r' && s[|chunk| + 1] == '\n';
    assert forall k | 0 <= k < |text| :: s[|chunk| + 2 + k] == text[k];
    if j < |chunk| {
      StartsBlankIff(chunk, j);
    }
  }

  lemma HeadBehindChunk(chunk: string, text: string)
    requires Closed(chunk) && NoBlankLine(chunk) && EndsLater(text)
    ensures HeadOf(chunk + "\r\n" + text) == chunk + "\r\n" + HeadOf(text)
    ensures IndexOf(chunk + "\r\n" + text, BLANK_LINE) < |chunk + "\r\n" + text|
  {
    forall j | 0 <= j < |chunk| + 2 ensures !(BLANK_LINE <= (chunk + "\r\n" + text)[j..]) {
      NotAcrossTheEnd(chunk, text, j);
    }
    HeadGrows(chunk, text);
  }

  /** A printed field with a one-line value: its text starts and ends on its own lines. */
  ghost predicate Printing(f: Field) {
    IsTrimmed(f.name) && Free(f.value, {'\r', '\n'})
  }

  lemma ChunkIsClosed(f: Field)
    requires Printing(f)
    ensures Closed(LineOf(f))
  {
    var c := LineOf(f);
    assert c[|f.name|] == ':' && c[|f.name| + 1] == ' ';
    assert f.name != "" ==> c[0] == f.name[0];
    assert f.value != "" ==> c[|c| - 1] == f.value[|f.value| - 1] && f.value[|f.value| - 1] in f.value;
    StartsBreakIff(c);
  }

  /** A blank line in the text of a field is one in its name. */
  lemma BlankLineIsInName(f: Field)
    requires Printing(f)
    ensures NoBlankLine(LineOf(f)) <==> NoBlankLine(f.name)
  {
    var c, n := LineOf(f), f.name;
    assert forall k | 0 <= k < |n| :: c[k] == n[k];
    assert c[|n|] == ':' && c[|n| + 1] == ' ';
    forall k | |n| + 2 <= k < |c| ensures c[k] != '\n' && c[k] != '\r' {
      assert c[k] == f.value[k - |n| - 2];
      assert f.value[k - |n| - 2] in f.value;
    }
    forall j | 0 <= j < |c| ensures BLANK_LINE <= c[j..] <==> j < |n| && BLANK_LINE <= n[j..] {
      StartsBlankIff(c, j);
      if j < |n| {
        StartsBlankIff(n, j);
      }
    }
  }

  // ---------------------------------------------------------------------------
  // The parsed head
  // ---------------------------------------------------------------------------

  /** What is printed behind the leading fields. */
  function Behind(d: Draft): string {
    Written(Allowed(d.free, SET_BY_BUILDER)) + Printed(Trailing(d), d.body)
  }

  /** What the lines of the head behind the leading fields come to. */
  function AddedBehind(d: Draft): Added {
    AddAll(Added([], []), LinesIn(HeadOf(Behind(d))))
  }

  lemma StartsOnItsLine(f: Field, text: string)
    requires IsTrimmed(f.name)
    ensures !("\r\n" <= LineOf(f) + "\r\n" + text)
  {
    var s := LineOf(f) + "\r\n" + text;
    StartsBreakIff(s);
    assert s[0] == if f.name == "" then ':' else f.name[0];
  }

  lemma WrittenCons(fields: seq<Field>, text: string)
    requires fields != []
    ensures Written(fields) + text == LineOf(fields[0]) + "\r\n" + (Written(fields[1..]) + text)
  {
  }

  lemma LineRead(f: Field, rest: string)
    requires IsTrimmed(f.name) && Free(LineOf(f), {'\n'}) && EndsLater(rest)
    ensures LinesIn(HeadOf(LineOf(f) + "\r\n" + rest)) == [LineOf(f)] + LinesIn(HeadOf(rest))
    ensures EndsLater(LineOf(f) + "\r\n" + rest)
  {
    HeadBehindLine(LineOf(f), rest);
    StartsOnItsLine(f, rest);
    LinesBreak(LineOf(f), HeadOf(rest));
    OneLine(LineOf(f));
  }

  lemma PrintedCons(fields: seq<Field>)
    requires fields != [] && Printable(fields) && PlainNames(fields)
    ensures IsTrimmed(fields[0].name) && Free(fields[0].name, {':', '\n'}) && Free(LineOf(fields[0]), {'\n'})
    ensures Printable(fields[1..]) && PlainNames(fields[1..])
    ensures FieldLines(fields) == [LineOf(fields[0])] + FieldLines(fields[1..])
  {
    assert Free(fields[0].name, {':', '\n'}) && Free(fields[0].value, {'\n'});
  }

  /** The leading fields are read back as they are, and what follows is read behind them. */
  lemma {:induction false} LeadingRead(fields: seq<Field>, text: string)
    requires Printable(fields) && PlainNames(fields) && EndsLater(text)
    ensures LinesIn(HeadOf(Written(fields) + text)) == FieldLines(fields) + LinesIn(HeadOf(text))
    ensures EndsLater(Written(fields) + text)
  {
    if fields == [] {
      assert Written(fields) + text == text;
    } else {
      PrintedCons(fields);
      LeadingRead(fields[1..], text);
      WrittenCons(fields, text);
      LineRead(fields[0], Written(fields[1..]) + text);
      Assoc([LineOf(fields[0])], FieldLines(fields[1..]), LinesIn(HeadOf(text)));
    }
  }

  lemma {:induction false} WrittenOrNot(fields: seq<Field>, text: string)
    requires (forall f | f in fields :: IsTrimmed(f.name)) && !("\r\n" <= text)
    ensures !("\r\n" <= Written(fields) + text)
  {
    if fields == [] {
      assert Written(fields) + text == text;
    } else {
      assert Written(fields) + text == LineOf(fields[0]) + "\r\n" + (Written(fields[1..]) + text);
      StartsOnItsLine(fields[0], Written(fields[1..]) + text);
    }
  }

  /** Behind the last field there is a blank line. */
  lemma BlankLineComes(before: string, fields: seq<Field>, body: string)
    requires fields != []
    ensures var s := before + (Written(fields) + "\r\n" + body);
            IndexOf(s, BLANK_LINE) < |s|
  {
    WrittenIsJoined(fields);
    var head := Join(FieldLines(fields), "\r\n");
    var s := before + (Written(fields) + "\r\n" + body);
    assert s == (before + head) + BLANK_LINE + body;
    assert BLANK_LINE <= s[|before + head|..];
  }

  lemma TrailingEndsLater(d: Draft)
    ensures EndsLater(Printed(Trailing(d), d.body))
  {
    var text := Printed(Trailing(d), d.body);
    assert Written(Trailing(d)) == LineOf(Field("MIME-Version", "1.0")) + "\r\n" + Written(d.content) by {
      assert Trailing(d)[1..] == d.content;
    }
    assert text[0] == 'M';
    StartsBreakIff(text);
    BlankLineComes("", Trailing(d), d.body);
    assert "" + text == text;
  }

  lemma BehindEndsLater(d: Draft)
    ensures EndsLater(Behind(d))
  {
    var allowed := Allowed(d.free, SET_BY_BUILDER);
    AllowedAreFree(d.free, SET_BY_BUILDER);
    TrailingEndsLater(d);
    WrittenOrNot(allowed, Printed(Trailing(d), d.body));
    BlankLineComes(Written(allowed), Trailing(d), d.body);
  }

  lemma PrintedBehind(d: Draft)
    ensures Printed(AllFields(d), d.body) == Written(Leading(d)) + Behind(d)
  {
    var l, a, t := Leading(d), Allowed(d.free, SET_BY_BUILDER), Trailing(d);
    WrittenAppend(l + a, t);
    WrittenAppend(l, a);
    assert Written(l) + Written(a) + Written(t) + "\r\n" + d.body
        == Written(l) + (Written(a) + (Written(t) + "\r\n" + d.body));
  }

  lemma NothingUnfolded(base: seq<Field>)
    requires base != []
    ensures WithUnfolded(base, []) + [] == base
  {
    assert base[..|base| - 1] + [base[|base| - 1]] == base;
  }

  /** The parsed head: the leading fields, the last of them perhaps unfolded into, and the rest. */
  lemma ReadBackIs(d: Draft)
    requires Printable(Leading(d))
    ensures ReadBack(d) == WithUnfolded(TrimValues(Leading(d)), AddedBehind(d).unfolded) + AddedBehind(d).own
  {
    LeadingNamesArePlain(d);
    BehindEndsLater(d);
    PrintedBehind(d);
    LeadingRead(Leading(d), Behind(d));
    ReadBehindLeading(Leading(d), LinesIn(HeadOf(Behind(d))));
  }

  lemma ReadBehindLeading(leading: seq<Field>, lines: seq<string>)
    requires leading != [] && Printable(leading) && PlainNames(leading)
    ensures var a := AddAll(Added([], []), lines);
            AddLines([], FieldLines(leading) + lines) == WithUnfolded(TrimValues(leading), a.unfolded) + a.own
  {
    AddLinesAppend([], FieldLines(leading), lines);
    PrintedAreRead(leading);
    AddAllFromNothing(TrimValues(leading), lines);
  }

  lemma PrintedAreRead(fields: seq<Field>)
    requires Printable(fields) && PlainNames(fields)
    ensures AddLines([], FieldLines(fields)) == TrimValues(fields)
  {
    AddPrintedLines([], fields);
  }

  lemma AddAllFromNothing(base: seq<Field>, lines: seq<string>)
    requires base != []
    ensures var a := AddAll(Added([], []), lines);
            AddLines(base, lines) == WithUnfolded(base, a.unfolded) + a.own
  {
    NothingUnfolded(base);
    AddAllBehind(base, Added([], []), lines);
  }

  // ---------------------------------------------------------------------------
  // The rule, exactly
  // ---------------------------------------------------------------------------

  lemma {:induction false} ExtendedGrows(value: string, texts: seq<string>)
    ensures |Extended(value, texts)| >= |value| + |texts|
  {
    if texts != [] {
      ExtendedGrows(value, texts[..|texts| - 1]);
    }
  }

  lemma OneUnder(f: Field, r: string)
    ensures Under([f], r) == if IsNamed(f, r) then [f] else []
  {
    var keep := (g: Field) => IsNamed(g, r);
    assert [f][1..] == [] && Filter<Field>([], keep) == [];
    assert Filter([f], keep) == (if keep(f) then [f] else []) + Filter([f][1..], keep);
  }

  lemma SubjectIsLast(d: Draft)
    ensures TrimValues(Leading(d))[|Leading(d)| - 1] == Field("Subject", TrimSpace(d.subject))
    ensures IsNamed(TrimValues(Leading(d))[|Leading(d)| - 1], "subject")
  {
    assert Leading(d)[|Leading(d)| - 1] == Field("Subject", d.subject);
    assert Lower("Subject") == "subject";
  }

  /** Unfolding keeps the number of fields under each name, and shows in the last one. */
  lemma UnfoldingShows(base: seq<Field>, texts: seq<string>, r: string)
    requires base != []
    ensures |Under(WithUnfolded(base, texts), r)| == |Under(base, r)|
    ensures IsNamed(base[|base| - 1], r) && Under(WithUnfolded(base, texts), r) == Under(base, r) ==> texts == []
  {
    var front, last := base[..|base| - 1], base[|base| - 1];
    var grown := last.(value := Extended(last.value, texts));
    assert base == front + [last] && WithUnfolded(base, texts) == front + [grown];
    UnderAppend(front, [last], r);
    UnderAppend(front, [grown], r);
    OneUnder(last, r);
    OneUnder(grown, r);
    ExtendedGrows(last.value, texts);
    if IsNamed(last, r) {
      var x := Under(front, r);
      assert (x + [last])[|x|] == last && (x + [grown])[|x|] == grown;
    }
  }

  lemma EqualParts<T>(a: seq<T>, b: seq<T>, x: seq<T>, y: seq<T>)
    requires |a| == |b|
    ensures a + x == b + y <==> a == b && x == y
  {
    if a + x == b + y {
      assert (a + x)[..|a|] == a && (b + y)[..|b|] == b;
      assert (a + x)[|a|..] == x && (b + y)[|b|..] == y;
    }
  }

  /** Nothing is unfolded into the Subject, and the reserved fields behind it are the builder's. */
  ghost predicate KeptBehind(d: Draft) {
    && AddedBehind(d).unfolded == []
    && forall r | r in SET_BY_BUILDER :: Under(AddedBehind(d).own, r) == Under(TrimValues(Trailing(d)), r)
  }

  lemma UnderReadBack(d: Draft, r: string)
    requires Printable(Leading(d))
    ensures var base, a := TrimValues(Leading(d)), AddedBehind(d);
            Under(ReadBack(d), r) == Under(base, r) + Under(TrimValues(Trailing(d)), r)
            <==> Under(WithUnfolded(base, a.unfolded), r) == Under(base, r)
                 && Under(a.own, r) == Under(TrimValues(Trailing(d)), r)
  {
    var base, a := TrimValues(Leading(d)), AddedBehind(d);
    ReadBackIs(d);
    UnderAppend(WithUnfolded(base, a.unfolded), a.own, r);
    UnfoldingShows(base, a.unfolded, r);
    EqualParts(Under(WithUnfolded(base, a.unfolded), r), Under(base, r), Under(a.own, r), Under(TrimValues(Trailing(d)), r));
  }

  /** For any free-form names at all: the rule holds exactly when what is read behind the Subject keeps it. */
  lemma RespectedIff(d: Draft)
    requires Printable(Leading(d))
    ensures Respected(d) <==> KeptBehind(d)
  {
    var base, a := TrimValues(Leading(d)), AddedBehind(d);
    forall r | r in SET_BY_BUILDER
      ensures Under(ReadBack(d), r) == Under(base, r) + Under(TrimValues(Trailing(d)), r)
              <==> Under(WithUnfolded(base, a.unfolded), r) == Under(base, r)
                   && Under(a.own, r) == Under(TrimValues(Trailing(d)), r)
    {
      UnderReadBack(d, r);
    }
    SubjectIsLast(d);
    UnfoldingShows(base, a.unfolded, "subject");
    NothingUnfolded(base);
    assert a.unfolded == [] ==> WithUnfolded(base, a.unfolded) == base;
  }

  // ---------------------------------------------------------------------------
  // The rule, in terms of the free-form names
  // ---------------------------------------------------------------------------

  /** Lines that start no reserved field, and continue none that was there before them. */
  predicate Harmless(some: bool, lines: seq<string>)
    decreases lines
  {
    if lines == [] then true
    else if Continues(lines[0]) then some && Harmless(some, lines[1..])
    else
      match Cut(lines[0], ':')
      case None => Harmless(some, lines[1..])
      case Some(parts) => Lower(TrimSpace(parts.0)) !in SET_BY_BUILDER && Harmless(true, lines[1..])
  }

  ghost predicate Clean(a: Added) {
    a.unfolded == [] && forall i | 0 <= i < |a.own| :: Lower(a.own[i].name) !in SET_BY_BUILDER
  }

  lemma CleanStep(a: Added, line: string)
    ensures Continues(line) ==>
              (Clean(AddTo(a, line)) <==> Clean(a) && a.own != [])
              && (a.own != [] ==> AddTo(a, line).own != [])
    ensures !Continues(line) && Cut(line, ':').None? ==> AddTo(a, line) == a
    ensures !Continues(line) && Cut(line, ':').Some? ==>
              (Clean(AddTo(a, line)) <==> Clean(a) && Lower(TrimSpace(Cut(line, ':').value.0)) !in SET_BY_BUILDER)
              && AddTo(a, line).own != []
  {
    var b := AddTo(a, line);
    if Continues(line) {
      assert a.own == [] ==> b.unfolded != [];
      assert a.own != [] ==> |b.own| == |a.own| && forall i | 0 <= i < |a.own| :: b.own[i].name == a.own[i].name;
    } else if line != "" && Cut(line, ':').Some? {
      assert b.own[|a.own|].name == TrimSpace(Cut(line, ':').value.0);
      assert forall i | 0 <= i < |a.own| :: b.own[i] == a.own[i];
    }
  }

  lemma {:induction false} HarmlessIff(a: Added, lines: seq<string>)
    ensures Clean(AddAll(a, lines)) <==> Clean(a) && Harmless(a.own != [], lines)
    decreases lines
  {
    if lines != [] {
      CleanStep(a, lines[0]);
      HarmlessIff(AddTo(a, lines[0]), lines[1..]);
    }
  }

  /** The lines that the fields print. */
  function LinesOf(fields: seq<Field>): seq<string> {
    if fields == [] then [] else LinesIn(LineOf(fields[0])) + LinesOf(fields[1..])
  }

  lemma ChunkRead(f: Field, rest: string)
    requires EndsLater(rest) && Printing(f) && NoBlankLine(f.name)
    ensures LinesIn(HeadOf(LineOf(f) + "\r\n" + rest)) == LinesIn(LineOf(f)) + LinesIn(HeadOf(rest))
    ensures EndsLater(LineOf(f) + "\r\n" + rest)
  {
    ChunkIsClosed(f);
    BlankLineIsInName(f);
    HeadBehindChunk(LineOf(f), rest);
    StartsOnItsLine(f, rest);
    LinesBreak(LineOf(f), HeadOf(rest));
  }

  ghost predicate AllPrinting(fields: seq<Field>) {
    forall i | 0 <= i < |fields| :: Printing(fields[i]) && NoBlankLine(fields[i].name)
  }

  lemma PrintingCons(fields: seq<Field>)
    requires fields != [] && AllPrinting(fields)
    ensures Printing(fields[0]) && NoBlankLine(fields[0].name) && AllPrinting(fields[1..])
  {
  }

  lemma {:induction false} ChunksRead(fields: seq<Field>, text: string)
    requires EndsLater(text) && AllPrinting(fields)
    ensures LinesIn(HeadOf(Written(fields) + text)) == LinesOf(fields) + LinesIn(HeadOf(text))
    ensures EndsLater(Written(fields) + text)
  {
    if fields == [] {
      assert Written(fields) + text == text;
    } else {
      PrintingCons(fields);
      ChunksRead(fields[1..], text);
      WrittenCons(fields, text);
      ChunkRead(fields[0], Written(fields[1..]) + text);
      Assoc(LinesIn(LineOf(fields[0])), LinesOf(fields[1..]), LinesIn(HeadOf(text)));
    }
  }

  lemma LastFieldsRead(fields: seq<Field>, body: string)
    requires fields != [] && Printable(fields) && PlainNames(fields)
    ensures LinesIn(HeadOf(Printed(fields, body))) == FieldLines(fields)
  {
    var lines := FieldLines(fields);
    forall i | 0 <= i < |lines| ensures lines[i] != "" && Free(lines[i], {'\n'}) {
      assert lines[i] == LineOf(fields[i]);
      assert Free(fields[i].name, {':', '\n'}) && Free(fields[i].value, {'\n'});
    }
    SplitMessageOfPrinted(fields, body);
    CollapseJoined(lines);
    SplitOfJoin(lines, '\n', {'\n'});
  }

  lemma AddOnePrinted(a: Added, f: Field)
    requires IsTrimmed(f.name) && Free(f.name, {':', '\n'})
    ensures AddTo(a, LineOf(f)) == a.(own := a.own + [Field(f.name, TrimSpace(f.value))])
  {
    AddPrintedLine(a.own, f);
    assert LineOf(f)[0] == if f.name == "" then ':' else f.name[0];
  }

  lemma AddAllCons(a: Added, line: string, rest: seq<string>)
    ensures AddAll(a, [line] + rest) == AddAll(AddTo(a, line), rest)
  {
    assert ([line] + rest)[0] == line && ([line] + rest)[1..] == rest;
  }

  lemma TrimValuesCons(fields: seq<Field>)
    requires fields != []
    ensures TrimValues(fields) == [Field(fields[0].name, TrimSpace(fields[0].value))] + TrimValues(fields[1..])
  {
  }

  lemma {:induction false} AddAllPrinted(a: Added, fields: seq<Field>)
    requires Printable(fields) && PlainNames(fields)
    ensures AddAll(a, FieldLines(fields)) == Added(a.unfolded, a.own + TrimValues(fields))
    decreases fields
  {
    if fields == [] {
      assert a.own + [] == a.own;
    } else {
      var first := Field(fields[0].name, TrimSpace(fields[0].value));
      PrintedCons(fields);
      AddAllCons(a, LineOf(fields[0]), FieldLines(fields[1..]));
      AddOnePrinted(a, fields[0]);
      AddAllPrinted(a.(own := a.own + [first]), fields[1..]);
      TrimValuesCons(fields);
      AppendMoves(a.own, first, TrimValues(fields[1..]));
    }
  }

  /** What a composer knows of the fields it generates itself. */
  ghost predicate Generated(d: Draft) {
    Printable(Leading(d)) && Printable(d.content) && PlainNames(d.content)
  }

  lemma TrailingIsPlain(d: Draft)
    requires Generated(d)
    ensures Printable(Trailing(d)) && PlainNames(Trailing(d))
  {
    FixedNamesArePlain(d);
    PlainJoins([Field("MIME-Version", "1.0")], d.content);
  }

  /** The lines of the free-form fields come first, then the fields behind them. */
  lemma BehindIs(d: Draft)
    requires Generated(d)
    requires forall f | f in Allowed(d.free, SET_BY_BUILDER) :: NoBlankLine(f.name)
    ensures var a := AddAll(Added([], []), LinesOf(Allowed(d.free, SET_BY_BUILDER)));
            AddedBehind(d) == Added(a.unfolded, a.own + TrimValues(Trailing(d)))
  {
    var allowed, text := Allowed(d.free, SET_BY_BUILDER), Printed(Trailing(d), d.body);
    AllowedAreFree(d.free, SET_BY_BUILDER);
    TrailingIsPlain(d);
    TrailingEndsLater(d);
    ChunksRead(allowed, text);
    LastFieldsRead(Trailing(d), d.body);
    AddAllAppend(Added([], []), LinesOf(allowed), FieldLines(Trailing(d)));
    AddAllPrinted(AddAll(Added([], []), LinesOf(allowed)), Trailing(d));
  }

  lemma {:induction false} NoneUnder(own: seq<Field>)
    ensures (forall r | r in SET_BY_BUILDER :: Under(own, r) == [])
            <==> (forall i | 0 <= i < |own| :: Lower(own[i].name) !in SET_BY_BUILDER)
  {
    forall r | r in SET_BY_BUILDER
      ensures Under(own, r) == [] <==> (forall i | 0 <= i < |own| :: Lower(own[i].name) != r)
    {
      var keep := f => IsNamed(f, r);
      FilterMembers(own, keep);
      if Under(own, r) == [] {
        forall i | 0 <= i < |own| ensures Lower(own[i].name) != r {
          assert own[i] in own && own[i] !in Filter(own, keep);
        }
      } else {
        assert Under(own, r)[0] in Filter(own, keep);
      }
    }
  }

  lemma KeptIffClean(d: Draft, a: Added)
    requires AddedBehind(d) == Added(a.unfolded, a.own + TrimValues(Trailing(d)))
    ensures KeptBehind(d) <==> Clean(a)
  {
    var trailing := TrimValues(Trailing(d));
    forall r | r in SET_BY_BUILDER
      ensures Under(a.own + trailing, r) == Under(trailing, r) <==> Under(a.own, r) == []
    {
      UnderAppend(a.own, trailing, r);
      assert [] + Under(trailing, r) == Under(trailing, r);
      assert |Under(a.own, r) + Under(trailing, r)| == |Under(a.own, r)| + |Under(trailing, r)|;
    }
    NoneUnder(a.own);
  }

  /** The exact condition on free-form names without a blank line, in terms of the lines they print. */
  lemma RespectedIffHarmless(d: Draft)
    requires Generated(d)
    requires forall f | f in Allowed(d.free, SET_BY_BUILDER) :: NoBlankLine(f.name)
    ensures Respected(d) <==> Harmless(false, LinesOf(Allowed(d.free, SET_BY_BUILDER)))
  {
    var lines := LinesOf(Allowed(d.free, SET_BY_BUILDER));
    RespectedIff(d);
    BehindIs(d);
    KeptIffClean(d, AddAll(Added([], []), lines));
    HarmlessIff(Added([], []), lines);
  }

  /** No name goes on behind a reserved one and a ':'. */
  ghost predicate ColonsBehindFreeNames(fields: seq<Field>) {
    forall i | 0 <= i < |fields| && Cut(fields[i].name, ':').Some? ::
      Lower(TrimSpace(Cut(fields[i].name, ':').value.0)) !in SET_BY_BUILDER
  }

  lemma FieldLineCut(f: Field)
    ensures Cut(f.name, ':').None? ==> Cut(LineOf(f), ':') == Some((f.name, " " + f.value))
    ensures Cut(f.name, ':').Some? ==>
              Cut(LineOf(f), ':').Some? && Cut(LineOf(f), ':').value.0 == Cut(f.name, ':').value.0
  {
    match Cut(f.name, ':')
    case None =>
      assert LineOf(f) == f.name + [':'] + (" " + f.value);
      CutAt(f.name, ':', " " + f.value);
    case Some(p) =>
      assert LineOf(f) == p.0 + [':'] + (p.1 + ": " + f.value);
      CutAt(p.0, ':', p.1 + ": " + f.value);
  }

  lemma {:induction false} HarmlessFields(some: bool, fields: seq<Field>)
    requires forall i | 0 <= i < |fields| ::
      IsTrimmed(fields[i].name) && fields[i].name != "" && Lower(fields[i].name) !in SET_BY_BUILDER
      && Free(fields[i].name, {'\n'}) && Free(fields[i].value, {'\n'})
    ensures Harmless(some, LinesOf(fields)) <==> ColonsBehindFreeNames(fields)
    decreases fields
  {
    if fields != [] {
      var f := fields[0];
      OneLine(LineOf(f));
      FieldLineCut(f);
      TrimSpaceOfTrimmed(f.name);
      assert LineOf(f)[0] == f.name[0];
      HarmlessFields(true, fields[1..]);
      assert LinesOf(fields) == [LineOf(f)] + LinesOf(fields[1..]);
    }
  }

  /** The exact condition on free-form names without a line feed. */
  lemma RespectedIffColonsBehindFreeNames(d: Draft)
    requires Generated(d)
    requires forall f | f in Allowed(d.free, SET_BY_BUILDER) :: '\n' !in f.name
    ensures Respected(d) <==> ColonsBehindFreeNames(Allowed(d.free, SET_BY_BUILDER))
  {
    var allowed := Allowed(d.free, SET_BY_BUILDER);
    AllowedAreFree(d.free, SET_BY_BUILDER);
    forall f | f in allowed ensures NoBlankLine(f.name) {
      forall j | 0 <= j < |f.name| ensures !(BLANK_LINE <= f.name[j..]) {
        StartsBlankIff(f.name, j);
      }
    }
    RespectedIffHarmless(d);
    HarmlessFields(false, allowed);
  }

  // ---------------------------------------------------------------------------
  // Names that break the rule, and one that looks like it
  // ---------------------------------------------------------------------------

  /** A name that is let through unchanged. */
  lemma OneAllowed(name: string, value: string)
    requires IsTrimmed(name) && name != "" && Lower(name) !in SET_BY_BUILDER
    ensures Allowed([Field(name, value)], SET_BY_BUILDER) == [Field(name, Sanitized(value))]
  {
    TrimSpaceOfTrimmed(name);
    assert Allowed([Field(name, value)], SET_BY_BUILDER)
        == [Field(name, Sanitized(value))] + Allowed([], SET_BY_BUILDER);
  }

  lemma OneNameWithColon(d: Draft, name: string, before: string, behind: string, value: string)
    requires Generated(d) && d.free == [Field(name, value)]
    requires IsTrimmed(name) && Lower(name) !in SET_BY_BUILDER && '\n' !in name
    requires name == before + [':'] + behind && ':' !in before
    ensures Respected(d) <==> Lower(TrimSpace(before)) !in SET_BY_BUILDER
  {
    BeforeColon(name, before, behind);
    OneAllowed(name, value);
    var allowed := Allowed(d.free, SET_BY_BUILDER);
    assert |allowed| == 1 && allowed[0].name == name;
    assert ColonsBehindFreeNames(allowed) <==> Lower(TrimSpace(before)) !in SET_BY_BUILDER;
    RespectedIffColonsBehindFreeNames(d);
  }

  lemma BeforeColon(name: string, before: string, behind: string)
    requires name == before + [':'] + behind && ':' !in before
    ensures name != "" && Cut(name, ':').Some? && Cut(name, ':').value.0 == before
  {
    CutAt(before, ':', behind);
  }

  lemma NotReserved(name: string)
    requires (|name| >= 13 && name[12] == ':') || (|name| >= 8 && name[7] == ':') || (|name| >= 3 && name[2] == ':')
             || (|name| >= 2 && (name[1] == ':' || name[1] == '\r'))
    ensures name !in SET_BY_BUILDER
  {
  }

  lemma SubjectIsReserved()
    ensures Lower(TrimSpace("Subject")) in SET_BY_BUILDER
  {
    TrimSpaceOfTrimmed("Subject");
    assert Lower("Subject") == "subject";
  }

  lemma XIsFree()
    ensures Lower(TrimSpace("X")) !in SET_BY_BUILDER
  {
    TrimSpaceOfTrimmed("X");
    assert |Lower("X")| == 1;
  }

  lemma SubjectColon(name: string)
    requires name == "Subject:x"
    ensures IsTrimmed(name) && '\n' !in name && Lower(name) !in SET_BY_BUILDER
    ensures name == "Subject" + [':'] + "x" && ':' !in "Subject"
  {
    NotReserved(Lower(name));
    VisibleIsTrimmed(name);
  }

  /** Without any line break: the part before the ':' is read as the name. */
  lemma OverrideByColon(d: Draft, name: string, value: string)
    requires Generated(d) && d.free == [Field(name, value)] && name == "Subject:x"
    ensures !Respected(d)
  {
    SubjectColon(name);
    SubjectIsReserved();
    OneNameWithColon(d, name, "Subject", "x", value);
  }

  /** A ':' alone does no harm. */
  lemma HarmlessColon(d: Draft, name: string, value: string)
    requires Generated(d) && d.free == [Field(name, value)] && name == "X:Y"
    ensures Respected(d)
  {
    NotReserved(Lower(name));
    XIsFree();
    OneNameWithColon(d, name, "X", "Y", value);
  }

  /** A name whose second line starts with a blank is unfolded into the Subject. */
  lemma OverrideByUnfolding(d: Draft, name: string, value: string)
    requires Generated(d) && d.free == [Field(name, value)] && name == "X\r\n Y"
    ensures !Respected(d)
  {
    NotReserved(Lower(name));
    OneAllowed(name, value);
    AllowedAreFree(d.free, SET_BY_BUILDER);
    forall j | 0 <= j < |name| ensures !(BLANK_LINE <= name[j..]) {
      StartsBlankIff(name, j);
    }
    RespectedIffHarmless(d);
    UnfoldedLines(Field(name, Sanitized(value)));
  }

  lemma UnfoldedLines(f: Field)
    requires f.name == "X\r\n Y" && Free(f.value, {'\n'})
    ensures !Harmless(false, LinesOf([f]))
  {
    var x, y := "X", " Y: " + f.value;
    assert LineOf(f) == x + "\r\n" + y;
    assert LinesOf([f]) == LinesIn(LineOf(f)) + LinesOf([]);
    LinesBreak(x, y);
    OneLine(x);
    OneLine(y);
    assert LinesOf([f]) == [x, y];
    assert Cut(x, ':').None? && Continues(y);
    assert [x, y][1..] == [y];
  }

  /** A name with a blank line ends the head, and the fields behind it are lost. */
  lemma OverrideByBlankLine(d: Draft, name: string, value: string)
    requires Printable(Leading(d)) && d.free == [Field(name, value)] && name == "X\r\n\r\nY"
    ensures !Respected(d)
  {
    NotReserved(Lower(name));
    OneAllowed(name, value);
    var f := Field(name, Sanitized(value));
    var text := Behind(d);
    assert Written([f]) == LineOf(f) + "\r\n" + Written([]);
    assert text[..6] == name;
    assert text[1..][..4] == BLANK_LINE;
    StartsBlankIff(text, 0);
    FirstBlankLine(text, 1);
    assert HeadOf(text) == "X";
    OneLine("X");
    assert Cut("X", ':').None?;
    assert AddedBehind(d) == Added([], []);
    RespectedIff(d);
    MimeVersionBehind(d);
  }

  lemma MimeVersionBehind(d: Draft)
    ensures Under(TrimValues(Trailing(d)), "mime-version") != []
  {
    var first := Field("MIME-Version", TrimSpace("1.0"));
    assert Lower("MIME-Version") == "mime-version";
    assert TrimValues(Trailing(d)) == [first] + TrimValues(d.content);
    UnderAppend([first], TrimValues(d.content), "mime-version");
    OneUnder(first, "mime-version");
  }
}
