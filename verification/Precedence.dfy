/**
 Which field wins: the program looks a field up by its first occurrence, so a free-form name
 overrides a generated field exactly when it is written before it, or instead of it.
 */
module Precedence {
  import opened Bytes
  import opened Sequences
  import opened Text
  import opened Headers
  import opened Overrides

  /** What a lookup under a reserved name finds. */
  function First(fields: seq<Field>, name: string): Option<Field> {
    var under := Under(fields, name);
    if under == [] then None else Some(under[0])
  }

  /** Every lookup finds what it would find without the free-form fields. */
  ghost predicate Prevails(d: Draft) {
    forall r | r in SET_BY_BUILDER ::
      First(ReadBack(d), r) == First(TrimValues(Leading(d)) + TrimValues(Trailing(d)), r)
  }

  // ---------------------------------------------------------------------------
  // What the free-form fields are read as
  // ---------------------------------------------------------------------------

  function ReadAs(f: Field): Field {
    match Cut(f.name, ':')
    case None => Field(f.name, TrimSpace(f.value))
    case Some(p) => Field(TrimSpace(p.0), TrimSpace(p.1 + ": " + f.value))
  }

  function ReadAll(fields: seq<Field>): (r: seq<Field>)
    ensures |r| == |fields| && forall i | 0 <= i < |r| :: r[i] == ReadAs(fields[i])
  {
    seq(|fields|, i requires 0 <= i < |fields| => ReadAs(fields[i]))
  }

  /** Free-form fields whose names have no line feed, as they are let through. */
  ghost predicate OneLined(fields: seq<Field>) {
    forall i | 0 <= i < |fields| ::
      IsTrimmed(fields[i].name) && fields[i].name != "" && Free(fields[i].name, {'\n'}) && Free(fields[i].value, {'\n'})
      && Lower(fields[i].name) !in SET_BY_BUILDER
  }

  lemma LineIsReadAs(a: Added, f: Field)
    requires IsTrimmed(f.name) && f.name != ""
    ensures AddTo(a, LineOf(f)) == a.(own := a.own + [ReadAs(f)])
  {
    assert LineOf(f)[0] == f.name[0];
    match Cut(f.name, ':')
    case None =>
      assert LineOf(f) == f.name + [':'] + (" " + f.value);
      CutAt(f.name, ':', " " + f.value);
      TrimSpaceOfTrimmed(f.name);
      assert BlankAt(" " + f.value) == 1 && (" " + f.value)[1..] == f.value;
    case Some(p) =>
      assert LineOf(f) == p.0 + [':'] + (p.1 + ": " + f.value);
      CutAt(p.0, ':', p.1 + ": " + f.value);
  }

  lemma ReadAllCons(fields: seq<Field>)
    requires fields != []
    ensures ReadAll(fields) == [ReadAs(fields[0])] + ReadAll(fields[1..])
  {
  }

  lemma {:induction false} FieldsReadAs(a: Added, fields: seq<Field>)
    requires OneLined(fields)
    ensures AddAll(a, LinesOf(fields)) == Added(a.unfolded, a.own + ReadAll(fields))
    decreases fields
  {
    if fields == [] {
      assert a.own + [] == a.own;
    } else {
      var f, rest := fields[0], fields[1..];
      OneLine(LineOf(f));
      LineIsReadAs(a, f);
      AddAllCons(a, LineOf(f), LinesOf(rest));
      FieldsReadAs(a.(own := a.own + [ReadAs(f)]), rest);
      ReadAllCons(fields);
      AppendMoves(a.own, ReadAs(f), ReadAll(rest));
    }
  }

  lemma AllowedOneLined(d: Draft)
    requires forall f | f in Allowed(d.free, SET_BY_BUILDER) :: '\n' !in f.name
    ensures OneLined(Allowed(d.free, SET_BY_BUILDER))
    ensures forall f | f in Allowed(d.free, SET_BY_BUILDER) :: NoBlankLine(f.name)
  {
    var allowed := Allowed(d.free, SET_BY_BUILDER);
    AllowedAreFree(d.free, SET_BY_BUILDER);
    forall f | f in allowed ensures NoBlankLine(f.name) {
      OneLineIsNoBlankLine(f.name);
    }
    assert forall i | 0 <= i < |allowed| :: allowed[i] in allowed;
  }

  lemma OneLineIsNoBlankLine(name: string)
    requires '\n' !in name
    ensures NoBlankLine(name)
  {
    forall j | 0 <= j < |name| ensures !(BLANK_LINE <= name[j..]) {
      StartsBlankIff(name, j);
    }
  }

  /** The parsed message: leading fields, free-form fields as they are read, trailing fields. */
  lemma ReadInOrder(d: Draft)
    requires Generated(d)
    requires forall f | f in Allowed(d.free, SET_BY_BUILDER) :: '\n' !in f.name
    ensures ReadBack(d)
            == TrimValues(Leading(d)) + (ReadAll(Allowed(d.free, SET_BY_BUILDER)) + TrimValues(Trailing(d)))
  {
    var free := ReadAll(Allowed(d.free, SET_BY_BUILDER));
    AllowedOneLined(d);
    FieldsReadAs(Added([], []), Allowed(d.free, SET_BY_BUILDER));
    assert [] + free == free;
    BehindIs(d);
    ReadBackIs(d);
    NothingUnfolded(TrimValues(Leading(d)));
    assert WithUnfolded(TrimValues(Leading(d)), []) == TrimValues(Leading(d));
  }

  // ---------------------------------------------------------------------------
  // The condition
  // ---------------------------------------------------------------------------

  lemma FirstOf(a: seq<Field>, b: seq<Field>, r: string)
    ensures First(a + b, r) == if Under(a, r) != [] then First(a, r) else First(b, r)
  {
    UnderAppend(a, b, r);
    assert Under(a, r) == [] ==> Under(a, r) + Under(b, r) == Under(b, r);
  }

  /** Under this name the free-form fields make no difference to a lookup. */
  ghost predicate Undisturbed(leading: seq<Field>, free: seq<Field>, trailing: seq<Field>, r: string) {
    Under(leading, r) != [] || Under(free, r) == [] || First(free, r) == First(trailing, r)
  }

  lemma UndisturbedIff(leading: seq<Field>, free: seq<Field>, trailing: seq<Field>, r: string)
    ensures First(leading + (free + trailing), r) == First(leading + trailing, r)
            <==> Undisturbed(leading, free, trailing, r)
  {
    FirstOf(leading, free + trailing, r);
    FirstOf(leading, trailing, r);
    FirstOf(free, trailing, r);
  }

  /** For names without a line feed: the exact condition, field by field. */
  lemma PrevailsIffUndisturbed(d: Draft)
    requires Generated(d)
    requires forall f | f in Allowed(d.free, SET_BY_BUILDER) :: '\n' !in f.name
    ensures Prevails(d)
            <==> forall r | r in SET_BY_BUILDER ::
                   Undisturbed(TrimValues(Leading(d)), ReadAll(Allowed(d.free, SET_BY_BUILDER)), TrimValues(Trailing(d)), r)
  {
    var leading, free, trailing := TrimValues(Leading(d)), ReadAll(Allowed(d.free, SET_BY_BUILDER)), TrimValues(Trailing(d));
    ReadInOrder(d);
    forall r | r in SET_BY_BUILDER
      ensures First(ReadBack(d), r) == First(leading + trailing, r) <==> Undisturbed(leading, free, trailing, r)
    {
      UndisturbedIff(leading, free, trailing, r);
    }
  }

  /** The fields that the builder writes before the free-form ones. */
  predicate WrittenBefore(d: Draft, r: string) {
    || r == "date" || r == "message-id" || r == "from" || r == "to" || r == "subject"
    || (r == "cc" && d.cc.Some?) || (r == "bcc" && d.bcc.Some?) || (r == "reply-to" && d.replyTo.Some?)
  }

  lemma {:induction false} UnderIff(fields: seq<Field>, r: string)
    ensures Under(fields, r) != [] <==> exists i :: 0 <= i < |fields| && Lower(fields[i].name) == r
    ensures Under(fields, r) != [] ==> Under(fields, r)[0] in fields && IsNamed(Under(fields, r)[0], r)
  {
    var keep := f => IsNamed(f, r);
    FilterMembers(fields, keep);
    if Under(fields, r) != [] {
      var f := Under(fields, r)[0];
      assert f in Filter(fields, keep);
      var i :| 0 <= i < |fields| && fields[i] == f;
    }
    if i :| 0 <= i < |fields| && Lower(fields[i].name) == r {
      assert fields[i] in fields && fields[i] in Filter(fields, keep);
    }
  }

  /** The names of the leading fields in lower case. */
  function LeadingNames(d: Draft): seq<string> {
    ["date", "message-id", "from", "to"]
    + (if d.cc.Some? then ["cc"] else []) + (if d.bcc.Some? then ["bcc"] else [])
    + (if d.replyTo.Some? then ["reply-to"] else []) + ["subject"]
  }

  function LowerNames(fields: seq<Field>): (r: seq<string>)
    ensures |r| == |fields| && forall i | 0 <= i < |r| :: r[i] == Lower(fields[i].name)
  {
    seq(|fields|, i requires 0 <= i < |fields| => Lower(fields[i].name))
  }

  lemma LowerNamesAppend(a: seq<Field>, b: seq<Field>)
    ensures LowerNames(a + b) == LowerNames(a) + LowerNames(b)
  {
  }

  lemma FirstFourNames(d: Draft)
    ensures LowerNames([Field("Date", d.date), Field("Message-ID", d.messageId), Field("From", d.from), Field("To", d.to)])
            == ["date", "message-id", "from", "to"]
  {
    assert Lower("Date") == "date";
    assert Lower("Message-ID") == "message-id";
    assert Lower("From") == "from";
    assert Lower("To") == "to";
  }

  lemma OptionalNames(d: Draft)
    ensures LowerNames(Optional("Cc", d.cc)) == if d.cc.Some? then ["cc"] else []
    ensures LowerNames(Optional("Bcc", d.bcc)) == if d.bcc.Some? then ["bcc"] else []
    ensures LowerNames(Optional("Reply-To", d.replyTo)) == if d.replyTo.Some? then ["reply-to"] else []
  {
    assert Lower("Cc") == "cc";
    assert Lower("Bcc") == "bcc";
    assert Lower("Reply-To") == "reply-to";
  }

  lemma LeadingNamesAre(d: Draft)
    ensures LowerNames(Leading(d)) == LeadingNames(d)
  {
    var first := [Field("Date", d.date), Field("Message-ID", d.messageId), Field("From", d.from), Field("To", d.to)];
    var cc, bcc, reply := Optional("Cc", d.cc), Optional("Bcc", d.bcc), Optional("Reply-To", d.replyTo);
    FirstFourNames(d);
    OptionalNames(d);
    assert Lower("Subject") == "subject";
    LowerNamesAppend(first, cc);
    LowerNamesAppend(first + cc, bcc);
    LowerNamesAppend(first + cc + bcc, reply);
    LowerNamesAppend(first + cc + bcc + reply, [Field("Subject", d.subject)]);
  }

  lemma AmongLeadingNames(d: Draft, r: string)
    ensures r in LeadingNames(d) <==> WrittenBefore(d, r)
  {
  }

  lemma LeadingHas(d: Draft, r: string)
    ensures Under(TrimValues(Leading(d)), r) != [] <==> WrittenBefore(d, r)
  {
    LeadingNamesAre(d);
    AmongLeadingNames(d, r);
    UnderIff(TrimValues(Leading(d)), r);
    var names := LowerNames(Leading(d));
    assert forall i | 0 <= i < |Leading(d)| :: Lower(TrimValues(Leading(d))[i].name) == names[i];
    if r in names {
      var i :| 0 <= i < |names| && names[i] == r;
      assert Lower(TrimValues(Leading(d))[i].name) == r;
    }
  }

  /** The reserved name that a free-form name is read as, if any. */
  predicate ReadUnder(name: string, r: string) {
    Cut(name, ':').Some? && Lower(TrimSpace(Cut(name, ':').value.0)) == r
  }

  /** Whatever a free-form name is read as, the builder has written it before. */
  ghost predicate NoneComesFirst(d: Draft, fields: seq<Field>) {
    forall i, r | 0 <= i < |fields| && r in SET_BY_BUILDER && ReadUnder(fields[i].name, r) :: WrittenBefore(d, r)
  }

  lemma FreeUnderIff(fields: seq<Field>, r: string)
    requires OneLined(fields) && r in SET_BY_BUILDER
    ensures Under(ReadAll(fields), r) != [] <==> exists i :: 0 <= i < |fields| && ReadUnder(fields[i].name, r)
    ensures Under(ReadAll(fields), r) != [] ==> ':' in Under(ReadAll(fields), r)[0].value
  {
    UnderIff(ReadAll(fields), r);
    forall i | 0 <= i < |fields|
      ensures Lower(ReadAll(fields)[i].name) == r <==> ReadUnder(fields[i].name, r)
      ensures ReadUnder(fields[i].name, r) ==> ':' in ReadAll(fields)[i].value
    {
      ReadUnderIff(fields[i], r);
    }
    if Under(ReadAll(fields), r) != [] {
      var i :| 0 <= i < |fields| && ReadAll(fields)[i] == Under(ReadAll(fields), r)[0];
    }
  }

  lemma ReadUnderIff(f: Field, r: string)
    requires Lower(f.name) !in SET_BY_BUILDER && r in SET_BY_BUILDER
    ensures Lower(ReadAs(f).name) == r <==> ReadUnder(f.name, r)
    ensures ReadUnder(f.name, r) ==> ':' in ReadAs(f).value
  {
    if Cut(f.name, ':').Some? {
      var p := Cut(f.name, ':').value;
      var text := p.1 + ": " + f.value;
      assert text[|p.1|] == ':';
      TrimSpaceKeeps(text, ':');
    }
  }

  lemma NoColonBehind(d: Draft, r: string)
    requires forall i | 0 <= i < |d.content| :: ':' !in d.content[i].value
    ensures First(TrimValues(Trailing(d)), r).Some? ==> ':' !in First(TrimValues(Trailing(d)), r).value.value
  {
    var trailing := TrimValues(Trailing(d));
    UnderIff(trailing, r);
    forall i | 0 <= i < |trailing| ensures ':' !in trailing[i].value {
      TrimSpaceTrims(Trailing(d)[i].value);
    }
  }

  /**
   The exact condition in terms of the names, when no generated content field has a ':' in its value: what
   stands before the first ':' of a free-form name is not a reserved name that the builder has yet to write.
   */
  lemma PrevailsIff(d: Draft)
    requires Generated(d) && forall i | 0 <= i < |d.content| :: ':' !in d.content[i].value
    requires forall f | f in Allowed(d.free, SET_BY_BUILDER) :: '\n' !in f.name
    ensures Prevails(d) <==> NoneComesFirst(d, Allowed(d.free, SET_BY_BUILDER))
  {
    var allowed := Allowed(d.free, SET_BY_BUILDER);
    var leading, free, trailing := TrimValues(Leading(d)), ReadAll(allowed), TrimValues(Trailing(d));
    PrevailsIffUndisturbed(d);
    AllowedOneLined(d);
    forall r | r in SET_BY_BUILDER
      ensures Undisturbed(leading, free, trailing, r)
              <==> (WrittenBefore(d, r) || !exists i :: 0 <= i < |allowed| && ReadUnder(allowed[i].name, r))
    {
      LeadingHas(d, r);
      FreeUnderIff(allowed, r);
      NoColonBehind(d, r);
    }
  }

  // ---------------------------------------------------------------------------
  // Names that win, and one that does not
  // ---------------------------------------------------------------------------

  lemma OneNameWins(d: Draft, name: string, before: string, behind: string, value: string)
    requires Generated(d) && (forall i | 0 <= i < |d.content| :: ':' !in d.content[i].value)
    requires d.free == [Field(name, value)]
    requires IsTrimmed(name) && Lower(name) !in SET_BY_BUILDER && '\n' !in name
    requires name == before + [':'] + behind && ':' !in before && Lower(TrimSpace(before)) in SET_BY_BUILDER
    ensures Prevails(d) <==> WrittenBefore(d, Lower(TrimSpace(before)))
  {
    BeforeColon(name, before, behind);
    OneAllowed(name, value);
    var allowed := Allowed(d.free, SET_BY_BUILDER);
    assert |allowed| == 1 && allowed[0].name == name;
    assert forall r :: ReadUnder(name, r) <==> r == Lower(TrimSpace(before));
    assert NoneComesFirst(d, allowed) <==> WrittenBefore(d, Lower(TrimSpace(before)));
    PrevailsIff(d);
  }

  lemma ContentTypeIsReserved()
    ensures Lower(TrimSpace("Content-Type")) == "content-type"
  {
    VisibleIsTrimmed("Content-Type");
    TrimSpaceOfTrimmed("Content-Type");
  }

  lemma ContentTypeColon(name: string)
    requires name == "Content-Type:x"
    ensures IsTrimmed(name) && '\n' !in name && Lower(name) !in SET_BY_BUILDER
    ensures name == "Content-Type" + [':'] + "x" && ':' !in "Content-Type"
  {
    NotReserved(Lower(name));
    VisibleIsTrimmed(name);
  }

  /** The content type of the composed message is not the one a reader finds. */
  lemma ContentTypeOverridden(d: Draft, name: string, value: string)
    requires Generated(d) && (forall i | 0 <= i < |d.content| :: ':' !in d.content[i].value)
    requires d.free == [Field(name, value)] && name == "Content-Type:x"
    ensures !Prevails(d)
  {
    ContentTypeColon(name);
    ContentTypeIsReserved();
    OneNameWins(d, name, "Content-Type", "x", value);
  }

  lemma CcColon(name: string)
    requires name == "Cc:x"
    ensures IsTrimmed(name) && '\n' !in name && Lower(name) !in SET_BY_BUILDER
    ensures name == "Cc" + [':'] + "x" && ':' !in "Cc" && Lower(TrimSpace("Cc")) == "cc"
  {
    NotReserved(Lower(name));
    VisibleIsTrimmed(name);
    TrimSpaceOfTrimmed("Cc");
    assert Lower("Cc") == "cc";
  }

  /** A Cc comes in through the free-form fields exactly when none is given. */
  lemma CcOverriddenIff(d: Draft, name: string, value: string)
    requires Generated(d) && (forall i | 0 <= i < |d.content| :: ':' !in d.content[i].value)
    requires d.free == [Field(name, value)] && name == "Cc:x"
    ensures Prevails(d) <==> d.cc.Some?
  {
    CcColon(name);
    OneNameWins(d, name, "Cc", "x", value);
  }

  /** A second Subject is there, but the first one wins. */
  lemma SubjectStays(d: Draft, name: string, value: string)
    requires Generated(d) && (forall i | 0 <= i < |d.content| :: ':' !in d.content[i].value)
    requires d.free == [Field(name, value)] && name == "Subject:x"
    ensures Prevails(d) && !Respected(d)
  {
    SubjectColon(name);
    TrimSpaceOfTrimmed("Subject");
    assert Lower("Subject") == "subject";
    OneNameWins(d, name, "Subject", "x", value);
    OverrideByColon(d, name, value);
  }

  // ---------------------------------------------------------------------------
  // What a reader finds of a composed message
  // ---------------------------------------------------------------------------

  /** The first field of a name is what a lookup finds. */
  lemma {:induction false} FirstAt(fields: seq<Field>, r: string, i: nat)
    requires i < |fields| && Lower(fields[i].name) == r && forall j | 0 <= j < i :: Lower(fields[j].name) != r
    ensures First(fields, r) == Some(fields[i])
  {
    if i > 0 {
      var rest := fields[1..];
      assert forall j | 0 <= j < i - 1 :: rest[j] == fields[j + 1];
      FirstAt(rest, r, i - 1);
      assert Under(fields, r) == [] + Under(rest, r);
    }
  }

  ghost predicate FreeNamesOneLine(d: Draft) {
    forall f | f in Allowed(d.free, SET_BY_BUILDER) :: '\n' !in f.name
  }

  /** Whatever the free-form fields are, a lookup finds this field. */
  ghost predicate Finds(d: Draft, r: string, name: string, value: string) {
    First(ReadBack(d), r) == Some(Field(name, TrimSpace(value)))
  }

  /** This is the first leading field of its name. */
  ghost predicate LeadsAt(d: Draft, r: string, i: nat, f: Field) {
    && i < |Leading(d)| == |LeadingNames(d)| && Leading(d)[i] == f && LeadingNames(d)[i] == r
    && forall j | 0 <= j < i :: LeadingNames(d)[j] != r
  }

  lemma FoundAt(d: Draft, r: string, i: nat, name: string, value: string)
    requires Generated(d) && FreeNamesOneLine(d) && LeadsAt(d, r, i, Field(name, value))
    ensures Finds(d, r, name, value)
  {
    var leading := TrimValues(Leading(d));
    var all := leading + (ReadAll(Allowed(d.free, SET_BY_BUILDER)) + TrimValues(Trailing(d)));
    LeadingNamesAre(d);
    assert LowerNames(Leading(d)) == LeadingNames(d);
    ReadInOrder(d);
    forall j | 0 <= j <= i ensures Lower(all[j].name) == LeadingNames(d)[j] {
      assert all[j] == leading[j] && LowerNames(Leading(d))[j] == Lower(Leading(d)[j].name);
    }
    FirstAt(all, r, i);
  }

  lemma FirstFourLead(d: Draft)
    ensures LeadsAt(d, "date", 0, Field("Date", d.date)) && LeadsAt(d, "message-id", 1, Field("Message-ID", d.messageId))
    ensures LeadsAt(d, "from", 2, Field("From", d.from)) && LeadsAt(d, "to", 3, Field("To", d.to))
  {
  }

  lemma CopiesLead(d: Draft)
    ensures d.cc.Some? ==> LeadsAt(d, "cc", 4, Field("Cc", d.cc.value))
    ensures d.bcc.Some? ==> LeadsAt(d, "bcc", 4 + |Optional("Cc", d.cc)|, Field("Bcc", d.bcc.value))
  {
  }

  lemma ReplyToLeads(d: Draft)
    ensures d.replyTo.Some? ==>
              LeadsAt(d, "reply-to", 4 + |Optional("Cc", d.cc)| + |Optional("Bcc", d.bcc)|, Field("Reply-To", d.replyTo.value))
  {
  }

  lemma SubjectLeads(d: Draft)
    ensures LeadsAt(d, "subject", |Leading(d)| - 1, Field("Subject", d.subject))
  {
  }

  /** What a lookup finds under the names that are always there, whatever the free-form fields are. */
  lemma FoundAlways(d: Draft)
    requires Generated(d) && FreeNamesOneLine(d)
    ensures Finds(d, "date", "Date", d.date) && Finds(d, "message-id", "Message-ID", d.messageId)
    ensures Finds(d, "from", "From", d.from) && Finds(d, "to", "To", d.to) && Finds(d, "subject", "Subject", d.subject)
  {
    FirstFourLead(d);
    SubjectLeads(d);
    FoundAt(d, "date", 0, "Date", d.date);
    FoundAt(d, "message-id", 1, "Message-ID", d.messageId);
    FoundAt(d, "from", 2, "From", d.from);
    FoundAt(d, "to", 3, "To", d.to);
    FoundAt(d, "subject", |Leading(d)| - 1, "Subject", d.subject);
  }

  /** And under those that are there when they are given. */
  lemma FoundIfGiven(d: Draft)
    requires Generated(d) && FreeNamesOneLine(d)
    ensures d.cc.Some? ==> Finds(d, "cc", "Cc", d.cc.value)
    ensures d.bcc.Some? ==> Finds(d, "bcc", "Bcc", d.bcc.value)
    ensures d.replyTo.Some? ==> Finds(d, "reply-to", "Reply-To", d.replyTo.value)
  {
    var cc, bcc := |Optional("Cc", d.cc)|, |Optional("Bcc", d.bcc)|;
    CopiesLead(d);
    ReplyToLeads(d);
    if d.cc.Some? {
      FoundAt(d, "cc", 4, "Cc", d.cc.value);
    }
    if d.bcc.Some? {
      FoundAt(d, "bcc", 4 + cc, "Bcc", d.bcc.value);
    }
    if d.replyTo.Some? {
      FoundAt(d, "reply-to", 4 + cc + bcc, "Reply-To", d.replyTo.value);
    }
  }

  lemma {:induction false} AllowedHas(free: seq<Field>, reserved: set<string>, f: Field)
    requires f in free && TrimSpace(f.name) != "" && Lower(TrimSpace(f.name)) !in reserved
    ensures Field(TrimSpace(f.name), Sanitized(f.value)) in Allowed(free, reserved)
  {
    if free[0] != f {
      assert free == [free[0]] + free[1..];
      AllowedHas(free[1..], reserved, f);
    }
  }

  /** A value without line breaks is written as it is, trimmed. */
  lemma SanitizedKeeps(value: string)
    requires Free(value, {'\r', '\n'})
    ensures Sanitized(value) == TrimSpace(value)
  {
    var replaced := seq(|value|, i requires 0 <= i < |value| => if value[i] == '\r' || value[i] == '\n' then ' ' else value[i]);
    assert forall i | 0 <= i < |value| :: value[i] in value;
    assert replaced == value;
  }

  /** Line breaks inside a value become blanks, one for one. */
  lemma SanitizedBlanks(value: string)
    requires value != "" && IsVisible(value[0]) && IsVisible(value[|value| - 1])
    ensures |Sanitized(value)| == |value|
    ensures forall i | 0 <= i < |value| :: Sanitized(value)[i] == if value[i] == '\r' || value[i] == '\n' then ' ' else value[i]
  {
    var replaced := seq(|value|, i requires 0 <= i < |value| => if value[i] == '\r' || value[i] == '\n' then ' ' else value[i]);
    assert replaced[0] == value[0] && replaced[|value| - 1] == value[|value| - 1];
    assert "" + replaced + "" == replaced;
    TrimSpaceAround("", replaced, "");
  }

  /** A free-form field that is let through is read with its name and its value. */
  lemma FreeFieldIsRead(d: Draft, f: Field)
    requires Generated(d) && FreeNamesOneLine(d) && f in d.free
    requires TrimSpace(f.name) != "" && Lower(TrimSpace(f.name)) !in SET_BY_BUILDER && ':' !in TrimSpace(f.name)
    requires Free(f.value, {'\r', '\n'})
    ensures Field(TrimSpace(f.name), TrimSpace(f.value)) in ReadBack(d)
  {
    var allowed, g := Allowed(d.free, SET_BY_BUILDER), Field(TrimSpace(f.name), TrimSpace(f.value));
    AllowedHas(d.free, SET_BY_BUILDER, f);
    SanitizedKeeps(f.value);
    TrimSpaceTrims(f.value);
    TrimSpaceOfTrimmed(TrimSpace(f.value));
    CutNowhere(g.name, ':');
    ReadInOrder(d);
    var i :| 0 <= i < |allowed| && allowed[i] == g;
    assert ReadAll(allowed)[i] == g;
  }

  /** Behind them, the version and the content fields are read as they were given. */
  lemma TrailingIsRead(d: Draft)
    requires Generated(d) && FreeNamesOneLine(d)
    ensures exists front :: ReadBack(d) == front + TrimValues([Field("MIME-Version", "1.0")] + d.content)
  {
    ReadInOrder(d);
    Assoc(TrimValues(Leading(d)), ReadAll(Allowed(d.free, SET_BY_BUILDER)), TrimValues(Trailing(d)));
  }
}
