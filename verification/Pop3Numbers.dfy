/** One number, one message: what LIST shows under a number is what RETR, TOP and DELE act on. */
module Pop3Numbers {
  import opened Bytes
  import opened Text
  import opened Maildrop
  import opened Pop3Server
  import P = Pop3

  /** The argument is this number, white space around it aside. */
  ghost predicate Says(arg: string, number: nat) {
    TrimSpace(arg) == Decimal(number)
  }

  /** Which entry of the view a number picks, and why it picks none. */
  lemma NumberPicks(entries: seq<Entry>, arg: string, number: nat)
    requires Says(arg, number) && number <= MAX_INT64
    ensures Resolve(entries, arg)
            == if number == 0 || number > |entries| then Err(NoSuchMessage(number))
               else if entries[number - 1].deleted then Err(MarkedForDeletion(number))
               else Ok(number - 1)
  {
    AtoiOfDecimal(number);
  }

  /** Anything that is not a number within 64 bits is refused as such. */
  lemma NoNumber(entries: seq<Entry>, arg: string)
    requires var body := Unsigned(TrimSpace(arg));
             body == "" || exists c :: c in body && !IsDigit(c)
    ensures Resolve(entries, arg) == Err(InvalidNumber)
  {
    AtoiIff(TrimSpace(arg));
  }

  /** For every row of LIST: its number picks the message with that row's ID and octets. */
  lemma RowPicks(entries: seq<Entry>, row: ScanLine, arg: string)
    requires row in Scanned(entries) && Says(arg, row.number) && row.number <= MAX_INT64
    ensures 1 <= row.number <= |entries| && Resolve(entries, arg) == Ok(row.number - 1)
    ensures entries[row.number - 1].id == row.id && Size(entries[row.number - 1].raw) == row.octets
  {
    ListingIsTheView(entries);
    assert LineFor(entries, row);
    NumberPicks(entries, arg, row.number);
  }

  /** A number within the view that LIST does not show belongs to a marked message. */
  lemma UnlistedIsMarked(entries: seq<Entry>, number: nat, arg: string)
    requires 1 <= number <= |entries| && number <= MAX_INT64 && Says(arg, number)
    requires forall row | row in Scanned(entries) :: row.number != number
    ensures Resolve(entries, arg) == Err(MarkedForDeletion(number))
  {
    var e := entries[number - 1];
    ListingIsTheView(entries);
    assert LineFor(entries, ScanLine(number, e.id, Size(e.raw))) == !e.deleted;
    NumberPicks(entries, arg, number);
  }

  /** Over any edits a number that LIST shows stands for the message it stood for when the view was taken. */
  lemma NumbersOverEdits(view: seq<Entry>, edits: seq<Edit>, row: ScanLine, arg: string)
    requires row in Scanned(Edited(view, edits)) && Says(arg, row.number) && row.number <= MAX_INT64
    ensures Resolve(Edited(view, edits), arg) == Ok(row.number - 1)
    ensures 1 <= row.number <= |view| && view[row.number - 1].id == row.id && Size(view[row.number - 1].raw) == row.octets
  {
    EditsKeepView(view, edits);
    RowPicks(Edited(view, edits), row, arg);
  }

  /** LIST and UIDL with a number give its row; DELE marks its message and no other, under the same number. */
  lemma CommandsAgree(s: P.Session, row: ScanLine, arg: string)
    requires s.transaction && row in Scanned(s.entries) && Says(arg, row.number) && row.number <= MAX_INT64
    ensures Listed(s, arg, false) == One(Octets(row.number, row.octets))
    ensures Listed(s, arg, true) == One(UniqueID(row.number, row.id))
    ensures var t := P.DeleTurn(s, arg);
            && t.reply == P.Positive([row.number])
            && MarkedIds(t.session.entries) == MarkedIds(s.entries) + {row.id} && SameView(s.entries, t.session.entries)
  {
    NumberIsNoBlank(arg, row.number);
    RowPicks(s.entries, row, arg);
    MarkingTakesOneOut(s.entries, row.number - 1);
  }

  lemma NumberIsNoBlank(arg: string, number: nat)
    requires Says(arg, number)
    ensures TrimSpace(arg) != ""
  {
  }

  /** Without a number they give every row. */
  lemma AllRows(s: P.Session, arg: string)
    requires s.transaction && TrimSpace(arg) == ""
    ensures var lines, sizes, names := Scanned(s.entries), Listed(s, arg, false), Listed(s, arg, true);
            && sizes.All? && names.All? && |sizes.rows| == |names.rows| == |lines|
            && forall i | 0 <= i < |lines| ::
                 && sizes.rows[i] == Octets(lines[i].number, lines[i].octets)
                 && names.rows[i] == UniqueID(lines[i].number, lines[i].id)
  {
  }

  // ---------------------------------------------------------------------------
  // TOP
  // ---------------------------------------------------------------------------

  /** TOP with a number and a line count gives that message and that many lines. */
  lemma TopAgrees(s: P.Session, row: ScanLine, lines: nat)
    requires s.transaction && row in Scanned(s.entries) && row.number <= MAX_INT64 && lines <= MAX_INT64
    ensures 1 <= row.number <= |s.entries| && s.entries[row.number - 1].id == row.id
    ensures TopTurn(s, Decimal(row.number) + Spaced([Decimal(lines)])) == Top(row.number - 1, lines)
  {
    var arg := Decimal(row.number);
    ValueOfDecimal(row.number);
    ValueOfDecimal(lines);
    FieldsFrom(arg, [Decimal(lines)]);
    AtoiOfDecimal(row.number);
    AtoiOfDecimal(lines);
    RowPicks(s.entries, row, arg);
  }

  /** Any other number of arguments is refused, and so is a negative line count. */
  lemma TopRefuses(s: P.Session, word: string, words: seq<string>, number: nat, lines: nat)
    requires s.transaction && AllVisible(word) && Words(words) && |words| != 1
    requires 1 <= number <= |s.entries| && !s.entries[number - 1].deleted && number <= MAX_INT64 && 1 <= lines
    ensures TopTurn(s, word + Spaced(words)) == BadTopArguments
    ensures TopTurn(s, Decimal(number) + Spaced(["-" + Decimal(lines)])) == BadTopArguments
  {
    FieldsFrom(word, words);
    var arg, minus := Decimal(number), "-" + Decimal(lines);
    ValueOfDecimal(number);
    ValueOfDecimal(lines);
    forall c | c in minus ensures IsVisible(c) {
      assert c == '-' || c in Decimal(lines);
    }
    FieldsFrom(arg, [minus]);
    AtoiOfDecimal(number);
    AtoiIff(minus);
    assert minus[1..] == Decimal(lines);
  }

  /** Before a login none of these commands does anything. */
  lemma NeedsLogin(s: P.Session, arg: string, uidl: bool)
    requires !s.transaction
    ensures P.DeleTurn(s, arg) == P.RsetTurn(s) == P.Turn(s, P.Negative(P.AuthenticateFirst))
    ensures Listed(s, arg, uidl) == Refused(P.AuthenticateFirst) && TopTurn(s, arg) == TopRefused(P.AuthenticateFirst)
  {
  }

  /** STAT, PASS and RSET report the number of rows that LIST shows, and then the sum of their octets. */
  lemma FiguresAreRows(entries: seq<Entry>)
    ensures P.FiguresOf(entries) == [|Scanned(entries)|, SumOctets(Scanned(entries))]
  {
    StatMatchesList(entries);
  }
}
