/** Where a submitted message goes: header, recipient routes, user name, default. */
module Routing {
  import opened Bytes
  import opened Sequences
  import opened Text
  import opened Routes

  const ROUTING_HEADER: string := "X-Mailschleuse-Mailbox"

  datatype RoutingOptions = RoutingOptions(
    headerRouting: bool, userRouting: bool, routes: seq<Route>, defaultMailbox: string)

  // ---------------------------------------------------------------------------
  // Recipient routes
  // ---------------------------------------------------------------------------

  function FirstMatch(routes: seq<Route>, recipient: string): Option<Route> {
    if routes == [] then None
    else if routes[0].Matches(recipient) then Some(routes[0])
    else FirstMatch(routes[1..], recipient)
  }

  /** The mailboxes one recipient's first matching rule names. */
  function Named(routes: seq<Route>, recipient: string): seq<string> {
    match FirstMatch(routes, recipient)
    case None => []
    case Some(route) => route.mailboxes
  }

  /** Everything the recipients' rules name, in order and with repetitions. */
  function Wanted(routes: seq<Route>, recipients: seq<string>): seq<string> {
    if recipients == [] then [] else Named(routes, recipients[0]) + Wanted(routes, recipients[1..])
  }

  /** Adds the existing names that are not there yet. */
  function Admit(names: seq<string>, boxes: set<string>, acc: seq<string>): seq<string> {
    if names == [] then acc
    else
      Admit(names[1..], boxes, if names[0] !in acc && names[0] in boxes then acc + [names[0]] else acc)
  }

  function Routed(routes: seq<Route>, recipients: seq<string>, boxes: set<string>): seq<string> {
    Admit(Wanted(routes, recipients), boxes, [])
  }

  lemma {:induction false} AdmitAppend(a: seq<string>, b: seq<string>, boxes: set<string>, acc: seq<string>)
    ensures Admit(a + b, boxes, acc) == Admit(b, boxes, Admit(a, boxes, acc))
  {
    if a == [] {
      assert a + b == b;
    } else {
      var acc' := if a[0] !in acc && a[0] in boxes then acc + [a[0]] else acc;
      assert (a + b)[1..] == a[1..] + b;
      AdmitAppend(a[1..], b, boxes, acc');
    }
  }

  lemma {:induction false} WantedAppend(routes: seq<Route>, a: seq<string>, b: seq<string>)
    ensures Wanted(routes, a + b) == Wanted(routes, a) + Wanted(routes, b)
  {
    if a == [] {
      assert a + b == b;
    } else {
      assert (a + b)[1..] == a[1..] + b;
      WantedAppend(routes, a[1..], b);
      Assoc(Named(routes, a[0]), Wanted(routes, a[1..]), Wanted(routes, b));
    }
  }

  lemma {:induction false} AdmitProperties(names: seq<string>, boxes: set<string>, acc: seq<string>)
    requires Distinct(acc)
    ensures Distinct(Admit(names, boxes, acc))
    ensures acc <= Admit(names, boxes, acc)
    ensures forall x :: x in Admit(names, boxes, acc) <==> x in acc || (x in names && x in boxes)
  {
    if names != [] {
      var acc' := if names[0] !in acc && names[0] in boxes then acc + [names[0]] else acc;
      AdmitProperties(names[1..], boxes, acc');
      assert names == [names[0]] + names[1..];
    }
  }

  lemma {:induction false} WantedMembers(routes: seq<Route>, recipients: seq<string>, x: string)
    ensures x in Wanted(routes, recipients)
            <==> exists i :: 0 <= i < |recipients| && x in Named(routes, recipients[i])
  {
    if recipients != [] {
      WantedMembers(routes, recipients[1..], x);
      if i :| 0 <= i < |recipients| && x in Named(routes, recipients[i]) {
        if i > 0 {
          assert recipients[1..][i - 1] == recipients[i];
        }
      }
      if j :| 0 <= j < |recipients[1..]| && x in Named(routes, recipients[1..][j]) {
        assert recipients[j + 1] == recipients[1..][j];
      }
    }
  }

  /** No duplicates, and membership exactly by some recipient's first matching rule. */
  lemma RoutedIff(routes: seq<Route>, recipients: seq<string>, boxes: set<string>)
    ensures Distinct(Routed(routes, recipients, boxes))
    ensures forall x :: x in Routed(routes, recipients, boxes)
              <==> x in boxes && exists i :: 0 <= i < |recipients| && x in Named(routes, recipients[i])
  {
    AdmitProperties(Wanted(routes, recipients), boxes, []);
    forall x ensures x in Wanted(routes, recipients)
                     <==> exists i :: 0 <= i < |recipients| && x in Named(routes, recipients[i])
    {
      WantedMembers(routes, recipients, x);
    }
  }

  function FirstIndex(names: seq<string>, x: string): nat {
    if names == [] || names[0] == x then 0 else 1 + FirstIndex(names[1..], x)
  }

  lemma {:induction false} FirstIndexOfInit(names: seq<string>, last: string, x: string)
    ensures x in names ==> FirstIndex(names + [last], x) == FirstIndex(names, x) < |names|
    ensures x !in names ==> FirstIndex(names + [last], x) >= |names|
  {
    if names != [] && names[0] != x {
      FirstIndexOfInit(names[1..], last, x);
      assert (names + [last])[1..] == names[1..] + [last];
    }
  }

  /** The result lists mailboxes by where they are first named. */
  lemma {:induction false} AdmitOrder(names: seq<string>, boxes: set<string>, i: nat, j: nat)
    requires i < j < |Admit(names, boxes, [])|
    ensures FirstIndex(names, Admit(names, boxes, [])[i]) < FirstIndex(names, Admit(names, boxes, [])[j])
  {
    if names != [] {
      var init, last := names[..|names| - 1], names[|names| - 1];
      assert names == init + [last];
      AdmitAppend(init, [last], boxes, []);
      AdmitProperties(init, boxes, []);
      var before, after := Admit(init, boxes, []), Admit(names, boxes, []);
      assert after == Admit([last], boxes, before);
      assert [last][1..] == [];
      assert after == before || (last !in before && last in boxes && after == before + [last]);
      assert after[i] == before[i] && before[i] in before;
      FirstIndexOfInit(init, last, after[i]);
      FirstIndexOfInit(init, last, after[j]);
      if j < |before| {
        AdmitOrder(init, boxes, i, j);
        assert before[j] in before;
      }
    }
  }

  lemma RoutedInFirstNamedOrder(routes: seq<Route>, recipients: seq<string>, boxes: set<string>, i: nat, j: nat)
    requires i < j < |Routed(routes, recipients, boxes)|
    ensures FirstIndex(Wanted(routes, recipients), Routed(routes, recipients, boxes)[i])
            < FirstIndex(Wanted(routes, recipients), Routed(routes, recipients, boxes)[j])
  {
    AdmitOrder(Wanted(routes, recipients), boxes, i, j);
  }

  /** One more recipient only adds mailboxes at the end. */
  lemma MoreRecipientsExtend(routes: seq<Route>, recipients: seq<string>, more: seq<string>, boxes: set<string>)
    ensures Routed(routes, recipients, boxes) <= Routed(routes, recipients + more, boxes)
  {
    WantedAppend(routes, recipients, more);
    AdmitAppend(Wanted(routes, recipients), Wanted(routes, more), boxes, []);
    AdmitProperties(Wanted(routes, recipients), boxes, []);
    AdmitProperties(Wanted(routes, more), boxes, Routed(routes, recipients, boxes));
  }

  lemma {:induction false} FirstMatchBeforeCatchAll(routes: seq<Route>, catchAll: Route, later: seq<Route>, recipient: string)
    requires catchAll.pattern == "*"
    ensures FirstMatch(routes + [catchAll] + later, recipient) == FirstMatch(routes + [catchAll], recipient)
  {
    var short, long := routes + [catchAll], routes + [catchAll] + later;
    assert Lower("*") == "*";
    if routes != [] {
      assert long[1..] == routes[1..] + [catchAll] + later;
      assert short[1..] == routes[1..] + [catchAll];
      FirstMatchBeforeCatchAll(routes[1..], catchAll, later, recipient);
    }
  }

  /** Rules after a catch-all never matter, and with one every recipient is routed. */
  lemma {:induction false} NothingAfterCatchAll(
    routes: seq<Route>, catchAll: Route, later: seq<Route>, recipients: seq<string>, boxes: set<string>)
    requires catchAll.pattern == "*"
    ensures Wanted(routes + [catchAll] + later, recipients) == Wanted(routes + [catchAll], recipients)
    ensures Routed(routes + [catchAll] + later, recipients, boxes) == Routed(routes + [catchAll], recipients, boxes)
  {
    if recipients != [] {
      FirstMatchBeforeCatchAll(routes, catchAll, later, recipients[0]);
      NothingAfterCatchAll(routes, catchAll, later, recipients[1..], boxes);
    }
  }

  lemma {:induction false} FirstMatchFrom(routes: seq<Route>, i: nat, recipient: string)
    requires i <= |routes|
    requires forall k | 0 <= k < i :: !routes[k].Matches(recipient)
    ensures FirstMatch(routes, recipient) == FirstMatch(routes[i..], recipient)
  {
    if i == 0 {
      assert routes[0..] == routes;
    } else {
      FirstMatchFrom(routes[1..], i - 1, recipient);
      assert routes[1..][i - 1..] == routes[i..];
    }
  }

  /** The inner loops for one recipient: the first matching rule, then its mailboxes. */
  method AdmitRecipient(routes: seq<Route>, recipient: string, boxes: set<string>,
                        seen: map<string, bool>, matched: seq<string>)
    returns (seen': map<string, bool>, matched': seq<string>)
    requires forall x :: x in seen <==> x in matched
    ensures forall x :: x in seen' <==> x in matched'
    ensures matched' == Admit(Named(routes, recipient), boxes, matched)
  {
    seen', matched' := seen, matched;
    for i := 0 to |routes|
      invariant forall k | 0 <= k < i :: !routes[k].Matches(recipient)
      invariant seen' == seen && matched' == matched
    {
      if !routes[i].Matches(recipient) {
        continue;
      }
      FirstMatchFrom(routes, i, recipient);
      var names := routes[i].mailboxes;
      assert names[0..] == names;
      for j := 0 to |names|
        invariant forall x :: x in seen' <==> x in matched'
        invariant Admit(names, boxes, matched) == Admit(names[j..], boxes, matched')
      {
        assert names[j..][1..] == names[j + 1..];
        if names[j] !in seen' && names[j] in boxes {
          seen' := seen'[names[j] := true];
          matched' := matched' + [names[j]];
        }
      }
      return;
    }
    FirstMatchFrom(routes, |routes|, recipient);
  }

  method MatchRoutes(routes: seq<Route>, recipients: seq<string>, boxes: set<string>)
    returns (matched: seq<string>)
    ensures matched == Routed(routes, recipients, boxes)
  {
    matched := [];
    var seen: map<string, bool> := map[];
    assert recipients[0..] == recipients;
    for i := 0 to |recipients|
      invariant forall x :: x in seen <==> x in matched
      invariant Routed(routes, recipients, boxes) == Admit(Wanted(routes, recipients[i..]), boxes, matched)
    {
      assert recipients[i..][1..] == recipients[i + 1..];
      AdmitAppend(Named(routes, recipients[i]), Wanted(routes, recipients[i + 1..]), boxes, matched);
      seen, matched := AdmitRecipient(routes, recipients[i], boxes, seen, matched);
    }
  }

  // ---------------------------------------------------------------------------
  // The order of precedence
  // ---------------------------------------------------------------------------

  /** The value of the first line of the message head that starts with `name:`. */
  function HeaderIn(lines: seq<string>, prefix: string): string {
    if lines == [] then ""
    else if HasPrefix(Lower(lines[0]), prefix) then TrimSpace(lines[0][|prefix|..])
    else HeaderIn(lines[1..], prefix)
  }

  function LinesOf(text: string): (lines: seq<string>)
    decreases |text|
  {
    var i := IndexOf(text, "\r\n");
    if i == |text| then [text] else [text[..i]] + LinesOf(text[i + 2..])
  }

  function HeaderValue(body: Bytes, name: string): string {
    var text := Chars(body);
    HeaderIn(LinesOf(text[..IndexOf(text, "\r\n\r\n")]), Lower(name) + ":")
  }

  /** The mailbox an explicit routing header picks, if it exists. */
  function ByHeader(options: RoutingOptions, body: Bytes, boxes: set<string>): Option<string> {
    var candidate := Lower(TrimSpace(HeaderValue(body, ROUTING_HEADER)));
    if options.headerRouting && HeaderValue(body, ROUTING_HEADER) != "" && candidate in boxes
    then Some(candidate) else None
  }

  function ByUser(options: RoutingOptions, username: string, boxes: set<string>): Option<string> {
    var candidate := Lower(TrimSpace(username));
    if options.userRouting && username != "" && candidate in boxes then Some(candidate) else None
  }

  function ResolveMailboxes(
    options: RoutingOptions, username: string, body: Bytes, recipients: seq<string>, boxes: set<string>): seq<string>
  {
    match ByHeader(options, body, boxes)
    case Some(name) => [name]
    case None =>
      var matched := Routed(options.routes, recipients, boxes);
      if matched != [] then matched
      else
        match ByUser(options, username, boxes)
        case Some(name) => [name]
        case None => [options.defaultMailbox]
  }

  /** There is always somewhere to put a message, and never twice in the same place. */
  lemma ResolvedIsUsable(
    options: RoutingOptions, username: string, body: Bytes, recipients: seq<string>, boxes: set<string>)
    requires options.defaultMailbox in boxes
    ensures var r := ResolveMailboxes(options, username, body, recipients, boxes);
            && r != [] && Distinct(r) && (forall x | x in r :: x in boxes)
            && (|r| > 1 ==> r == Routed(options.routes, recipients, boxes))
  {
    RoutedIff(options.routes, recipients, boxes);
  }
}
