/** Recipient routes: matching, the configuration syntax, and printing it back. */
module Routes {
  import opened Bytes
  import opened Sequences
  import opened Text

  datatype Route = Route(pattern: string, mailboxes: seq<string>) {

    /** Whether the route applies to a recipient address. */
    predicate Matches(address: string) {
      var a := Lower(TrimSpace(address));
      var p := Lower(pattern);
      if p == "*" then true
      else if HasPrefix(p, "*@") then HasSuffix(a, p[1..])
      else if HasPrefix(p, "@") then HasSuffix(a, p)
      else if HasSuffix(p, "@*") then HasPrefix(a, p[..|p| - 1])
      else a == p
    }

    /** The route the way the configuration writes it. */
    function ToString(): string {
      pattern + "=" + Join(mailboxes, ",")
    }
  }

  // ---------------------------------------------------------------------------
  // The forms of a pattern
  // ---------------------------------------------------------------------------

  lemma EndsIff(s: string, end: string)
    ensures HasSuffix(s, end) <==> exists front :: s == front + end
  {
    if HasSuffix(s, end) {
      assert s == s[..|s| - |end|] + end;
    }
  }

  lemma StartsIff(s: string, start: string)
    ensures HasPrefix(s, start) <==> exists rest :: s == start + rest
  {
    if HasPrefix(s, start) {
      assert s == start + s[|start|..];
    }
  }

  /** `*` is every address. */
  lemma CatchAll(mailboxes: seq<string>, address: string)
    ensures Route("*", mailboxes).Matches(address)
  {
    assert Lower("*") == "*";
  }

  /** `*@d` and `@d` are the addresses that end in `@d`, in any case and with white space around. */
  lemma DomainPattern(domain: string, mailboxes: seq<string>, address: string)
    ensures var same := exists local :: Lower(TrimSpace(address)) == local + Lower("@" + domain);
            && (Route("*@" + domain, mailboxes).Matches(address) <==> same)
            && (Route("@" + domain, mailboxes).Matches(address) <==> same)
  {
    var p, q, a := Lower("*@" + domain), Lower("@" + domain), Lower(TrimSpace(address));
    EndsIff(a, q);
    assert p[0] == '*' && p[1] == '@' && p[1..] == q && q[0] == '@';
    assert p[..2] == "*@" && q[..1] == "@";
  }

  lemma LowerStarts(s: string)
    ensures HasPrefix(Lower(s), "@") <==> HasPrefix(s, "@")
    ensures HasPrefix(Lower(s), "*@") <==> HasPrefix(s, "*@")
    ensures HasSuffix(Lower(s), "@*") <==> HasSuffix(s, "@*")
    ensures Lower(s) == "*" <==> s == "*"
  {
    var p := Lower(s);
    assert |s| >= 1 ==> (s[..1] == "@" <==> s[0] == '@') && (p[..1] == "@" <==> p[0] == '@');
    assert |s| >= 2 ==> (s[..2] == "*@" <==> s[0] == '*' && s[1] == '@') && (p[..2] == "*@" <==> p[0] == '*' && p[1] == '@');
    assert |s| >= 2 ==> (s[|s| - 2..] == "@*" <==> s[|s| - 2] == '@' && s[|s| - 1] == '*');
    assert |s| >= 2 ==> (p[|s| - 2..] == "@*" <==> p[|s| - 2] == '@' && p[|s| - 1] == '*');
  }

  /** `l@*` is the addresses that start with `l@`. */
  lemma LocalPattern(local: string, mailboxes: seq<string>, address: string)
    requires local != "" && local != "*" && !HasPrefix(local, "@") && !HasPrefix(local, "*@")
    ensures Route(local + "@*", mailboxes).Matches(address)
            <==> exists domain :: Lower(TrimSpace(address)) == Lower(local + "@") + domain
  {
    var s, a := local + "@*", Lower(TrimSpace(address));
    LowerStarts(s);
    StartsIff(a, Lower(local + "@"));
    assert Lower(s)[..|s| - 1] == Lower(local + "@");
    assert s[..1] == local[..1] && s[|s| - 2..] == "@*";
    assert |local| >= 2 ==> s[..2] == local[..2];
    assert |local| == 1 ==> s[0] == local[0] && (local[0] == '*' ==> local == "*");
  }

  /** Any other pattern is one address. */
  lemma PlainPattern(pattern: string, mailboxes: seq<string>, address: string)
    requires pattern != "*" && !HasPrefix(pattern, "@") && !HasPrefix(pattern, "*@") && !HasSuffix(pattern, "@*")
    ensures Route(pattern, mailboxes).Matches(address) <==> Lower(TrimSpace(address)) == Lower(pattern)
  {
    LowerStarts(pattern);
  }

  datatype RouteError =
    | NotPatternEqualsMailbox(rule: string)
    | TooManyWildcards(rule: string)
    | UnknownMailbox(rule: string, target: string)
    | NamesNoMailbox(rule: string)

  // ---------------------------------------------------------------------------
  // The parser as a function of the text
  // ---------------------------------------------------------------------------

  function Prepend<T, E>(head: seq<T>, tail: Result<seq<T>, E>): Result<seq<T>, E> {
    match tail
    case Ok(rest) => Ok(head + rest)
    case Err(e) => Err(e)
  }

  const RULE_ENDS: set<char> := {';', '\n'}

  function TargetsOf(rule: string, targets: seq<string>, known: set<string>): Result<seq<string>, RouteError> {
    if targets == [] then Ok([])
    else
      var target := Lower(TrimSpace(targets[0]));
      if target == "" then TargetsOf(rule, targets[1..], known)
      else if target !in known then Err(UnknownMailbox(rule, target))
      else Prepend([target], TargetsOf(rule, targets[1..], known))
  }

  function RuleOf(rule: string, known: set<string>): Result<Route, RouteError> {
    match Cut(rule, '=')
    case None => Err(NotPatternEqualsMailbox(rule))
    case Some(parts) =>
      var pattern := TrimSpace(parts.0);
      if pattern == "" then Err(NotPatternEqualsMailbox(rule))
      else if Count(pattern, '*') > 1 then Err(TooManyWildcards(rule))
      else
        match TargetsOf(rule, Split(parts.1, {','}), known)
        case Err(e) => Err(e)
        case Ok(mailboxes) =>
          if mailboxes == [] then Err(NamesNoMailbox(rule)) else Ok(Route(pattern, mailboxes))
  }

  function RulesOf(rules: seq<string>, known: set<string>): Result<seq<Route>, RouteError> {
    if rules == [] then Ok([])
    else
      var rule := TrimSpace(rules[0]);
      if rule == "" then RulesOf(rules[1..], known)
      else
        match RuleOf(rule, known)
        case Err(e) => Err(e)
        case Ok(route) => Prepend([route], RulesOf(rules[1..], known))
  }

  function Parsed(raw: string, known: set<string>): Result<seq<Route>, RouteError> {
    RulesOf(Split(TrimSpace(raw), RULE_ENDS), known)
  }

  // ---------------------------------------------------------------------------
  // The parser as it runs
  // ---------------------------------------------------------------------------

  lemma PrependNothing<T, E>(r: Result<seq<T>, E>)
    ensures Prepend([], r) == r
  {
    assert r.Ok? ==> [] + r.value == r.value;
  }

  lemma NoRules(known: set<string>)
    ensures RulesOf(Split("", RULE_ENDS), known) == Ok([])
  {
    var rules := Split("", RULE_ENDS);
    assert rules == [""] && rules[1..] == [];
    assert RulesOf(rules, known) == RulesOf(rules[1..], known);
  }

  lemma PrependTwice<T, E>(a: seq<T>, b: seq<T>, r: Result<seq<T>, E>)
    ensures Prepend(a, Prepend(b, r)) == Prepend(a + b, r)
  {
    assert r.Ok? ==> a + (b + r.value) == (a + b) + r.value;
  }

  /** The loop over the comma-separated targets of one rule. */
  method ParseTargets(rule: string, targets: seq<string>, known: set<string>)
    returns (r: Result<seq<string>, RouteError>)
    ensures r == TargetsOf(rule, targets, known)
  {
    var mailboxes: seq<string> := [];
    assert targets[0..] == targets;
    PrependNothing(TargetsOf(rule, targets, known));
    for j := 0 to |targets|
      invariant TargetsOf(rule, targets, known) == Prepend(mailboxes, TargetsOf(rule, targets[j..], known))
    {
      var target := Lower(TrimSpace(targets[j]));
      assert targets[j..][1..] == targets[j + 1..];
      if target == "" {
        continue;
      }
      if target !in known {
        return Err(UnknownMailbox(rule, target));
      }
      PrependTwice(mailboxes, [target], TargetsOf(rule, targets[j + 1..], known));
      mailboxes := mailboxes + [target];
    }
    assert mailboxes + [] == mailboxes;
    return Ok(mailboxes);
  }

  method ParseRoutes(raw: string, known: set<string>) returns (r: Result<seq<Route>, RouteError>)
    ensures r == Parsed(raw, known)
  {
    var text := TrimSpace(raw);
    if text == "" {
      NoRules(known);
      return Ok([]);
    }
    var rules := Split(text, RULE_ENDS);
    var routes: seq<Route> := [];
    var i := 0;
    assert rules[0..] == rules;
    PrependNothing(RulesOf(rules, known));
    while i < |rules|
      invariant 0 <= i <= |rules|
      invariant RulesOf(rules, known) == Prepend(routes, RulesOf(rules[i..], known))
    {
      var rule := TrimSpace(rules[i]);
      assert rules[i..][1..] == rules[i + 1..];
      i := i + 1;
      if rule == "" {
        continue;
      }
      var cut := Cut(rule, '=');
      if cut.None? || TrimSpace(cut.value.0) == "" {
        return Err(NotPatternEqualsMailbox(rule));
      }
      var pattern := TrimSpace(cut.value.0);
      if Count(pattern, '*') > 1 {
        return Err(TooManyWildcards(rule));
      }
      var parsed := ParseTargets(rule, Split(cut.value.1, {','}), known);
      if parsed.Err? {
        return Err(parsed.error);
      }
      var mailboxes := parsed.value;
      if |mailboxes| == 0 {
        return Err(NamesNoMailbox(rule));
      }
      PrependTwice(routes, [Route(pattern, mailboxes)], RulesOf(rules[i..], known));
      routes := routes + [Route(pattern, mailboxes)];
    }
    assert routes + [] == routes;
    return Ok(routes);
  }

  // ---------------------------------------------------------------------------
  // What is accepted, and printing it
  // ---------------------------------------------------------------------------

  ghost predicate WellFormedTarget(target: string, known: set<string>) {
    && target != "" && IsTrimmed(target) && Lower(target) == target && target in known
    && Free(target, {',', ';', '\n'})
  }

  ghost predicate WellFormedTargets(targets: seq<string>, known: set<string>) {
    forall i | 0 <= i < |targets| :: WellFormedTarget(targets[i], known)
  }

  ghost predicate WellFormed(route: Route, known: set<string>) {
    && route.pattern != "" && IsTrimmed(route.pattern) && Free(route.pattern, {'=', ';', '\n'})
    && Count(route.pattern, '*') <= 1
    && route.mailboxes != []
    && WellFormedTargets(route.mailboxes, known)
  }

  ghost predicate AllWellFormed(routes: seq<Route>, known: set<string>) {
    forall i | 0 <= i < |routes| :: WellFormed(routes[i], known)
  }

  function Strings(routes: seq<Route>): (r: seq<string>)
    ensures |r| == |routes|
    ensures forall i | 0 <= i < |r| :: r[i] == routes[i].ToString()
  {
    seq(|routes|, i requires 0 <= i < |routes| => routes[i].ToString())
  }

  function Printed(routes: seq<Route>): string {
    Join(Strings(routes), ";")
  }

  lemma {:induction false} TargetsAreWellFormed(rule: string, targets: seq<string>, known: set<string>)
    requires forall i | 0 <= i < |targets| :: Free(targets[i], {',', ';', '\n'})
    ensures match TargetsOf(rule, targets, known)
            case Err(_) => true
            case Ok(r) => WellFormedTargets(r, known)
  {
    if targets == [] {
      assert WellFormedTargets([], known);
    } else {
      TargetsAreWellFormed(rule, targets[1..], known);
      var t := TrimSpace(targets[0]);
      TrimSpaceTrims(targets[0]);
      assert Free(targets[0], {',', ';', '\n'});
      LowerKeepsShape(t, {',', ';', '\n'});
      LowerIdempotent(t);
      var rest := TargetsOf(rule, targets[1..], known);
      if Lower(t) != "" && Lower(t) in known && rest.Ok? {
        assert WellFormedTarget(Lower(t), known);
        assert WellFormedTargets([Lower(t)] + rest.value, known);
      }
    }
  }

  lemma RuleIsWellFormed(rule: string, known: set<string>)
    requires Free(rule, RULE_ENDS)
    ensures RuleOf(rule, known).Ok? ==> WellFormed(RuleOf(rule, known).value, known)
  {
    var cut := Cut(rule, '=');
    if cut.Some? {
      var (left, right) := cut.value;
      assert forall c | c in left :: c in rule;
      assert forall c | c in right :: c in rule;
      TrimSpaceTrims(left);
      assert Free(right, {';', '\n'});
      SplitPiecesAreParts(right, {','}, {';', '\n'});
      SplitPiecesAreFree(right, {','});
      var targets := Split(right, {','});
      forall i | 0 <= i < |targets| ensures Free(targets[i], {',', ';', '\n'}) {
        assert Free(targets[i], {','}) && Free(targets[i], {';', '\n'});
      }
      TargetsAreWellFormed(rule, targets, known);
    }
  }

  lemma {:induction false} RulesAreWellFormed(rules: seq<string>, known: set<string>)
    requires forall i | 0 <= i < |rules| :: Free(rules[i], RULE_ENDS)
    ensures RulesOf(rules, known).Ok? ==> AllWellFormed(RulesOf(rules, known).value, known)
  {
    if rules != [] {
      RulesAreWellFormed(rules[1..], known);
      TrimSpaceTrims(rules[0]);
      assert Free(rules[0], RULE_ENDS);
      RuleIsWellFormed(TrimSpace(rules[0]), known);
    }
  }

  /** Everything the parser accepts is well formed. */
  lemma AcceptedIsWellFormed(raw: string, known: set<string>)
    ensures Parsed(raw, known).Ok? ==> AllWellFormed(Parsed(raw, known).value, known)
  {
    SplitPiecesAreFree(TrimSpace(raw), RULE_ENDS);
    RulesAreWellFormed(Split(TrimSpace(raw), RULE_ENDS), known);
  }

  lemma {:induction false} TargetsOfWellFormed(rule: string, targets: seq<string>, known: set<string>)
    requires WellFormedTargets(targets, known)
    ensures TargetsOf(rule, targets, known) == Ok(targets)
  {
    if targets != [] {
      assert WellFormedTarget(targets[0], known);
      TrimSpaceOfTrimmed(targets[0]);
      TargetsOfWellFormed(rule, targets[1..], known);
      assert [targets[0]] + targets[1..] == targets;
    }
  }

  lemma {:induction false} JoinIsTrimmed(parts: seq<string>, glue: char)
    requires parts != [] && glue < '\U{80}'
    requires forall i | 0 <= i < |parts| :: parts[i] != "" && IsTrimmed(parts[i])
    ensures Join(parts, [glue]) != "" && IsTrimmed(Join(parts, [glue]))
  {
    if |parts| > 1 {
      JoinIsTrimmed(parts[1..], glue);
      GluedIsTrimmed(parts[0], glue, Join(parts[1..], [glue]));
    }
  }

  lemma {:induction false} JoinIsFree(parts: seq<string>, glue: char, avoid: set<char>)
    requires glue !in avoid
    requires forall i | 0 <= i < |parts| :: Free(parts[i], avoid)
    ensures Free(Join(parts, [glue]), avoid)
  {
    if |parts| > 1 {
      JoinIsFree(parts[1..], glue, avoid);
      assert Free(parts[0], avoid);
    }
  }

  lemma PrintedRuleParses(route: Route, known: set<string>)
    requires WellFormed(route, known)
    ensures RuleOf(route.ToString(), known) == Ok(route)
    ensures route.ToString() != "" && IsTrimmed(route.ToString())
    ensures Free(route.ToString(), RULE_ENDS)
  {
    var targets := Join(route.mailboxes, ",");
    forall i | 0 <= i < |route.mailboxes|
      ensures route.mailboxes[i] != "" && IsTrimmed(route.mailboxes[i])
      ensures Free(route.mailboxes[i], RULE_ENDS) && Free(route.mailboxes[i], {','})
    {
      assert WellFormedTarget(route.mailboxes[i], known);
    }
    JoinIsTrimmed(route.mailboxes, ',');
    JoinIsFree(route.mailboxes, ',', RULE_ENDS);
    SplitOfJoin(route.mailboxes, ',', {','});
    CutAt(route.pattern, '=', targets);
    TrimSpaceOfTrimmed(route.pattern);
    GluedIsTrimmed(route.pattern, '=', targets);
    TargetsOfWellFormed(route.ToString(), route.mailboxes, known);
  }

  lemma FirstRule(route: Route, rules: seq<string>, known: set<string>)
    requires WellFormed(route, known)
    ensures RulesOf([route.ToString()] + rules, known) == Prepend([route], RulesOf(rules, known))
  {
    PrintedRuleParses(route, known);
    TrimSpaceOfTrimmed(route.ToString());
    assert ([route.ToString()] + rules)[1..] == rules;
  }

  lemma {:induction false} PrintedRulesParse(routes: seq<Route>, known: set<string>)
    requires AllWellFormed(routes, known)
    ensures RulesOf(Strings(routes), known) == Ok(routes)
  {
    if routes != [] {
      assert WellFormed(routes[0], known);
      FirstRule(routes[0], Strings(routes[1..]), known);
      PrintedRulesParse(routes[1..], known);
      assert Strings(routes) == [routes[0].ToString()] + Strings(routes[1..]);
      assert [routes[0]] + routes[1..] == routes;
    }
  }

  /** Printing a well-formed list and parsing it again gives the list back. */
  lemma ParseUndoesPrint(routes: seq<Route>, known: set<string>)
    requires AllWellFormed(routes, known)
    ensures Parsed(Printed(routes), known) == Ok(routes)
  {
    if routes == [] {
      NoRules(known);
    } else {
      var parts := Strings(routes);
      forall i | 0 <= i < |parts|
        ensures parts[i] != "" && IsTrimmed(parts[i]) && Free(parts[i], RULE_ENDS)
      {
        assert WellFormed(routes[i], known);
        PrintedRuleParses(routes[i], known);
      }
      JoinIsTrimmed(parts, ';');
      TrimSpaceOfTrimmed(Printed(routes));
      SplitOfJoin(parts, ';', RULE_ENDS);
      PrintedRulesParse(routes, known);
    }
  }

  /** Parsing, printing and parsing is the same as parsing. */
  lemma ParsePrintParse(raw: string, known: set<string>)
    ensures Parsed(raw, known).Ok? ==> Parsed(Printed(Parsed(raw, known).value), known) == Parsed(raw, known)
  {
    AcceptedIsWellFormed(raw, known);
    if Parsed(raw, known).Ok? {
      ParseUndoesPrint(Parsed(raw, known).value, known);
    }
  }

  // ---------------------------------------------------------------------------
  // What the parser skips
  // ---------------------------------------------------------------------------

  lemma {:induction false} BlankTargetsSkipped(rule: string, before: seq<string>, blank: string, behind: seq<string>, known: set<string>)
    requires TrimSpace(blank) == ""
    ensures TargetsOf(rule, before + [blank] + behind, known) == TargetsOf(rule, before + behind, known)
  {
    var long := before + [blank] + behind;
    if before == [] {
      assert long[1..] == behind && before + behind == behind;
      assert Lower("") == "";
    } else {
      assert long[1..] == before[1..] + [blank] + behind && (before + behind)[1..] == before[1..] + behind;
      BlankTargetsSkipped(rule, before[1..], blank, behind, known);
    }
  }

  /** Blank rules, as between two line ends, count for nothing. */
  lemma {:induction false} BlankRulesSkipped(before: seq<string>, blank: string, behind: seq<string>, known: set<string>)
    requires TrimSpace(blank) == ""
    ensures RulesOf(before + [blank] + behind, known) == RulesOf(before + behind, known)
  {
    var long := before + [blank] + behind;
    if before == [] {
      assert long[1..] == behind && before + behind == behind;
    } else {
      assert long[1..] == before[1..] + [blank] + behind && (before + behind)[1..] == before[1..] + behind;
      BlankRulesSkipped(before[1..], blank, behind, known);
    }
  }

  // ---------------------------------------------------------------------------
  // One rule and its targets
  // ---------------------------------------------------------------------------

  /** The targets as they are meant, trimmed and in lower case. */
  ghost predicate Mean(written: seq<string>, targets: seq<string>) {
    |written| == |targets| && forall i | 0 <= i < |targets| :: targets[i] == Lower(TrimSpace(written[i])) && targets[i] != ""
  }

  /** Known targets are taken in order, however they are written. */
  lemma {:induction false} TargetsGiven(rule: string, written: seq<string>, targets: seq<string>, known: set<string>)
    requires Mean(written, targets) && forall i | 0 <= i < |targets| :: targets[i] in known
    ensures TargetsOf(rule, written, known) == Ok(targets)
  {
    if written != [] {
      assert Mean(written[1..], targets[1..]);
      TargetsGiven(rule, written[1..], targets[1..], known);
      assert targets == [targets[0]] + targets[1..];
    }
  }

  /** The first unknown one is reported. */
  lemma {:induction false} FirstUnknown(rule: string, written: seq<string>, targets: seq<string>, known: set<string>, k: nat)
    requires Mean(written, targets) && k < |targets| && targets[k] !in known && forall i | 0 <= i < k :: targets[i] in known
    ensures TargetsOf(rule, written, known) == Err(UnknownMailbox(rule, targets[k]))
  {
    if k > 0 {
      assert Mean(written[1..], targets[1..]);
      FirstUnknown(rule, written[1..], targets[1..], known, k - 1);
    }
  }

  /** What a rule comes to: a pattern with at most one wildcard, and at least one known target. */
  lemma RuleGiven(pattern: string, written: seq<string>, targets: seq<string>, known: set<string>)
    requires '=' !in pattern && written != [] && Mean(written, targets)
    requires forall i | 0 <= i < |written| :: Free(written[i], {','})
    requires forall i | 0 <= i < |targets| :: targets[i] in known
    ensures var rule := pattern + "=" + Join(written, ",");
            RuleOf(rule, known)
            == if TrimSpace(pattern) == "" then Err(NotPatternEqualsMailbox(rule))
               else if Count(TrimSpace(pattern), '*') > 1 then Err(TooManyWildcards(rule))
               else Ok(Route(TrimSpace(pattern), targets))
  {
    var rule := pattern + "=" + Join(written, ",");
    CutAt(pattern, '=', Join(written, ","));
    SplitOfJoin(written, ',', {','});
    TargetsGiven(rule, written, targets, known);
  }

  /** Without `=` there is no rule. */
  lemma RuleNeedsEquals(rule: string, known: set<string>)
    requires '=' !in rule
    ensures RuleOf(rule, known) == Err(NotPatternEqualsMailbox(rule))
  {
    CutNowhere(rule, '=');
  }

  /** A semicolon and a line end separate rules alike. */
  lemma EitherEndsARule(a: string, b: string, known: set<string>)
    requires a != "" && IsVisible(a[0]) && b != "" && IsVisible(b[|b| - 1])
    ensures Parsed(a + [';'] + b, known) == Parsed(a + ['\n'] + b, known)
  {
    TrimSpaceAround("", a + [';'] + b, "");
    TrimSpaceAround("", a + ['\n'] + b, "");
    assert "" + (a + [';'] + b) + "" == a + [';'] + b && "" + (a + ['\n'] + b) + "" == a + ['\n'] + b;
    SplitBreak(a, ';', b, RULE_ENDS);
    SplitBreak(a, '\n', b, RULE_ENDS);
  }
}
