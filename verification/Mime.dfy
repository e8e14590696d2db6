/**
 The walk over a MIME tree: which parts are shown, which become attachments, in what
 order and under which part numbers.
 */
module Mime {
  import opened Bytes
  import opened Sequences
  import opened Text

  /** Containers nested deeper than this are not entered. */
  const MAX_DEPTH: nat := 12

  /**
   A MIME entity after its headers and transfer encoding were decoded. `broken` says
   that reading the parts of a container ended in an error.
   */
  datatype Part =
    | Single(ctype: string, disposition: string, filename: string, content: string)
    | Multi(ctype: string, boundary: string, parts: seq<Part>, broken: bool, content: string)

  datatype Kind = Plain | Html | Attached

  datatype Attachment = Attachment(partID: string, content: string)

  /** One processed entity; `path` numbers the parts from the root, starting at 1. */
  datatype Visit = Visit(path: seq<nat>, kind: Kind, content: string)

  function KindOf(ctype: string, disposition: string, filename: string): Kind {
    var isAttachment :=
      || disposition == "attachment" || filename != ""
      || (ctype != "" && !HasPrefix(ctype, "text/") && !HasPrefix(ctype, "message/"));
    if !isAttachment && (ctype == "" || ctype == "text/plain") then Plain
    else if !isAttachment && ctype == "text/html" then Html
    else Attached
  }

  /** Marked as an attachment, or with a file name, an entity is attached. Otherwise its media type decides. */
  lemma KindIs(ctype: string, disposition: string, filename: string)
    ensures var inline := disposition != "attachment" && filename == "";
            && (KindOf(ctype, disposition, filename) == Plain <==> inline && ctype in {"", "text/plain"})
            && (KindOf(ctype, disposition, filename) == Html <==> inline && ctype == "text/html")
  {
    assert HasPrefix("text/plain", "text/") && HasPrefix("text/html", "text/");
    assert "text/plain" != "text/html";
  }

  // ---------------------------------------------------------------------------
  // The walk as a function of the tree
  // ---------------------------------------------------------------------------

  function Visits(p: Part, path: seq<nat>): seq<Visit>
    decreases p
  {
    if |path| > MAX_DEPTH then []
    else
      match p
      case Single(ctype, disposition, filename, content) =>
        [Visit(path, KindOf(ctype, disposition, filename), content)]
      case Multi(_, boundary, parts, broken, content) =>
        if boundary == "" then [Visit(path, Attached, content)]
        else if parts == [] && broken then [Visit(path, Plain, content)]
        else VisitsFrom(p, path, 0)
  }

  /** The visits below a container from part `i` on. */
  function VisitsFrom(p: Part, path: seq<nat>, i: nat): seq<Visit>
    requires p.Multi? && i <= |p.parts|
    decreases p, |p.parts| - i + 1
  {
    if i == |p.parts| then []
    else Visits(p.parts[i], path + [i + 1]) + VisitsFrom(p, path, i + 1)
  }

  /** The entity reached by following part numbers. */
  function At(p: Part, path: seq<nat>): Option<Part>
    decreases |path|
  {
    if path == [] then Some(p)
    else if p.Multi? && p.boundary != "" && 1 <= path[0] <= |p.parts| then At(p.parts[path[0] - 1], path[1..])
    else None
  }

  /** The walk shows or attaches this entity itself instead of entering it. */
  ghost predicate IsLeaf(p: Part) {
    p.Single? || p.boundary == "" || (p.parts == [] && p.broken)
  }

  ghost predicate LeafAt(p: Part, path: seq<nat>) {
    At(p, path).Some? && IsLeaf(At(p, path).value)
  }

  /** Document order: the paths part ways at some point, and `a` takes the earlier part. */
  ghost predicate Before(a: seq<nat>, b: seq<nat>) {
    exists k :: 0 <= k < |a| && k < |b| && a[..k] == b[..k] && a[k] < b[k]
  }

  ghost predicate InOrder(visits: seq<Visit>) {
    forall i, j | 0 <= i < j < |visits| :: Before(visits[i].path, visits[j].path)
  }

  lemma {:induction false} VisitsExtendPath(p: Part, path: seq<nat>)
    ensures forall v | v in Visits(p, path) :: path <= v.path
    decreases p
  {
    if |path| <= MAX_DEPTH && p.Multi? && p.boundary != "" && !(p.parts == [] && p.broken) {
      VisitsFromExtendPath(p, path, 0);
    }
  }

  lemma {:induction false} VisitsFromExtendPath(p: Part, path: seq<nat>, i: nat)
    requires p.Multi? && i <= |p.parts|
    ensures forall v | v in VisitsFrom(p, path, i) :: path < v.path && v.path[|path|] > i
    decreases p, |p.parts| - i + 1
  {
    if i < |p.parts| {
      VisitsExtendPath(p.parts[i], path + [i + 1]);
      VisitsFromExtendPath(p, path, i + 1);
      forall v | v in VisitsFrom(p, path, i) ensures path < v.path && v.path[|path|] > i {
        if v in Visits(p.parts[i], path + [i + 1]) {
          assert path + [i + 1] <= v.path;
          assert v.path[|path|] == (path + [i + 1])[|path|];
          assert path <= path + [i + 1];
        }
      }
    }
  }

  /** Entities are processed in document order, so none is processed twice. */
  lemma {:induction false} VisitsInOrder(p: Part, path: seq<nat>)
    ensures InOrder(Visits(p, path))
    decreases p
  {
    if |path| <= MAX_DEPTH && p.Multi? && p.boundary != "" && !(p.parts == [] && p.broken) {
      VisitsFromInOrder(p, path, 0);
    }
  }

  lemma {:induction false} VisitsFromInOrder(p: Part, path: seq<nat>, i: nat)
    requires p.Multi? && i <= |p.parts|
    ensures InOrder(VisitsFrom(p, path, i))
    decreases p, |p.parts| - i + 1
  {
    if i < |p.parts| {
      var here, later := Visits(p.parts[i], path + [i + 1]), VisitsFrom(p, path, i + 1);
      VisitsInOrder(p.parts[i], path + [i + 1]);
      VisitsFromInOrder(p, path, i + 1);
      VisitsExtendPath(p.parts[i], path + [i + 1]);
      VisitsFromExtendPath(p, path, i + 1);
      var all: seq<Visit> := here + later;
      forall a, b | 0 <= a < |here| <= b < |all| ensures Before(all[a].path, all[b].path) {
        var u, v := all[a], all[b];
        assert u in here && v in later;
        assert path + [i + 1] <= u.path && path < v.path;
        assert u.path[..|path|] == path == v.path[..|path|];
        assert u.path[|path|] == i + 1 < v.path[|path|];
      }
    }
  }

  /** How a leaf is shown: a container without a boundary is attached, a broken one shown as text. */
  ghost function LeafVisit(path: seq<nat>, leaf: Part): Visit
    requires IsLeaf(leaf)
  {
    match leaf
    case Single(ctype, disposition, filename, content) => Visit(path, KindOf(ctype, disposition, filename), content)
    case Multi(_, boundary, _, _, content) => Visit(path, if boundary == "" then Attached else Plain, content)
  }

  /** What is processed at a position is the leaf that stands there. */
  ghost predicate ShowsLeaf(v: Visit, p: Part, path: seq<nat>, below: seq<nat>) {
    v.path == path + below ==> LeafAt(p, below) && v == LeafVisit(path + below, At(p, below).value)
  }

  /** Exactly the leaves within the depth limit are processed, each with its kind and content. */
  lemma {:induction false} VisitedIff(p: Part, path: seq<nat>, below: seq<nat>)
    ensures (exists v :: v in Visits(p, path) && v.path == path + below)
            <==> |path + below| <= MAX_DEPTH && LeafAt(p, below)
    ensures forall v | v in Visits(p, path) :: ShowsLeaf(v, p, path, below)
    decreases p
  {
    if |path| > MAX_DEPTH {
    } else if IsLeaf(p) {
      assert Visits(p, path) == [Visits(p, path)[0]];
      assert Visits(p, path)[0].path == path;
      if below == [] {
        assert path + below == path;
        assert Visits(p, path)[0] in Visits(p, path);
      } else {
        assert path + below != path;
      }
    } else {
      VisitedFromIff(p, path, 0, below);
    }
  }

  lemma {:induction false} VisitedFromIff(p: Part, path: seq<nat>, i: nat, below: seq<nat>)
    requires p.Multi? && p.boundary != "" && i <= |p.parts| && |path| <= MAX_DEPTH
    ensures (exists v :: v in VisitsFrom(p, path, i) && v.path == path + below)
            <==> below != [] && below[0] > i && |path + below| <= MAX_DEPTH && LeafAt(p, below)
    ensures forall v | v in VisitsFrom(p, path, i) :: ShowsLeaf(v, p, path, below)
    decreases p, |p.parts| - i + 1
  {
    VisitsFromExtendPath(p, path, i);
    if below == [] {
      assert path + below == path;
    } else if i < |p.parts| {
      var sub := path + [i + 1];
      VisitedFromIff(p, path, i + 1, below);
      VisitsExtendPath(p.parts[i], sub);
      if below[0] == i + 1 {
        VisitedIff(p.parts[i], sub, below[1..]);
        assert sub + below[1..] == path + below;
        assert At(p, below) == At(p.parts[i], below[1..]);
        assert forall v | v in Visits(p.parts[i], sub) :: ShowsLeaf(v, p.parts[i], sub, below[1..]);
      } else {
        forall v | v in Visits(p.parts[i], sub) ensures v.path != path + below {
          assert sub <= v.path;
          assert v.path[|path|] == sub[|path|] == i + 1;
          assert (path + below)[|path|] == below[0];
        }
      }
    }
  }

  // ---------------------------------------------------------------------------
  // Part numbers
  // ---------------------------------------------------------------------------

  lemma DigitsDiffer(a: nat, b: nat)
    requires a < 10 && b < 10 && "0123456789"[a] == "0123456789"[b]
    ensures a == b
  {
  }

  lemma {:induction false} DecimalInjective(a: nat, b: nat)
    requires Decimal(a) == Decimal(b)
    ensures a == b
  {
    var s, t := Decimal(a), Decimal(b);
    assert s[|s| - 1] == "0123456789"[a % 10] && t[|t| - 1] == "0123456789"[b % 10];
    DigitsDiffer(a % 10, b % 10);
    if a >= 10 && b >= 10 {
      assert s[..|s| - 1] == Decimal(a / 10) && t[..|t| - 1] == Decimal(b / 10);
      DecimalInjective(a / 10, b / 10);
    }
  }

  /** The dotted form of a path. */
  function Dotted(path: seq<nat>): string {
    if path == [] then "" else "." + Decimal(path[0]) + Dotted(path[1..])
  }

  /** The number of a part: the root is 1, its second part 1.2, and so on. */
  function PartID(path: seq<nat>): string {
    "1" + Dotted(path)
  }

  lemma {:induction false} DottedAppend(path: seq<nat>, n: nat)
    ensures Dotted(path + [n]) == Dotted(path) + "." + Decimal(n)
  {
    if path == [] {
      assert path + [n] == [n] && [n][1..] == [];
      assert "." + Decimal(n) + "" == "" + "." + Decimal(n);
    } else {
      assert (path + [n])[1..] == path[1..] + [n];
      DottedAppend(path[1..], n);
    }
  }

  /** The root is 1, and the parts below a part are numbered behind its own number. */
  lemma PartNumbers(path: seq<nat>, n: nat)
    ensures PartID([]) == "1" && PartID(path + [n]) == PartID(path) + "." + Decimal(n)
  {
    DottedAppend(path, n);
  }

  lemma PartIDBelow(path: seq<nat>, n: nat)
    ensures PartID(path + [n]) == PartID(path) + "." + Decimal(n)
  {
    DottedAppend(path, n);
    Assoc("1", Dotted(path) + ".", Decimal(n));
    Assoc("1", Dotted(path), ".");
  }

  lemma DottedHead(path: seq<nat>)
    requires path != []
    ensures Dotted(path) == ['.'] + (Decimal(path[0]) + Dotted(path[1..]))
  {
    Assoc(['.'], Decimal(path[0]), Dotted(path[1..]));
  }

  lemma CutDigits(digits: string, rest: string)
    requires '.' !in digits && (rest != "" ==> rest[0] == '.')
    ensures match Cut(digits + rest, '.')
            case None => rest == "" && digits + rest == digits
            case Some(p) => p.0 == digits && "." + p.1 == rest
  {
    if rest == "" {
      assert digits + rest == digits;
    } else {
      assert rest == ['.'] + rest[1..];
      assert digits + rest == digits + ['.'] + rest[1..];
      CutAt(digits, '.', rest[1..]);
    }
  }

  lemma {:induction false} DottedInjective(a: seq<nat>, b: seq<nat>)
    requires Dotted(a) == Dotted(b)
    ensures a == b
  {
    if a != [] && b != [] {
      DottedTails(a, b);
      DottedInjective(a[1..], b[1..]);
      assert a == [a[0]] + a[1..] && b == [b[0]] + b[1..];
    } else if a != [] {
      DottedHead(a);
    } else if b != [] {
      DottedHead(b);
    }
  }

  lemma DottedTails(a: seq<nat>, b: seq<nat>)
    requires a != [] && b != [] && Dotted(a) == Dotted(b)
    ensures a[0] == b[0] && Dotted(a[1..]) == Dotted(b[1..])
  {
    var x, y := Decimal(a[0]) + Dotted(a[1..]), Decimal(b[0]) + Dotted(b[1..]);
    DottedHead(a);
    DottedHead(b);
    assert x == Dotted(a)[1..] == Dotted(b)[1..] == y;
    DottedStart(a[1..]);
    DottedStart(b[1..]);
    CutDigits(Decimal(a[0]), Dotted(a[1..]));
    CutDigits(Decimal(b[0]), Dotted(b[1..]));
    assert Decimal(a[0]) == Decimal(b[0]);
    DecimalInjective(a[0], b[0]);
    assert Dotted(a[1..]) == x[|Decimal(a[0])|..] && Dotted(b[1..]) == y[|Decimal(b[0])|..];
  }

  lemma DottedStart(path: seq<nat>)
    ensures Dotted(path) != "" ==> Dotted(path)[0] == '.'
  {
  }

  // ---------------------------------------------------------------------------
  // What the walk leaves behind
  // ---------------------------------------------------------------------------

  function Append(shown: string, s: string): string {
    (if shown != "" then shown + "\n" else shown) + s
  }

  /** The visible text after showing all visits of one kind. */
  function Shown(shown: string, kind: Kind, visits: seq<Visit>): string
    decreases visits
  {
    if visits == [] then shown
    else Shown(if visits[0].kind == kind then Append(shown, visits[0].content) else shown, kind, visits[1..])
  }

  function Attachments(visits: seq<Visit>): seq<Attachment> {
    if visits == [] then []
    else
      (if visits[0].kind == Attached then [Attachment(PartID(visits[0].path), visits[0].content)] else [])
      + Attachments(visits[1..])
  }

  lemma {:induction false} ShownAppend(shown: string, kind: Kind, a: seq<Visit>, b: seq<Visit>)
    ensures Shown(shown, kind, a + b) == Shown(Shown(shown, kind, a), kind, b)
    decreases a
  {
    if a == [] {
      assert a + b == b;
    } else {
      assert (a + b)[1..] == a[1..] + b;
      ShownAppend(if a[0].kind == kind then Append(shown, a[0].content) else shown, kind, a[1..], b);
    }
  }

  function ContentsOf(kind: Kind, visits: seq<Visit>): seq<string> {
    if visits == [] then []
    else (if visits[0].kind == kind then [visits[0].content] else []) + ContentsOf(kind, visits[1..])
  }

  lemma {:induction false} ShownBehind(shown: string, kind: Kind, visits: seq<Visit>)
    requires shown != "" && forall v | v in visits && v.kind == kind :: v.content != ""
    ensures Shown(shown, kind, visits) == Join([shown] + ContentsOf(kind, visits), "\n")
    decreases visits
  {
    if visits == [] {
      assert [shown] + [] == [shown];
    } else {
      var rest := ContentsOf(kind, visits[1..]);
      if visits[0].kind == kind {
        var next := shown + "\n" + visits[0].content;
        ShownBehind(next, kind, visits[1..]);
        JoinTwo(shown, visits[0].content, rest);
        assert [visits[0].content] + rest == ContentsOf(kind, visits);
      } else {
        ShownBehind(shown, kind, visits[1..]);
        assert [] + rest == rest;
      }
    }
  }

  lemma JoinTwo(a: string, b: string, rest: seq<string>)
    ensures Join([a] + ([b] + rest), "\n") == Join([a + "\n" + b] + rest, "\n")
  {
    var all := [a] + ([b] + rest);
    assert all[1..] == [b] + rest;
    if rest == [] {
      assert all == [a, b] && [b] + rest == [b] && [a + "\n" + b] + rest == [a + "\n" + b];
      assert Join([b], "\n") == b;
    } else {
      assert ([b] + rest)[1..] == rest && ([a + "\n" + b] + rest)[1..] == rest;
    }
  }

  /** The parts of a kind are shown one below the other, in their order. */
  lemma {:induction false} ShownInLines(kind: Kind, visits: seq<Visit>)
    requires forall v | v in visits && v.kind == kind :: v.content != ""
    ensures Shown("", kind, visits) == Join(ContentsOf(kind, visits), "\n")
    decreases visits
  {
    if visits != [] {
      var rest := ContentsOf(kind, visits[1..]);
      if visits[0].kind == kind {
        ShownBehind(visits[0].content, kind, visits[1..]);
        assert "" + visits[0].content == visits[0].content;
      } else {
        ShownInLines(kind, visits[1..]);
        assert [] + rest == rest;
      }
    }
  }

  lemma {:induction false} AttachmentsAppend(a: seq<Visit>, b: seq<Visit>)
    ensures Attachments(a + b) == Attachments(a) + Attachments(b)
  {
    if a == [] {
      assert a + b == b;
    } else {
      assert (a + b)[1..] == a[1..] + b;
      AttachmentsAppend(a[1..], b);
    }
  }

  lemma {:induction false} AttachmentSource(visits: seq<Visit>, i: nat) returns (k: nat)
    requires i < |Attachments(visits)|
    ensures k < |visits| && visits[k].kind == Attached
    ensures Attachments(visits)[i] == Attachment(PartID(visits[k].path), visits[k].content)
    ensures i == |Attachments(visits[..k])|
  {
    var head := if visits[0].kind == Attached then 1 else 0;
    if i < head {
      k := 0;
      assert visits[..0] == [];
    } else {
      var k' := AttachmentSource(visits[1..], i - head);
      k := k' + 1;
      assert visits[..k][1..] == visits[1..][..k'];
    }
  }

  /** No two attachments of a message share a part number. */
  lemma PartIDsUnique(root: Part)
    ensures forall i, j | 0 <= i < j < |Attachments(Visits(root, []))| ::
              Attachments(Visits(root, []))[i].partID != Attachments(Visits(root, []))[j].partID
  {
    var visits := Visits(root, []);
    VisitsInOrder(root, []);
    forall i, j | 0 <= i < j < |Attachments(visits)|
      ensures Attachments(visits)[i].partID != Attachments(visits)[j].partID
    {
      var k := AttachmentSource(visits, i);
      var l := AttachmentSource(visits, j);
      assert k != l;
      assert Before(visits[k].path, visits[l].path) || Before(visits[l].path, visits[k].path);
      if Attachments(visits)[i].partID == Attachments(visits)[j].partID {
        assert Dotted(visits[k].path) == PartID(visits[k].path)[1..];
        assert Dotted(visits[l].path) == PartID(visits[l].path)[1..];
        DottedInjective(visits[k].path, visits[l].path);
      }
    }
  }

  class Message {
    var text: string
    var html: string
    var attachments: seq<Attachment>

    constructor ()
      ensures text == "" && html == "" && attachments == []
    {
      text, html, attachments := "", "", [];
    }

    method AppendText(s: string)
      modifies this
      ensures text == Append(old(text), s) && html == old(html) && attachments == old(attachments)
    {
      if text != "" {
        text := text + "\n";
      }
      text := text + s;
    }

    method AppendHTML(s: string)
      modifies this
      ensures html == Append(old(html), s) && text == old(text) && attachments == old(attachments)
    {
      if html != "" {
        html := html + "\n";
      }
      html := html + s;
    }

    method AddAttachment(partID: string, content: string)
      modifies this
      ensures attachments == old(attachments) + [Attachment(partID, content)]
      ensures text == old(text) && html == old(html)
    {
      attachments := attachments + [Attachment(partID, content)];
    }

    /** The visits have been carried out on a message in the given state. */
    ghost predicate Reflects(visits: seq<Visit>, text0: string, html0: string, attachments0: seq<Attachment>)
      reads this
    {
      && text == Shown(text0, Plain, visits)
      && html == Shown(html0, Html, visits)
      && attachments == attachments0 + Attachments(visits)
    }

    /** One list of visits after another. */
    lemma ReflectsBoth(done: seq<Visit>, here: seq<Visit>, text0: string, html0: string, attachments0: seq<Attachment>)
      requires Reflects(here, Shown(text0, Plain, done), Shown(html0, Html, done), attachments0 + Attachments(done))
      ensures Reflects(done + here, text0, html0, attachments0)
    {
      ShownAppend(text0, Plain, done, here);
      ShownAppend(html0, Html, done, here);
      AttachmentsAppend(done, here);
      Assoc(attachments0, Attachments(done), Attachments(here));
    }

    method Show(ghost path: seq<nat>, partID: string, kind: Kind, content: string)
      requires partID == PartID(path)
      modifies this
      ensures Reflects([Visit(path, kind, content)], old(text), old(html), old(attachments))
    {
      ghost var visits := [Visit(path, kind, content)];
      assert visits[1..] == [];
      match kind
      case Plain => AppendText(content);
      case Html => AppendHTML(content);
      case Attached => AddAttachment(partID, content);
    }

    /** The recursive walk; `depth` counts the containers entered so far. */
    method Walk(p: Part, partID: string, depth: nat, ghost path: seq<nat>)
      requires partID == PartID(path) && depth == |path|
      modifies this
      ensures Reflects(Visits(p, path), old(text), old(html), old(attachments))
      decreases p
    {
      if depth > MAX_DEPTH {
        return;
      }
      match p
      case Single(ctype, disposition, filename, content) =>
        Show(path, partID, KindOf(ctype, disposition, filename), content);
      case Multi(ctype, boundary, parts, broken, content) =>
        if boundary == "" {
          Show(path, partID, Attached, content);
          return;
        }
        ghost var done: seq<Visit> := [];
        var index := 0;
        while index < |parts|
          invariant 0 <= index <= |parts|
          invariant done + VisitsFrom(p, path, index) == VisitsFrom(p, path, 0)
          invariant Reflects(done, old(text), old(html), old(attachments))
        {
          ghost var below: seq<nat> := path + [index + 1];
          ghost var here := Visits(parts[index], below);
          PartIDBelow(path, index + 1);
          Walk(parts[index], partID + "." + Decimal(index + 1), depth + 1, below);
          ReflectsBoth(done, here, old(text), old(html), old(attachments));
          Assoc(done, here, VisitsFrom(p, path, index + 1));
          done := done + here;
          index := index + 1;
        }
        assert done + [] == done;
        if broken && index == 0 {
          Show(path, partID, Plain, content);
        }
    }
  }

  /** What a message shows whose parts come to nothing: its whole body as text. */
  ghost function TextOf(root: Part, body: string): string {
    if Shown("", Plain, Visits(root, [])) == "" && Shown("", Html, Visits(root, [])) == "" && Attachments(Visits(root, [])) == []
    then body else Shown("", Plain, Visits(root, []))
  }

  /** Parsing the body of a whole message; nothing but an empty body shows nothing. */
  method WalkMessage(root: Part, body: string) returns (m: Message)
    ensures fresh(m)
    ensures m.attachments == Attachments(Visits(root, [])) && m.html == Shown("", Html, Visits(root, []))
    ensures m.text == TextOf(root, body)
    ensures m.text == "" && m.html == "" && m.attachments == [] ==> body == ""
  {
    m := new Message();
    m.Walk(root, "1", 0, []);
    if m.text == "" && m.html == "" && m.attachments == [] {
      m.text := body;
    }
  }
}
