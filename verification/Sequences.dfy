/** Splitting and searching, shared by the byte-level and the text-level components. */
module Sequences {

  /** No element of `s` is a separator. */
  ghost predicate Free<T(!new)>(s: seq<T>, seps: set<T>) {
    forall c | c in s :: c !in seps
  }

  lemma Assoc<T>(a: seq<T>, b: seq<T>, c: seq<T>)
    ensures (a + b) + c == a + (b + c)
  {
  }

  lemma PrefixGrows<T>(s: seq<T>, n: nat)
    requires 0 < n <= |s|
    ensures s[..n] == s[..n - 1] + [s[n - 1]]
  {
  }

  /** Cutting one element out of a longer sequence. */
  lemma CutCons<T>(x: T, rest: seq<T>, i: nat)
    requires i < |rest|
    ensures ([x] + rest)[..i + 1] + ([x] + rest)[i + 2..] == [x] + (rest[..i] + rest[i + 1..])
  {
  }

  /** The pieces between separators; never empty. */
  function Split<T(==)>(s: seq<T>, seps: set<T>): (pieces: seq<seq<T>>)
    ensures |pieces| >= 1
  {
    if s == [] then [[]]
    else
      var rest := Split(s[1..], seps);
      if s[0] in seps then [[]] + rest else [[s[0]] + rest[0]] + rest[1..]
  }

  lemma {:induction false} SplitWhole<T(!new)>(a: seq<T>, seps: set<T>)
    requires Free(a, seps)
    ensures Split(a, seps) == [a]
  {
    if a != [] {
      SplitWhole(a[1..], seps);
      assert a[0] in a;
      assert [a[0]] + a[1..] == a;
    }
  }

  lemma {:induction false} SplitPiece<T(!new)>(a: seq<T>, c: T, b: seq<T>, seps: set<T>)
    requires Free(a, seps) && c in seps
    ensures Split(a + [c] + b, seps) == [a] + Split(b, seps)
  {
    var s := a + [c] + b;
    if a == [] {
      assert s[1..] == b;
    } else {
      SplitPiece(a[1..], c, b, seps);
      assert s[1..] == a[1..] + [c] + b;
      assert a[0] in a;
      assert [a[0]] + a[1..] == a;
    }
  }

  /** Splitting splits the two sides of a separator. */
  lemma {:induction false} SplitBreak<T(!new)>(a: seq<T>, c: T, b: seq<T>, seps: set<T>)
    requires c in seps
    ensures Split(a + [c] + b, seps) == Split(a, seps) + Split(b, seps)
  {
    var s := a + [c] + b;
    if a == [] {
      assert s[1..] == b;
    } else {
      assert s[1..] == a[1..] + [c] + b;
      SplitBreak(a[1..], c, b, seps);
    }
  }

  lemma {:induction false} SplitOnceIff<T(!new)>(s: seq<T>, seps: set<T>)
    ensures |Split(s, seps)| == 1 <==> Free(s, seps)
    ensures |Split(s, seps)| == 1 ==> Split(s, seps) == [s]
  {
    if s != [] {
      SplitOnceIff(s[1..], seps);
      assert s == [s[0]] + s[1..] && s[0] in s;
    }
  }

  lemma {:induction false} SplitPiecesAreFree<T(!new)>(s: seq<T>, seps: set<T>)
    ensures forall i | 0 <= i < |Split(s, seps)| :: Free(Split(s, seps)[i], seps)
  {
    if s != [] {
      SplitPiecesAreFree(s[1..], seps);
    }
  }

  /** Pieces contain nothing that was not in the whole. */
  lemma {:induction false} SplitPiecesAreParts<T(!new)>(s: seq<T>, seps: set<T>, avoid: set<T>)
    requires Free(s, avoid)
    ensures forall i | 0 <= i < |Split(s, seps)| :: Free(Split(s, seps)[i], avoid)
  {
    if s != [] {
      SplitPiecesAreParts(s[1..], seps, avoid);
      assert s[0] in s;
    }
  }

  /** Pieces with `glue` between them. */
  function Join<T>(parts: seq<seq<T>>, glue: seq<T>): seq<T> {
    if parts == [] then []
    else if |parts| == 1 then parts[0]
    else parts[0] + glue + Join(parts[1..], glue)
  }

  lemma JoinCons<T>(first: seq<T>, rest: seq<seq<T>>, glue: seq<T>)
    ensures Join([first] + rest, glue) == if rest == [] then first else first + glue + Join(rest, glue)
  {
    assert ([first] + rest)[1..] == rest;
  }

  /** Splitting undoes joining with a separator. */
  lemma {:induction false} SplitOfJoin<T(!new)>(parts: seq<seq<T>>, c: T, seps: set<T>)
    requires parts != [] && c in seps
    requires forall i | 0 <= i < |parts| :: Free(parts[i], seps)
    ensures Split(Join(parts, [c]), seps) == parts
  {
    if |parts| == 1 {
      SplitWhole(parts[0], seps);
      assert parts == [parts[0]];
    } else {
      SplitOfJoin(parts[1..], c, seps);
      SplitPiece(parts[0], c, Join(parts[1..], [c]), seps);
      assert parts == [parts[0]] + parts[1..];
    }
  }

  /** Drops every `a` that stands directly before a `b`, scanning left to right. */
  function Collapse<T(==)>(s: seq<T>, a: T, b: T): seq<T> {
    if s == [] then []
    else if |s| >= 2 && s[0] == a && s[1] == b then [b] + Collapse(s[2..], a, b)
    else [s[0]] + Collapse(s[1..], a, b)
  }

  predicate HasPrefix<T(==)>(s: seq<T>, prefix: seq<T>) {
    prefix <= s
  }

  predicate HasSuffix<T(==)>(s: seq<T>, suffix: seq<T>) {
    |suffix| <= |s| && s[|s| - |suffix|..] == suffix
  }

  /** The start of the first occurrence of a non-empty pattern, or the length. */
  function IndexOf<T(==)>(s: seq<T>, pattern: seq<T>): (i: nat)
    requires pattern != []
    ensures i <= |s|
    ensures i < |s| ==> pattern <= s[i..]
    ensures forall j | 0 <= j < i :: !(pattern <= s[j..])
  {
    if s == [] || pattern <= s then 0
    else
      var k := IndexOf(s[1..], pattern);
      assert forall j | 1 <= j < 1 + k :: s[j..] == s[1..][j - 1..];
      assert k < |s[1..]| ==> s[1..][k..] == s[1 + k..];
      1 + k
  }

  ghost predicate Distinct<T>(s: seq<T>) {
    forall i, j | 0 <= i < j < |s| :: s[i] != s[j]
  }

  function Members<T(==)>(s: seq<T>): set<T> {
    set x | x in s
  }

  lemma DistinctTail<T>(s: seq<T>)
    requires Distinct(s) && s != []
    ensures Distinct(s[1..]) && s[0] !in s[1..]
  {
    assert forall i | 0 <= i < |s[1..]| :: s[1..][i] == s[i + 1];
  }

  lemma MembersSplit<T>(x: T, rest: seq<T>)
    ensures Members([x] + rest) == Members(rest) + {x}
  {
  }

  lemma {:induction false} DistinctCount<T>(s: seq<T>)
    requires Distinct(s)
    ensures |Members(s)| == |s|
  {
    if s != [] {
      DistinctTail(s);
      DistinctCount(s[1..]);
      MembersSplit(s[0], s[1..]);
      assert s == [s[0]] + s[1..];
    }
  }

  function Filter<T>(s: seq<T>, keep: T -> bool): seq<T> {
    if s == [] then []
    else (if keep(s[0]) then [s[0]] else []) + Filter(s[1..], keep)
  }

  lemma {:induction false} FilterAppend<T>(a: seq<T>, b: seq<T>, keep: T -> bool)
    ensures Filter(a + b, keep) == Filter(a, keep) + Filter(b, keep)
  {
    if a == [] {
      assert a + b == b;
    } else {
      var head := if keep(a[0]) then [a[0]] else [];
      assert (a + b)[1..] == a[1..] + b;
      calc {
        Filter(a + b, keep);
        head + Filter(a[1..] + b, keep);
        { FilterAppend(a[1..], b, keep); }
        head + (Filter(a[1..], keep) + Filter(b, keep));
        Filter(a, keep) + Filter(b, keep);
      }
    }
  }

  lemma {:induction false} FilterMembers<T>(s: seq<T>, keep: T -> bool)
    ensures forall x :: x in Filter(s, keep) <==> x in s && keep(x)
  {
    if s != [] {
      FilterMembers(s[1..], keep);
      assert s == [s[0]] + s[1..];
    }
  }
}
