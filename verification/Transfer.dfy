/**
 Transfer encoding of message bodies: base64 (section 4 of RFC 4648) wrapped at 76
 characters (section 6.8 of RFC 2045), its tolerant decoder, and line-end
 normalisation.
 */
module Transfer {
  import opened Bytes
  import opened Sequences
  import opened Wire

  const PAD: byte := 61
  const SPACE: byte := 32
  const TAB: byte := 9
  const WRAP_COLUMN: nat := 76

  // ---------------------------------------------------------------------------
  // Line ends
  // ---------------------------------------------------------------------------

  /** Every CRLF becomes LF. */
  function ToLF(s: Bytes): Bytes {
    Collapse(s, CR, LF)
  }

  /** Every LF becomes CRLF. */
  function ToCRLF(s: Bytes): Bytes {
    if s == [] then []
    else (if s[0] == LF then CRLF else [s[0]]) + ToCRLF(s[1..])
  }

  function NormalizeCRLF(s: Bytes): Bytes {
    ToCRLF(ToLF(s))
  }

  lemma ToLFOfOther(c: byte, s: Bytes)
    requires c != CR || s == [] || s[0] != LF
    ensures ToLF([c] + s) == [c] + ToLF(s)
  {
    assert ([c] + s)[1..] == s;
  }

  lemma {:induction false} ToLFUndoesToCRLF(s: Bytes)
    ensures ToLF(ToCRLF(s)) == s
  {
    if s != [] {
      var rest := ToCRLF(s[1..]);
      ToLFUndoesToCRLF(s[1..]);
      assert [s[0]] + s[1..] == s;
      if s[0] == LF {
        assert ToCRLF(s) == CRLF + rest && (CRLF + rest)[2..] == rest;
      } else {
        assert rest != [] ==> rest[0] != LF;
        ToLFOfOther(s[0], rest);
      }
    }
  }

  lemma NormalizeIdempotent(s: Bytes)
    ensures NormalizeCRLF(NormalizeCRLF(s)) == NormalizeCRLF(s)
  {
    ToLFUndoesToCRLF(ToLF(s));
  }

  /** No LF without a CR right before it. */
  ghost predicate NoBareLF(s: Bytes) {
    forall i | 0 <= i < |s| && s[i] == LF :: i > 0 && s[i - 1] == CR
  }

  lemma {:induction false} ToCRLFHasNoBareLF(s: Bytes)
    ensures NoBareLF(ToCRLF(s))
    ensures ToCRLF(s) != [] ==> ToCRLF(s)[0] != LF
  {
    if s != [] {
      ToCRLFHasNoBareLF(s[1..]);
      var head, rest := if s[0] == LF then CRLF else [s[0]], ToCRLF(s[1..]);
      forall i | 0 <= i < |head + rest| && (head + rest)[i] == LF
        ensures i > 0 && (head + rest)[i - 1] == CR
      {
        if i >= |head| {
          assert rest[i - |head|] == LF;
        }
      }
    }
  }

  lemma {:induction false} NormalizeKeepsNormal(s: Bytes)
    requires NoBareLF(s)
    ensures NormalizeCRLF(s) == s
  {
    if s != [] {
      if |s| >= 2 && s[0] == CR && s[1] == LF {
        var t := s[2..];
        assert NoBareLF(t) by {
          forall i | 0 <= i < |t| && t[i] == LF ensures i > 0 && t[i - 1] == CR {
            assert s[i + 2] == LF;
          }
        }
        NormalizeKeepsNormal(t);
        assert ([LF] + ToLF(t))[1..] == ToLF(t);
        assert s == CRLF + t;
      } else {
        var t := s[1..];
        assert NoBareLF(t) by {
          forall i | 0 <= i < |t| && t[i] == LF ensures i > 0 && t[i - 1] == CR {
            assert s[i + 1] == LF;
          }
        }
        NormalizeKeepsNormal(t);
        assert ([s[0]] + ToLF(t))[1..] == ToLF(t);
        assert s == [s[0]] + t;
      }
    }
  }

  /** Normalisation leaves exactly the inputs without a bare LF alone. */
  lemma NormalizeFixedPointsIff(s: Bytes)
    ensures NormalizeCRLF(s) == s <==> NoBareLF(s)
  {
    if NoBareLF(s) {
      NormalizeKeepsNormal(s);
    }
    ToCRLFHasNoBareLF(ToLF(s));
  }

  /** Each line with its end: LF where `bare` says so, and CRLF otherwise. */
  function Mixed(lines: seq<Bytes>, bare: seq<bool>): Bytes
    requires |lines| == |bare|
  {
    if lines == [] then [] else lines[0] + (if bare[0] then [LF] else CRLF) + Mixed(lines[1..], bare[1..])
  }

  lemma {:induction false} LineToLF(line: Bytes, bare: bool, rest: Bytes)
    requires LF !in line && (line != [] ==> line[|line| - 1] != CR)
    ensures ToLF(line + (if bare then [LF] else CRLF) + rest) == line + [LF] + ToLF(rest)
  {
    var end := if bare then [LF] else CRLF;
    var s := line + end + rest;
    if line == [] {
      assert s[|end|..] == rest;
    } else {
      assert s[1..] == line[1..] + end + rest;
      assert |line| > 1 ==> s[1] == line[1] && line[1] in line;
      LineToLF(line[1..], bare, rest);
      assert [line[0]] + line[1..] == line;
    }
  }

  lemma {:induction false} LineToCRLF(line: Bytes, rest: Bytes)
    requires LF !in line
    ensures ToCRLF(line + [LF] + rest) == line + CRLF + ToCRLF(rest)
  {
    var s := line + [LF] + rest;
    if line == [] {
      assert s[1..] == rest;
    } else {
      assert s[1..] == line[1..] + [LF] + rest && line[0] in line;
      LineToCRLF(line[1..], rest);
      assert [line[0]] + line[1..] == line;
    }
  }

  /** Any mix of line ends becomes CRLF throughout, and the lines stay as they are. */
  lemma {:induction false} NormalizeMixed(lines: seq<Bytes>, bare: seq<bool>)
    requires |lines| == |bare| && NoLF(lines)
    requires forall i | 0 <= i < |lines| :: lines[i] != [] ==> lines[i][|lines[i]| - 1] != CR
    ensures NormalizeCRLF(Mixed(lines, bare)) == Crlf(lines)
  {
    if lines != [] {
      var rest := Mixed(lines[1..], bare[1..]);
      assert LF !in lines[0];
      LineToLF(lines[0], bare[0], rest);
      LineToCRLF(lines[0], ToLF(rest));
      NormalizeMixed(lines[1..], bare[1..]);
    }
  }

  // ---------------------------------------------------------------------------
  // Base64
  // ---------------------------------------------------------------------------

  /** The character for a six-bit value: A-Z, a-z, 0-9, + and /. */
  function Digit(v: int): (c: byte)
    requires 0 <= v < 64
  {
    if v < 26 then (65 + v) as byte
    else if v < 52 then (97 + v - 26) as byte
    else if v < 62 then (48 + v - 52) as byte
    else if v == 62 then 43
    else 47
  }

  /** The value of a character, or -1. */
  function Value(c: byte): (v: int)
    ensures -1 <= v < 64
  {
    var n := c as int;
    if 65 <= n <= 90 then n - 65
    else if 97 <= n <= 122 then n - 97 + 26
    else if 48 <= n <= 57 then n - 48 + 52
    else if n == 43 then 62
    else if n == 47 then 63
    else -1
  }

  /** The alphabet of table 1 of RFC 4648. */
  lemma AlphabetIs(v: int)
    requires 0 <= v < 64
    ensures v < 26 ==> Digit(v) as char == "ABCDEFGHIJKLMNOPQRSTUVWXYZ"[v]
    ensures 26 <= v < 52 ==> Digit(v) as char == "abcdefghijklmnopqrstuvwxyz"[v - 26]
    ensures 52 <= v ==> Digit(v) as char == "0123456789+/"[v - 52]
  {
  }

  lemma ValueOfDigit(v: int)
    requires 0 <= v < 64
    ensures Value(Digit(v)) == v
    ensures Digit(v) !in {PAD, CR, LF, SPACE, TAB}
  {
  }

  /** Standard encoding with padding. */
  function Encode(content: Bytes): Bytes {
    if content == [] then []
    else
      var a := content[0] as int;
      if |content| == 1 then [Digit(a / 4), Digit(a % 4 * 16), PAD, PAD]
      else
        var b := content[1] as int;
        if |content| == 2 then [Digit(a / 4), Digit(a % 4 * 16 + b / 16), Digit(b % 16 * 4), PAD]
        else
          var c := content[2] as int;
          [Digit(a / 4), Digit(a % 4 * 16 + b / 16), Digit(b % 16 * 4 + c / 64), Digit(c % 64)]
          + Encode(content[3..])
  }

  /** Four characters of the alphabet, as a number of 24 bits. */
  function Number(g: Bytes): int
    requires |g| >= 4
  {
    ((Value(g[0]) * 64 + Value(g[1])) * 64 + Value(g[2])) * 64 + Value(g[3])
  }

  /** Three octets and their four characters are the same 24 bits, the first ones first. */
  lemma EncodeBits(content: Bytes)
    requires |content| >= 3
    ensures var e := Encode(content);
            && |e| >= 4 && e[4..] == Encode(content[3..])
            && Number(e) == (content[0] as int * 256 + content[1] as int) * 256 + content[2] as int
  {
    var a, b, c := content[0] as int, content[1] as int, content[2] as int;
    DigitsMean(a / 4, a % 4 * 16 + b / 16, b % 16 * 4 + c / 64, c % 64, Encode(content[3..]));
    GroupBits(a, b, c);
  }

  lemma DigitsMean(p: int, q: int, r: int, t: int, rest: Bytes)
    requires 0 <= p < 64 && 0 <= q < 64 && 0 <= r < 64 && 0 <= t < 64
    ensures var e := [Digit(p), Digit(q), Digit(r), Digit(t)] + rest;
            e[4..] == rest && Number(e) == ((p * 64 + q) * 64 + r) * 64 + t
  {
    ValueOfDigit(p);
    ValueOfDigit(q);
    ValueOfDigit(r);
    ValueOfDigit(t);
  }

  lemma GroupBits(a: int, b: int, c: int)
    requires 0 <= a < 256 && 0 <= b < 256 && 0 <= c < 256
    ensures ((a / 4 * 64 + (a % 4 * 16 + b / 16)) * 64 + (b % 16 * 4 + c / 64)) * 64 + c % 64 == (a * 256 + b) * 256 + c
  {
  }

  /** The last one or two octets are filled up with zero bits and padding. */
  lemma LastBits(x: byte, y: byte)
    ensures var e := Encode([x]);
            |e| == 4 && Value(e[0]) * 64 + Value(e[1]) == x as int * 16 && e[2..] == [PAD, PAD]
    ensures var e := Encode([x, y]);
            |e| == 4 && (Value(e[0]) * 64 + Value(e[1])) * 64 + Value(e[2]) == (x as int * 256 + y as int) * 4 && e[3..] == [PAD]
  {
    var a, b := x as int, y as int;
    ValueOfDigit(a / 4);
    ValueOfDigit(a % 4 * 16);
    ValueOfDigit(a % 4 * 16 + b / 16);
    ValueOfDigit(b % 16 * 4);
    assert Encode([x]) == [Digit(a / 4), Digit(a % 4 * 16), PAD, PAD];
    assert Encode([x, y]) == [Digit(a / 4), Digit(a % 4 * 16 + b / 16), Digit(b % 16 * 4), PAD];
  }

  function First(p: int, q: int): byte
    requires 0 <= p < 64 && 0 <= q < 64
  {
    (p * 4 + q / 16) as byte
  }

  function Second(q: int, r: int): byte
    requires 0 <= q < 64 && 0 <= r < 64
  {
    (q % 16 * 16 + r / 4) as byte
  }

  function Third(r: int, t: int): byte
    requires 0 <= r < 64 && 0 <= t < 64
  {
    (r % 4 * 64 + t) as byte
  }

  lemma Recombine(x: byte, y: byte, z: byte)
    ensures var a, b, c := x as int, y as int, z as int;
            && First(a / 4, a % 4 * 16) == First(a / 4, a % 4 * 16 + b / 16) == x
            && Second(a % 4 * 16 + b / 16, b % 16 * 4) == Second(a % 4 * 16 + b / 16, b % 16 * 4 + c / 64) == y
            && Third(b % 16 * 4 + c / 64, c % 64) == z
  {
  }

  /** The unpadded decoder: any character outside the alphabet is an error. */
  function DecodeUnpadded(s: Bytes): Option<Bytes> {
    if s == [] then Some([])
    else if |s| == 1 then None
    else
      var p, q := Value(s[0]), Value(s[1]);
      if p < 0 || q < 0 then None
      else if |s| == 2 then Some([First(p, q)])
      else
        var r := Value(s[2]);
        if r < 0 then None
        else if |s| == 3 then Some([First(p, q), Second(q, r)])
        else
          var t := Value(s[3]);
          if t < 0 then None
          else
            match DecodeUnpadded(s[4..])
            case None => None
            case Some(rest) =>
              Some([First(p, q), Second(q, r), Third(r, t)] + rest)
  }

  predicate IsBlank(c: byte) {
    c == CR || c == LF || c == SPACE || c == TAB
  }

  function Cleaned(s: Bytes): Bytes {
    if s == [] then []
    else if IsBlank(s[0]) then Cleaned(s[1..])
    else [s[0]] + Cleaned(s[1..])
  }

  function TrimPadding(s: Bytes): Bytes {
    if s != [] && s[|s| - 1] == PAD then TrimPadding(s[..|s| - 1]) else s
  }

  /** The base64 branch of the transfer decoder. */
  function DecodeBase64(body: Bytes): Option<Bytes> {
    DecodeUnpadded(TrimPadding(Cleaned(body)))
  }

  /** The encoding without its padding, as the decoder sees it. */
  ghost function Unpadded(content: Bytes): Bytes {
    if content == [] then []
    else
      var a := content[0] as int;
      if |content| == 1 then [Digit(a / 4), Digit(a % 4 * 16)]
      else
        var b := content[1] as int;
        if |content| == 2 then [Digit(a / 4), Digit(a % 4 * 16 + b / 16), Digit(b % 16 * 4)]
        else Group(content[0], content[1], content[2]) + Unpadded(content[3..])
  }

  ghost function Group(x: byte, y: byte, z: byte): (g: Bytes)
    ensures |g| == 4
  {
    var a, b, c := x as int, y as int, z as int;
    [Digit(a / 4), Digit(a % 4 * 16 + b / 16), Digit(b % 16 * 4 + c / 64), Digit(c % 64)]
  }

  ghost function Padding(n: nat): Bytes {
    if n % 3 == 1 then [PAD, PAD] else if n % 3 == 2 then [PAD] else []
  }

  ghost predicate InAlphabet(s: Bytes) {
    forall i | 0 <= i < |s| :: Value(s[i]) >= 0
  }

  lemma {:induction false} EncodeIsPadded(content: Bytes)
    ensures Encode(content) == Unpadded(content) + Padding(|content|)
  {
    if |content| >= 3 {
      EncodeIsPadded(content[3..]);
      Assoc(Group(content[0], content[1], content[2]), Unpadded(content[3..]), Padding(|content|));
    }
  }

  lemma DecodeGroup(x: byte, y: byte, z: byte, rest: Bytes)
    ensures InAlphabet(Group(x, y, z))
    ensures DecodeUnpadded(Group(x, y, z) + rest)
            == match DecodeUnpadded(rest)
               case None => None
               case Some(r) => Some([x, y, z] + r)
  {
    var a, b, c := x as int, y as int, z as int;
    ValueOfDigit(a / 4);
    ValueOfDigit(a % 4 * 16 + b / 16);
    ValueOfDigit(b % 16 * 4 + c / 64);
    ValueOfDigit(c % 64);
    Recombine(x, y, z);
    var s := Group(x, y, z) + rest;
    assert s[4..] == rest;
    assert Value(s[0]) == a / 4 && Value(s[1]) == a % 4 * 16 + b / 16;
    assert Value(s[2]) == b % 16 * 4 + c / 64 && Value(s[3]) == c % 64;
  }

  lemma DecodeOne(x: byte)
    ensures InAlphabet(Unpadded([x]))
    ensures DecodeUnpadded(Unpadded([x])) == Some([x])
  {
    var a := x as int;
    ValueOfDigit(a / 4);
    ValueOfDigit(a % 4 * 16);
    Recombine(x, 0, 0);
    var s := Unpadded([x]);
    assert s == [Digit(a / 4), Digit(a % 4 * 16)];
  }

  lemma DecodeTwo(x: byte, y: byte)
    ensures InAlphabet(Unpadded([x, y]))
    ensures DecodeUnpadded(Unpadded([x, y])) == Some([x, y])
  {
    var a, b := x as int, y as int;
    ValueOfDigit(a / 4);
    ValueOfDigit(a % 4 * 16 + b / 16);
    ValueOfDigit(b % 16 * 4);
    Recombine(x, y, 0);
    var s := Unpadded([x, y]);
    assert s == [Digit(a / 4), Digit(a % 4 * 16 + b / 16), Digit(b % 16 * 4)];
  }

  lemma {:induction false} UnpaddedDecodes(content: Bytes)
    ensures InAlphabet(Unpadded(content))
    ensures DecodeUnpadded(Unpadded(content)) == Some(content)
  {
    if content == [] {
    } else if |content| == 1 {
      assert content == [content[0]];
      DecodeOne(content[0]);
    } else if |content| == 2 {
      assert content == [content[0], content[1]];
      DecodeTwo(content[0], content[1]);
    } else {
      UnpaddedDecodes(content[3..]);
      DecodeGroup(content[0], content[1], content[2], Unpadded(content[3..]));
      assert content == [content[0], content[1], content[2]] + content[3..];
    }
  }

  lemma TrimPaddingAway(s: Bytes)
    requires InAlphabet(s)
    ensures forall n: nat :: TrimPadding(s + Padding(n)) == s
  {
    assert s + [] == s;
    assert s != [] ==> Value(s[|s| - 1]) >= 0;
    assert (s + [PAD])[..|s|] == s;
    assert TrimPadding(s + [PAD]) == TrimPadding(s);
    assert (s + [PAD, PAD])[..|s| + 1] == s + [PAD];
    assert TrimPadding(s + [PAD, PAD]) == TrimPadding(s + [PAD]);
  }

  // ---------------------------------------------------------------------------
  // Wrapping
  // ---------------------------------------------------------------------------

  /** Pieces of `n` characters; only the last may be shorter. */
  function Chop(s: Bytes, n: nat): (pieces: seq<Bytes>)
    requires n > 0
    ensures |pieces| >= 1
    ensures forall i | 0 <= i < |pieces| - 1 :: |pieces[i]| == n
    ensures |pieces[|pieces| - 1]| <= n
  {
    if |s| <= n then [s] else [s[..n]] + Chop(s[n..], n)
  }

  /** The wrapping loop. */
  method WrapBase64(content: Bytes) returns (out: Bytes)
    ensures out == Join(Chop(Encode(content), WRAP_COLUMN), CRLF)
  {
    var encoded := Encode(content);
    out := [];
    while |encoded| > WRAP_COLUMN
      invariant out + Join(Chop(encoded, WRAP_COLUMN), CRLF) == Join(Chop(Encode(content), WRAP_COLUMN), CRLF)
    {
      ghost var rest := Chop(encoded[WRAP_COLUMN..], WRAP_COLUMN);
      assert Chop(encoded, WRAP_COLUMN)[1..] == rest;
      Assoc(out, encoded[..WRAP_COLUMN], CRLF);
      Assoc(out, encoded[..WRAP_COLUMN] + CRLF, Join(rest, CRLF));
      out := out + encoded[..WRAP_COLUMN];
      out := out + CRLF;
      encoded := encoded[WRAP_COLUMN..];
    }
    out := out + encoded;
  }

  lemma CleanedCons(c: byte, rest: Bytes)
    ensures Cleaned([c] + rest) == if IsBlank(c) then Cleaned(rest) else [c] + Cleaned(rest)
  {
    assert ([c] + rest)[1..] == rest;
  }

  lemma {:induction false} CleanedAppend(a: Bytes, b: Bytes)
    ensures Cleaned(a + b) == Cleaned(a) + Cleaned(b)
  {
    if a == [] {
      assert a + b == b;
    } else {
      var c, rest := a[0], a[1..];
      CleanedAppend(rest, b);
      assert a == [c] + rest && a + b == [c] + (rest + b);
      CleanedCons(c, rest);
      CleanedCons(c, rest + b);
      Assoc([c], Cleaned(rest), Cleaned(b));
    }
  }

  lemma {:induction false} CleanedIdentity(s: Bytes)
    requires forall i | 0 <= i < |s| :: !IsBlank(s[i])
    ensures Cleaned(s) == s
  {
    if s != [] {
      CleanedIdentity(s[1..]);
      assert [s[0]] + s[1..] == s;
    }
  }

  lemma ChopNext(s: Bytes, n: nat)
    requires 0 < n < |s|
    ensures Join(Chop(s, n), CRLF) == s[..n] + CRLF + Join(Chop(s[n..], n), CRLF)
  {
    JoinCons(s[..n], Chop(s[n..], n), CRLF);
  }

  lemma {:induction false} CleanedOfWrapped(s: Bytes, n: nat)
    requires n > 0 && forall i | 0 <= i < |s| :: !IsBlank(s[i])
    ensures Cleaned(Join(Chop(s, n), CRLF)) == s
  {
    if |s| <= n {
      CleanedIdentity(s);
    } else {
      var a, b := s[..n], s[n..];
      assert s == a + b;
      assert forall i | 0 <= i < |b| :: b[i] == s[n + i];
      ChopNext(s, n);
      CleanedOfWrapped(b, n);
      CleanedPiece(a, Join(Chop(b, n), CRLF));
    }
  }

  lemma CleanedPiece(piece: Bytes, rest: Bytes)
    requires forall i | 0 <= i < |piece| :: !IsBlank(piece[i])
    ensures Cleaned(piece + CRLF + rest) == piece + Cleaned(rest)
  {
    CleanedAppend(piece + CRLF, rest);
    CleanedAppend(piece, CRLF);
    CleanedIdentity(piece);
    CleanedBreak();
    assert piece + [] == piece;
  }

  lemma CleanedBreak()
    ensures Cleaned(CRLF) == []
  {
    assert CRLF[1..] == [LF];
    assert Cleaned([LF]) == Cleaned([]) by {
      assert [LF][1..] == [];
    }
  }

  lemma {:induction false} CleanedOfToLF(s: Bytes)
    ensures Cleaned(ToLF(s)) == Cleaned(s)
  {
    if s != [] {
      if |s| >= 2 && s[0] == CR && s[1] == LF {
        CleanedOfToLF(s[2..]);
        assert s[1..][1..] == s[2..];
        assert ([LF] + ToLF(s[2..]))[1..] == ToLF(s[2..]);
      } else {
        CleanedOfToLF(s[1..]);
        assert ([s[0]] + ToLF(s[1..]))[1..] == ToLF(s[1..]);
      }
    }
  }

  lemma {:induction false} CleanedOfToCRLF(s: Bytes)
    ensures Cleaned(ToCRLF(s)) == Cleaned(s)
  {
    if s != [] {
      CleanedOfToCRLF(s[1..]);
      var rest := ToCRLF(s[1..]);
      if s[0] == LF {
        assert (CRLF + rest)[1..] == [LF] + rest && ([LF] + rest)[1..] == rest;
      } else {
        assert ([s[0]] + rest)[1..] == rest;
      }
    }
  }

  lemma EncodeHasNoBlank(content: Bytes)
    ensures forall i | 0 <= i < |Encode(content)| :: !IsBlank(Encode(content)[i])
  {
    UnpaddedDecodes(content);
    EncodeIsPadded(content);
  }

  /** Wrapping, normalising and decoding any content gives the content back. */
  lemma DecodeUndoesWrap(content: Bytes)
    ensures DecodeBase64(NormalizeCRLF(Join(Chop(Encode(content), WRAP_COLUMN), CRLF))) == Some(content)
  {
    var wrapped := Join(Chop(Encode(content), WRAP_COLUMN), CRLF);
    CleanedOfToLF(wrapped);
    CleanedOfToCRLF(ToLF(wrapped));
    EncodeHasNoBlank(content);
    CleanedOfWrapped(Encode(content), WRAP_COLUMN);
    UnpaddedDecodes(content);
    EncodeIsPadded(content);
    TrimPaddingAway(Unpadded(content));
  }

  lemma {:induction false} ChopSubset(s: Bytes, n: nat)
    requires n > 0
    ensures forall i, c | 0 <= i < |Chop(s, n)| && c in Chop(s, n)[i] :: c in s
  {
    if |s| > n {
      ChopSubset(s[n..], n);
      var rest := Chop(s[n..], n);
      forall i, c | 0 <= i < |Chop(s, n)| && c in Chop(s, n)[i] ensures c in s {
        if i > 0 {
          assert Chop(s, n)[i] == rest[i - 1];
          assert c in s[n..];
        } else {
          assert c in s[..n];
        }
      }
    }
  }

  /** Cutting the wrapped text into lines gives the pieces, none over 76 characters. */
  lemma WrappedLinesAreShort(content: Bytes)
    ensures TrimEach(Split(Join(Chop(Encode(content), WRAP_COLUMN), CRLF), {LF})) == Chop(Encode(content), WRAP_COLUMN)
    ensures forall line | line in TrimEach(Split(Join(Chop(Encode(content), WRAP_COLUMN), CRLF), {LF})) ::
              |line| <= WRAP_COLUMN && LF !in line && CR !in line
  {
    var e := Encode(content);
    var pieces := Chop(e, WRAP_COLUMN);
    EncodeHasNoBlank(content);
    ChopSubset(e, WRAP_COLUMN);
    forall i | 0 <= i < |pieces| ensures LF !in pieces[i] && CR !in pieces[i] {
      assert forall c | c in pieces[i] :: c in e && !IsBlank(c);
    }
    TrimmedSplitOfJoined(pieces);
    assert pieces == pieces[..|pieces| - 1] + [pieces[|pieces| - 1]];
  }

  lemma {:induction false} CleanedIgnores(a: Bytes, c: byte, b: Bytes)
    requires c in {CR, LF, SPACE, TAB}
    ensures Cleaned(a + [c] + b) == Cleaned(a + b)
  {
    var s := a + [c] + b;
    if a == [] {
      assert s[1..] == b && a + b == b;
    } else {
      assert s[1..] == a[1..] + [c] + b && (a + b)[1..] == a[1..] + b;
      CleanedIgnores(a[1..], c, b);
    }
  }

  /** White space anywhere in a body is ignored. */
  lemma BlanksIgnored(a: Bytes, c: byte, b: Bytes)
    requires c in {CR, LF, SPACE, TAB}
    ensures DecodeBase64(a + [c] + b) == DecodeBase64(a + b)
  {
    CleanedIgnores(a, c, b);
  }

  /** Any other octet outside the alphabet makes the whole body undecodable. */
  lemma {:induction false} StrangeOctet(s: Bytes, i: nat)
    requires i < |s| && Value(s[i]) < 0
    ensures DecodeUnpadded(s) == None
    decreases |s|
  {
    if i >= 4 {
      StrangeOctet(s[4..], i - 4);
    }
  }
}
