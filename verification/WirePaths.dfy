/**
 Paths on the wire: segments of UTF-8 bytes, each prefixed by its length in decimal and
 a colon. A Go string is a sequence of bytes, here characters below 256.
 */
module WirePaths {
  import opened DecimalText
  import opened Strings
  import opened Wrappers

  type Path = seq<string>

  // ---- UTF-8, section 4 of RFC 3629.

  predicate Between(c: char, low: int, high: int) { low <= c as int <= high }

  predicate Tails(s: string, n: nat) { n <= |s| && forall i :: 0 <= i < n ==> Between(s[i], 0x80, 0xBF) }

  // The length of the well-formed sequence a text starts with, or zero.
  function Sequence(s: string): nat
    requires s != ""
    ensures Sequence(s) <= |s|
  {
    var c := s[0];
    if Between(c, 0x00, 0x7F) then 1
    else if Between(c, 0xC2, 0xDF) && Tails(s[1..], 1) then 2
    else if Between(c, 0xE0, 0xEF) && Tails(s[1..], 2)
            && (c as int == 0xE0 ==> Between(s[1], 0xA0, 0xBF)) && (c as int == 0xED ==> Between(s[1], 0x80, 0x9F))
               then 3
    else if Between(c, 0xF0, 0xF4) && Tails(s[1..], 3)
            && (c as int == 0xF0 ==> Between(s[1], 0x90, 0xBF)) && (c as int == 0xF4 ==> Between(s[1], 0x80, 0x8F))
               then 4
    else 0
  }

  predicate ValidString(s: string) {
    s == "" || (Sequence(s) > 0 && ValidString(s[Sequence(s)..]))
  }

  predicate ValidPath(path: Path) { forall i :: 0 <= i < |path| ==> ValidString(path[i]) }

  // ---- The encoding.

  function Piece(segment: string): string { Numeral(|segment|) + ":" + segment }

  function Encoded(path: Path): string {
    if path == [] then "" else Piece(path[0]) + Encoded(path[1..])
  }

  lemma PieceReads(segment: string, rest: string)
    ensures var s, digits := Piece(segment) + rest, Numeral(|segment|);
            IndexByte(s, ':') == |digits| && s[..|digits|] == digits && s[|digits| + 1..] == segment + rest
  {
    var digits := Numeral(|segment|);
    assert Piece(segment) + rest == digits + [':'] + (segment + rest);
    IndexAfter(digits, ':', segment + rest);
  }

  /** A piece delimits itself. */
  lemma PiecesDelimit(a: string, x: string, b: string, y: string)
    requires Piece(a) + x == Piece(b) + y
    ensures a == b && x == y
  {
    PieceReads(a, x);
    PieceReads(b, y);
    assert a + x == b + y;
    assert a == (a + x)[..|a|] && b == (b + y)[..|b|];
    assert x == (a + x)[|a|..] && y == (b + y)[|b|..];
  }

  /** Encoding turns concatenation of paths into concatenation of texts. */
  lemma {:induction false} EncodingConcatenates(p: Path, q: Path)
    ensures Encoded(p + q) == Encoded(p) + Encoded(q)
  {
    if p == [] {
      assert p + q == q;
    } else {
      EncodingConcatenates(p[1..], q);
      assert (p + q)[0] == p[0] && (p + q)[1..] == p[1..] + q;
      Associative(Piece(p[0]), Encoded(p[1..]), Encoded(q));
    }
  }

  lemma Associative(a: string, b: string, c: string)
    ensures a + (b + c) == (a + b) + c
  {
  }

  // An encoding that starts with another is of a path that starts with the other.
  lemma {:induction false} EncodedPrefix(p: Path, rest: string, q: Path)
    requires Encoded(q) == Encoded(p) + rest
    ensures p <= q && Encoded(q[|p|..]) == rest
  {
    if p != [] {
      assert q != [] by { PieceReads(p[0], Encoded(p[1..]) + rest); }
      Associative(Piece(p[0]), Encoded(p[1..]), rest);
      PiecesDelimit(q[0], Encoded(q[1..]), p[0], Encoded(p[1..]) + rest);
      EncodedPrefix(p[1..], rest, q[1..]);
      assert p == [p[0]] + p[1..] && q == [q[0]] + q[1..];
      assert q[|p|..] == q[1..][|p| - 1..];
    } else {
      assert q[0..] == q;
    }
  }

  /** One path is a prefix of another exactly when its encoding is. */
  lemma PrefixIff(p: Path, q: Path)
    ensures p <= q <==> Encoded(p) <= Encoded(q)
  {
    if p <= q {
      assert q == p + q[|p|..];
      EncodingConcatenates(p, q[|p|..]);
    }
    if Encoded(p) <= Encoded(q) {
      EncodedPrefix(p, Encoded(q)[|Encoded(p)|..], q);
    }
  }

  /** No two paths share an encoding. */
  lemma EncodingIsInjective(p: Path, q: Path)
    requires Encoded(p) == Encoded(q)
    ensures p == q
  {
    PrefixIff(p, q);
    PrefixIff(q, p);
  }

  lemma EncodedNext(path: Path, i: nat)
    requires i < |path|
    ensures Encoded(path[..i + 1]) == Encoded(path[..i]) + Numeral(|path[i]|) + ":" + path[i]
  {
    EncodingConcatenates(path[..i], [path[i]]);
    assert path[..i + 1] == path[..i] + [path[i]];
    assert Encoded([path[i]]) == Piece(path[i]) + "";
    assert Encoded(path[..i]) + (Numeral(|path[i]|) + ":" + path[i]) ==
           Encoded(path[..i]) + Numeral(|path[i]|) + ":" + path[i];
  }

  method EncodePath(path: Path) returns (r: Option<string>)
    ensures r == if ValidPath(path) then Some(Encoded(path)) else None
  {
    var encoded := "";
    for i := 0 to |path|
      invariant ValidPath(path[..i]) && encoded == Encoded(path[..i])
    {
      if !ValidString(path[i]) { return None; }
      EncodedNext(path, i);
      encoded := encoded + Numeral(|path[i]|) + ":" + path[i];
    }
    assert path[..|path|] == path;
    return Some(encoded);
  }

  // Some valid path has this encoding.
  ghost predicate Encodes(encoded: string) {
    exists path :: ValidPath(path) && Encoded(path) == encoded
  }

  // What one step of decoding finds at the front of a text.
  datatype Front = Bad | Front(segment: string, rest: string)

  // How the front of an encoding reads.
  lemma {:induction false} EncodedFront(encoded: string) returns (segment: string, rest: string)
    requires encoded != ""
    ensures Encodes(encoded) ==>
              && ValidString(segment) && encoded == Piece(segment) + rest && Encodes(rest)
              && IndexByte(encoded, ':') == |Numeral(|segment|)|
                 && encoded[..|Numeral(|segment|)|] == Numeral(|segment|)
              && encoded[|Numeral(|segment|)| + 1..] == segment + rest
              && (Numeral(|segment|)[0] == '0' ==> |Numeral(|segment|)| == 1)
  {
    segment, rest := "", "";
    if Encodes(encoded) {
      var path :| ValidPath(path) && Encoded(path) == encoded;
      segment, rest := path[0], Encoded(path[1..]);
      assert ValidPath(path[1..]);
      PieceReads(segment, rest);
      NumeralIsBare(|segment|);
    }
  }

  // A length, a colon and that much more are a piece.
  lemma FrontSpells(encoded: string, colon: nat)
    requires 0 < colon == IndexByte(encoded, ':') && AllDigits(encoded[..colon])
    requires encoded[0] == '0' ==> colon == 1
    requires Value(encoded[..colon]) <= |encoded[colon + 1..]|
    ensures var remaining, n := encoded[colon + 1..], Value(encoded[..colon]);
            encoded == Piece(remaining[..n]) + remaining[n..]
  {
    var digits, remaining := encoded[..colon], encoded[colon + 1..];
    BareIsNumeral(digits);
    FoundAt(encoded, ':');
    assert encoded == digits + ":" + remaining;
    assert remaining == remaining[..Value(digits)] + remaining[Value(digits)..];
  }

  method DecodeNext(encoded: string) returns (front: Front)
    requires encoded != "" && |encoded| <= MAX_INT
    ensures front.Front? ==> ValidString(front.segment) && encoded == Piece(front.segment) + front.rest
    ensures front.Front? ==> |front.rest| < |encoded|
    ensures front.Bad? ==> !Encodes(encoded)
  {
    ghost var segment, rest := EncodedFront(encoded);
    front := Bad;
    var colon := IndexByte(encoded, ':');
    if colon > 0 {
      var digits := encoded[..colon];
      if AllDigits(digits) && !(|digits| > 1 && digits[0] == '0') {
        var remaining := encoded[colon + 1..];
        // ParseUint's range error, then the length check.
        if Value(digits) <= MAX_UINT64 && Value(digits) <= |remaining| {
          var found := remaining[..Value(digits)];
          if ValidString(found) {
            FrontSpells(encoded, colon);
            front := Front(found, remaining[Value(digits)..]);
          }
        }
      }
    }
  }

  /** Accepts exactly the encodings of valid paths, each as the path it encodes. */
  method DecodePath(encoded: string) returns (r: Option<Path>)
    requires |encoded| <= MAX_INT
    ensures r.Some? <==> Encodes(encoded)
    ensures r.Some? ==> ValidPath(r.value) && Encoded(r.value) == encoded
  {
    var path, left := [], encoded;
    while left != ""
      invariant ValidPath(path) && Encoded(path) + left == encoded && |left| <= MAX_INT
      decreases |left|
    {
      var front := DecodeNext(left);
      if front.Bad? {
        RestEncodes(path, left, encoded);
        return None;
      }
      EncodingConcatenates(path, [front.segment]);
      assert Encoded([front.segment]) == Piece(front.segment) + "";
      path, left := path + [front.segment], front.rest;
    }
    return Some(path);
  }

  // What follows a decoded prefix of an encoding is an encoding.
  lemma RestEncodes(path: Path, left: string, encoded: string)
    requires Encoded(path) + left == encoded
    ensures Encodes(encoded) ==> Encodes(left)
  {
    if Encodes(encoded) {
      var whole :| ValidPath(whole) && Encoded(whole) == encoded;
      EncodedPrefix(path, left, whole);
      assert ValidPath(whole[|path|..]);
    }
  }
}
