/**
 Go's byte-string helpers, on characters standing for bytes: the first index of a
 character and of a text, lowering ASCII letters, splitting at a separator and joining
 again. An index is the first at which the text stands, or minus one where it stands
 nowhere, and putting texts one after the other moves it as one would think. Splitting
 and joining undo each other: the parts of a text, each led by the separator, spell that
 text led by one, and parts that hold no separator are found again by splitting.
 */
module Strings {
  // strings.IndexByte.
  function IndexByte(s: string, c: char): (r: int)
    ensures -1 <= r < |s|
  {
    if s == "" then -1
    else if s[0] == c then 0
    else var rest := IndexByte(s[1..], c); if rest < 0 then -1 else rest + 1
  }

  lemma {:induction false} IndexAfter(a: string, c: char, b: string)
    requires c !in a
    ensures IndexByte(a + [c] + b, c) == |a|
  {
    if a != "" {
      assert (a + [c] + b)[1..] == a[1..] + [c] + b;
      IndexAfter(a[1..], c, b);
    }
  }

  lemma {:induction false} NotFound(s: string, c: char)
    ensures c !in s <==> IndexByte(s, c) == -1
  {
    if s != "" {
      NotFound(s[1..], c);
      assert s == [s[0]] + s[1..];
    }
  }

  // An occurrence is not before the one found.
  lemma {:induction false} FirstFound(s: string, c: char, i: nat)
    requires i < |s| && s[i] == c
    ensures 0 <= IndexByte(s, c) <= i
  {
    if s[0] != c { FirstFound(s[1..], c, i - 1); }
  }

  lemma {:induction false} FoundAt(s: string, c: char)
    requires IndexByte(s, c) >= 0
    ensures s[IndexByte(s, c)] == c
  {
    if s[0] != c { FoundAt(s[1..], c); }
  }

  // strings.Index.
  function IndexOf(s: string, sub: string): (r: int)
    ensures -1 <= r <= |s|
    ensures r >= 0 ==> r + |sub| <= |s| && s[r..r + |sub|] == sub
  {
    if |s| < |sub| then -1
    else if s[..|sub|] == sub then 0
    else if s == "" then -1
    else var rest := IndexOf(s[1..], sub); if rest < 0 then -1 else rest + 1
  }

  lemma {:induction false} SubAfter(a: string, sub: string, b: string)
    requires sub != "" && sub[0] !in a
    ensures IndexOf(a + sub + b, sub) == |a|
  {
    var text := a + sub + b;
    if a == "" {
      assert text[..|sub|] == sub;
    } else {
      assert text[..|sub|][0] == a[0];
      assert text[1..] == a[1..] + sub + b;
      SubAfter(a[1..], sub, b);
    }
  }

  // strings.ToLower, on ASCII.
  function Lower(text: string): string {
    seq(|text|, i requires 0 <= i < |text| => if 'A' <= text[i] <= 'Z' then text[i] + 32 as char else text[i])
  }

  // strings.Split at one character.
  function Split(s: string, c: char): (r: seq<string>)
    ensures r != []
  {
    if s == "" then [""]
    else
      var rest := Split(s[1..], c);
      if s[0] == c then [""] + rest else [[s[0]] + rest[0]] + rest[1..]
  }

  // Each part led by the separator.
  function Led(parts: seq<string>, c: char): string {
    if parts == [] then "" else [c] + parts[0] + Led(parts[1..], c)
  }

  // Writing one more part.
  lemma LedNext(written: string, parts: seq<string>, c: char, i: nat)
    requires i < |parts|
    ensures written + Led(parts[i..], c) == (written + [c] + parts[i]) + Led(parts[i + 1..], c)
  {
    assert parts[i..][1..] == parts[i + 1..];
    assert written + ([c] + parts[i] + Led(parts[i + 1..], c)) == (written + [c] + parts[i]) + Led(parts[i + 1..], c);
  }

  /** Splitting and rejoining is the identity. */
  lemma {:induction false} SplitJoins(s: string, c: char)
    ensures Led(Split(s, c), c) == [c] + s
    ensures forall i :: 0 <= i < |Split(s, c)| ==> c !in Split(s, c)[i]
  {
    if s != "" {
      SplitJoins(s[1..], c);
      var rest, parts := Split(s[1..], c), Split(s, c);
      assert s == [s[0]] + s[1..];
      if s[0] == c {
        assert parts[1..] == rest;
        assert [c] + "" == [c];
      } else {
        assert parts[1..] == rest[1..];
        Inserted(c, s[0], rest[0], Led(rest[1..], c), s[1..]);
      }
    }
  }

  lemma Inserted(c: char, h: char, a: string, b: string, t: string)
    requires [c] + a + b == [c] + t
    ensures [c] + ([h] + a) + b == [c] + ([h] + t)
  {
    assert a + b == ([c] + a + b)[1..] == ([c] + t)[1..] == t;
  }

  lemma {:induction false} SplitAfter(part: string, c: char, t: string)
    requires c !in part
    ensures Split(part, c) == [part]
    ensures Split(part + [c] + t, c) == [part] + Split(t, c)
  {
    var text := part + [c] + t;
    if part == "" {
      assert text[0] == c && text[1..] == t;
    } else {
      SplitAfter(part[1..], c, t);
      assert text[0] == part[0] && text[1..] == part[1..] + [c] + t;
      assert part == [part[0]] + part[1..];
    }
  }

  /** Parts without the separator are what their joining splits into. */
  lemma {:induction false} JoinSplits(parts: seq<string>, c: char)
    requires parts != [] && forall i :: 0 <= i < |parts| ==> c !in parts[i]
    ensures Led(parts, c) != "" && Split(Led(parts, c)[1..], c) == parts
  {
    var text := Led(parts, c)[1..];
    assert text == parts[0] + Led(parts[1..], c);
    if |parts| == 1 {
      SplitAfter(parts[0], c, "");
      assert text == parts[0] && parts == [parts[0]];
    } else {
      JoinSplits(parts[1..], c);
      var tail := Led(parts[1..], c)[1..];
      assert Led(parts[1..], c) == [c] + tail;
      assert text == parts[0] + [c] + tail;
      SplitAfter(parts[0], c, tail);
      assert parts == [parts[0]] + parts[1..];
    }
  }
}
