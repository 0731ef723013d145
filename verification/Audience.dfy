/**
 Deriving an audience from a connection URL, byte by byte, and the binding of a service's
 own audience.
 */
module Audience {
  import opened DecimalText
  import opened Strings
  import opened AudienceGrammar
  import opened Wrappers

  /** Accepts 1 to 65535 written without a leading zero. */
  method CheckPort(p: string) returns (ok: bool)
    ensures ok <==> PortOk(p)
  {
    if p == "" || |p| > 5 || p[0] == '0' { return false; }
    var n := 0;
    for i := 0 to |p|
      invariant AllDigits(p[..i]) && n == Value(p[..i])
    {
      if !IsDigit(p[i]) { return false; }
      assert p[..i + 1][..i] == p[..i];
      n := n * 10 + Digit(p[i]);
    }
    assert p[..|p|] == p;
    return 1 <= n <= 65535;
  }

  /** Accepts nonempty runs of pchar, escapes included, but the dot segments. */
  method CheckSegment(s: string) returns (ok: bool)
    ensures ok <==> SegmentOk(s)
  {
    if s == "" || s == "." || s == ".." { return false; }
    var i := 0;
    while i < |s|
      invariant i <= |s| && (Pchars(s) <==> Pchars(s[i..]))
    {
      var c := s[i];
      assert s[i..][1..] == s[i + 1..];
      if IsAlpha(c) || IsDigit(c) || c in "-._~!$&'()*+,;=:@" {
        i := i + 1;
      } else if c == '%' {
        if i + 2 >= |s| || !IsHex(s[i + 1]) || !IsHex(s[i + 2]) { return false; }
        assert s[i..][3..] == s[i + 3..];
        i := i + 3;
      } else {
        return false;
      }
    }
    return true;
  }

  method CheckLiteral(literal: string) returns (ok: bool)
    ensures ok <==> LiteralOk(literal)
  {
    if |literal| < 2 || ':' !in literal { return false; }
    for i := 0 to |literal|
      invariant forall j :: 0 <= j < i ==> IsHexLower(literal[j]) || literal[j] in ":."
    {
      if !(IsHexLower(literal[i]) || literal[i] == ':' || literal[i] == '.') { return false; }
    }
    return true;
  }

  method CheckName(host: string) returns (ok: bool)
    ensures ok <==> NameOk(host)
  {
    var labels := Split(host, '.');
    for i := 0 to |labels|
      invariant forall j :: 0 <= j < i ==> LabelOk(labels[j])
    {
      var part := labels[i];
      assert part in labels;
      if part == "" { return false; }
      for j := 0 to |part|
        invariant forall k :: 0 <= k < j ==> NameChar(part[k])
      {
        if !NameChar(part[j]) { return false; }
      }
    }
    return true;
  }

  // Lower-case host and port of an authority, unless nothing could be named by it.
  method ParseAuthority(authority: string) returns (r: Option<(string, string)>)
    ensures r.Some? ==> exists host :: Names(authority, host, r.value.1) && r.value.0 == Lower(host)
    ensures r.None? ==> forall host, port :: !Names(authority, host, port)
  {
    forall host, port | Names(authority, host, port)
      ensures authority != "" && '@' !in authority && host != "" && authority[0] == host[0]
    {
      AuthorityInert(host, port);
      HostInert(host);
    }
    if '@' in authority || authority == "" {
      return None;
    }
    if authority[0] == '[' {
      r := ParseLiteral(authority);
    } else {
      r := ParseName(authority);
    }
  }

  method ParseLiteral(authority: string) returns (r: Option<(string, string)>)
    requires authority != "" && authority[0] == '['
    ensures r.Some? ==> exists host :: Names(authority, host, r.value.1) && r.value.0 == Lower(host)
    ensures r.None? ==> forall host, port :: host != "" && host[0] == '[' ==> !Names(authority, host, port)
  {
    forall host, port | host != "" && host[0] == '[' && Names(authority, host, port)
      ensures LiteralReads(authority, host, port)
    {
      LiteralIsRead(authority, host, port);
    }
    var end := IndexByte(authority, ']');
    if end < 0 { return None; }
    FoundAt(authority, ']');
    var literal := Lower(authority[1..end]);
    var ok := CheckLiteral(literal);
    if !ok { return None; }
    ghost var host := authority[..end + 1];
    LiteralNames(authority, end);
    var tail := authority[end + 1..];
    if tail == "" {
      assert Names(authority, host, "");
      return Some(("[" + literal + "]", ""));
    }
    if tail[0] != ':' { return None; }
    ok := CheckPort(tail[1..]);
    if !ok { return None; }
    assert authority == Authority(host, tail[1..]);
    assert Names(authority, host, tail[1..]);
    return Some(("[" + literal + "]", tail[1..]));
  }

  // How a literal authority reads.
  ghost predicate LiteralReads(authority: string, host: string, port: string) {
    && |host| >= 2 && IndexByte(authority, ']') == |host| - 1 && |host| <= |authority|
    && LiteralOk(Lower(authority[1..|host| - 1])) && authority[|host|..] == if port == "" then "" else ":" + port
  }

  lemma LiteralIsRead(authority: string, host: string, port: string)
    requires Names(authority, host, port) && host != "" && host[0] == '['
    ensures LiteralReads(authority, host, port)
  {
    LiteralHost(host);
    LiteralAuthorityReads(host, port);
    assert authority[..|host|] == host;
    assert authority[1..|host| - 1] == host[1..|host| - 1];
  }

  // The bracketed front of an authority is a host if its inside is a literal.
  lemma LiteralNames(authority: string, end: nat)
    requires 0 < end < |authority| && authority[0] == '[' && authority[end] == ']'
             && LiteralOk(Lower(authority[1..end]))
    ensures var host := authority[..end + 1];
            HostOk(Lower(host)) && Lower(host) == "[" + Lower(authority[1..end]) + "]"
              && authority == host + authority[end + 1..]
  {
    var host := authority[..end + 1];
    LowerSlice(host, 1, end);
    assert host[1..end] == authority[1..end];
    assert Lower(host)[0] == '[' && Lower(host)[end] == ']';
    assert Lower(host) == [Lower(host)[0]] + Lower(host)[1..end] + [Lower(host)[end]];
  }

  method ParseName(authority: string) returns (r: Option<(string, string)>)
    requires authority != "" && authority[0] != '['
    ensures r.Some? ==> exists host :: Names(authority, host, r.value.1) && r.value.0 == Lower(host)
    ensures r.None? ==> forall host, port :: host != "" && host[0] != '[' ==> !Names(authority, host, port)
  {
    forall host, port | host != "" && host[0] != '[' && Names(authority, host, port)
      ensures NameReads(authority, host, port)
    {
      NameIsRead(authority, host, port);
    }
    var name, port := authority, "";
    var colon := IndexByte(authority, ':');
    if colon >= 0 {
      FoundAt(authority, ':');
      name, port := authority[..colon], authority[colon + 1..];
      var ok := CheckPort(port);
      if !ok { return None; }
      assert authority == name + (":" + port);
    }
    var ok := CheckName(Lower(name));
    if !ok { return None; }
    NameNames(name, port);
    return Some((Lower(name), port));
  }

  lemma NameNames(name: string, port: string)
    requires NameOk(Lower(name)) && (name == "" || name[0] != '[') && (port == "" || PortOk(port))
    ensures Names(Authority(name, port), name, port)
  {
    LowerKeeps(name, '[');
    NameInert(Lower(name));
  }

  ghost predicate NameReads(authority: string, host: string, port: string) {
    && NameOk(Lower(host))
    && if port == "" then IndexByte(authority, ':') == -1 && host == authority
       else
         && IndexByte(authority, ':') == |host| < |authority| && host == authority[..|host|]
         && PortOk(authority[|host| + 1..])
  }

  lemma NameIsRead(authority: string, host: string, port: string)
    requires Names(authority, host, port) && host != "" && host[0] != '['
    ensures NameReads(authority, host, port)
  {
    NameAuthorityReads(host, port);
    LowerKeeps(host, '[');
    if port == "" {
      assert authority == host;
    } else {
      assert authority == host + (":" + port);
      assert authority[|host| + 1..] == port;
    }
  }

  // ---- The whole URL.

  method CheckPrintable(url: string) returns (ok: bool)
    ensures ok <==> Printable(url)
  {
    for i := 0 to |url|
      invariant forall j :: 0 <= j < i ==> '!' <= url[j] <= '~'
    {
      assert url[i] in url;
      if url[i] as int <= 0x20 || url[i] as int >= 0x7f { return false; }
    }
    return true;
  }

  lemma LedPath(path: string)
    requires path != "" && path[0] == '/'
    ensures Led(Split(path[1..], '/'), '/') == path
  {
    SplitJoins(path[1..], '/');
    assert path == ['/'] + path[1..];
  }

  // The segments of a path, each checked and written back.
  method CopySegments(path: string) returns (r: Option<string>)
    requires path != "" && path[0] == '/'
    ensures r == if forall part :: part in Split(path[1..], '/') ==> SegmentOk(part) then Some(path) else None
  {
    var segments := Split(path[1..], '/');
    var written := "";
    for i := 0 to |segments|
      invariant forall j :: 0 <= j < i ==> SegmentOk(segments[j])
      invariant written + Led(segments[i..], '/') == Led(segments, '/')
    {
      var ok := CheckSegment(segments[i]);
      if !ok {
        assert segments[i] in segments;
        return None;
      }
      LedNext(written, segments, '/', i);
      written := written + "/" + segments[i];
    }
    assert segments[|segments|..] == [] && written + "" == written;
    LedPath(path);
    return Some(written);
  }

  // The URL is made of these parts.
  ghost predicate MadeOf(url: string, p: Parts) { Grammar(p) && Spell(p) == url }

  // Scheme, authority and path of a URL, unless it cannot be made of any parts.
  method SplitUrl(url: string) returns (r: Option<(string, string, string)>)
    ensures r.None? ==> forall p :: !MadeOf(url, p)
    ensures r.Some? ==>
              var (scheme, authority, path) := r.value;
              && FoldScheme(scheme).Some? && url == scheme + "://" + (authority + path)
                 && (path != "" ==> path[0] == '/')
              && forall p :: MadeOf(url, p) ==>
                 p.scheme == scheme && Authority(p.host, p.port) == authority && Led(p.segments, '/') == path
  {
    forall p | MadeOf(url, p) ensures Reads(url, p) { PartsRead(url, p); }
    r := None;
    var printable := CheckPrintable(url);
    var sep := IndexOf(url, "://");
    if printable && sep >= 0 {
      var rest := url[sep + 3..];
      if FoldScheme(url[..sep]).Some? && '?' !in rest && '#' !in rest {
        assert url == url[..sep] + "://" + rest;
        var slash := IndexByte(rest, '/');
        if slash < 0 {
          assert rest + "" == rest;
          r := Some((url[..sep], rest, ""));
        } else {
          FoundAt(rest, '/');
          assert rest == rest[..slash] + rest[slash..];
          r := Some((url[..sep], rest[..slash], rest[slash..]));
        }
      }
    }
  }

  // How a URL reads.
  ghost predicate Reads(url: string, p: Parts) {
    var authority, path := Authority(p.host, p.port), Led(p.segments, '/');
    var rest := authority + path;
    && Printable(url) && FoldScheme(p.scheme).Some? && IndexOf(url, "://") == |p.scheme|
    && url[..|p.scheme|] == p.scheme && url[|p.scheme| + 3..] == rest && '?' !in rest && '#' !in rest
    && if path == "" then IndexByte(rest, '/') == -1 && rest == authority
       else IndexByte(rest, '/') == |authority| && rest[..|authority|] == authority && rest[|authority|..] == path
  }

  lemma PartsRead(url: string, p: Parts)
    requires MadeOf(url, p)
    ensures Reads(url, p)
  {
    UrlReads(p);
    assert Authority(p.host, p.port) + "" == Authority(p.host, p.port);
  }

  /** Yields the audience the URL denotes, and refuses it if it denotes none. */
  method Derive(url: string) returns (r: Option<string>)
    ensures r.Some? ==> Denotes(url, r.value)
    ensures r.None? ==> forall audience :: !Denotes(url, audience)
  {
    assert (forall p :: !MadeOf(url, p)) ==> forall audience :: !Denotes(url, audience) by {
      forall audience | Denotes(url, audience) ensures exists p :: MadeOf(url, p) {
        var p :| Grammar(p) && Spell(p) == url && audience == Spell(Fold(p));
        assert MadeOf(url, p);
      }
    }
    var pieces := SplitUrl(url);
    if pieces.None? { return None; }
    var (scheme, authority, path) := pieces.value;
    var named := ParseAuthority(authority);
    if named.None? {
      forall p ensures !MadeOf(url, p) {
        if MadeOf(url, p) { assert Names(authority, p.host, p.port); }
      }
      return None;
    }
    ghost var host :| Names(authority, host, named.value.1) && named.value.0 == Lower(host);
    r := WriteAudience(url, scheme, authority, path, named.value.0, named.value.1, host);
  }

  method WriteAudience(url: string, scheme: string, authority: string, path: string, lower: string, port: string,
                       ghost host: string)
    returns (r: Option<string>)
    requires FoldScheme(scheme).Some? && url == scheme + "://" + (authority + path) && (path != "" ==> path[0] == '/')
    requires Names(authority, host, port) && lower == Lower(host)
    requires forall p :: MadeOf(url, p) ==> Led(p.segments, '/') == path
    ensures r.Some? ==> Denotes(url, r.value)
    ensures r.None? ==> forall p :: !MadeOf(url, p)
  {
    var folded := FoldScheme(scheme).value;
    var b := folded.0 + "://" + lower;
    if port != "" && port != folded.1 { b := b + ":" + port; }
    ghost var segments: seq<string> := [];
    if path != "" {
      var copied := CopySegments(path);
      segments := Split(path[1..], '/');
      if copied.None? {
        forall p ensures !MadeOf(url, p) {
          if MadeOf(url, p) { UrlReads(p); }
        }
        return None;
      }
      LedPath(path);
      b := b + copied.value;
    }
    WrittenSpells(scheme, host, port, segments, path);
    ghost var p := Parts(scheme, host, port, segments);
    assert MadeOf(url, p);
    return Some(b);
  }

  lemma WrittenSpells(scheme: string, host: string, port: string, segments: seq<string>, path: string)
    requires Grammar(Parts(scheme, host, port, segments)) && path == Led(segments, '/')
    ensures var folded := FoldScheme(scheme).value; var p := Parts(scheme, host, port, segments);
            && Spell(p) == scheme + "://" + (Authority(host, port) + path)
            && Spell(Fold(p)) ==
               (if port != "" && port != folded.1 then folded.0 + "://" + Lower(host) + ":" + port
               else folded.0 + "://" + Lower(host)) + path
  {
    var folded := FoldScheme(scheme).value;
    JoinTexts(folded.0 + "://", Lower(host), if port == folded.1 then "" else port, path);
  }

  lemma JoinTexts(front: string, host: string, port: string, path: string)
    ensures front + (Authority(host, port) + path) ==
            (if port == "" then front + host else front + host + ":" + port) + path
  {
    if port != "" { assert front + (host + (":" + port)) == front + host + ":" + port; }
  }

  /** Deriving from a derived audience gives it back; nothing else is derived from a URL. */
  lemma AudienceIsFixed(url: string, a: string, b: string)
    requires Denotes(url, a)
    ensures Denotes(a, a) && (Denotes(url, b) ==> b == a)
  {
    AudienceDenotesItself(url, a);
    if Denotes(url, b) {
      var p :| Grammar(p) && Spell(p) == url && a == Spell(Fold(p));
      var q :| Grammar(q) && Spell(q) == url && b == Spell(Fold(q));
      OneReading(p, q);
    }
  }

  // ---- The connection binding.

  const ROLE := 1 as char

  function Binding(audience: string): string {
    [ROLE, (|audience| / 256 % 256) as char, (|audience| % 256) as char] + audience
  }

  // The role, the length in two bytes with the higher first, and the audience.
  predicate Binds(bytes: string, audience: string) {
    && |bytes| == 3 + |audience| && bytes[0] as int == 1 && bytes[3..] == audience
    && bytes[1] as int < 256 && bytes[2] as int < 256
    && bytes[1] as int * 256 + bytes[2] as int == |audience| % 65536
  }

  lemma TwoBytes(n: nat)
    ensures n / 256 % 256 * 256 + n % 256 == n % 65536
  {
  }

  lemma BindingBinds(audience: string)
    ensures Binds(Binding(audience), audience)
  {
    TwoBytes(|audience|);
    assert Binding(audience)[3..] == audience;
  }

  /** Binds exactly the audiences some URL denotes, each to bytes of its own. */
  method ConnectionBinding(audience: string) returns (r: Option<string>)
    ensures r.Some? <==> exists url :: Denotes(url, audience)
    ensures r.Some? ==> Binds(r.value, audience)
  {
    if audience == "" {
      EmptyIsNoAudience();
      return None;
    }
    var derived := Derive(audience);
    if derived.None? || derived.value != audience {
      if url :| Denotes(url, audience) {
        AudienceIsFixed(url, audience, audience);
        if derived.Some? { AudienceIsFixed(audience, audience, derived.value); }
      }
      return None;
    }
    BindingBinds(audience);
    return Some(Binding(audience));
  }

  lemma EmptyIsNoAudience()
    ensures forall url :: !Denotes(url, "")
  {
  }

  /** No two audiences are bound alike, and no audience in two ways. */
  lemma BindsIsOneToOne(bytes: string, a: string, other: string, b: string)
    requires Binds(bytes, a) && Binds(other, b)
    ensures bytes == other <==> a == b
  {
    if a == b {
      assert bytes == bytes[..3] + bytes[3..] && other == other[..3] + other[3..];
      assert bytes[..3] == other[..3];
    }
  }
}
