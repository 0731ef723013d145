/**
 Connection URLs and the audiences they denote: what a URL is made of, how it spells,
 and the one spelling it is folded to. A URL has a scheme, a host that is a name or a
 literal in brackets, a port or none, and a path of segments. Folding lowers the scheme
 and the host, and leaves out the port the scheme implies. The parts of a URL can be
 read back off its spelling, since no part holds what delimits it; so a URL is made of
 one set of parts only, and an audience, folded already, denotes itself. What follows
 is the grammar alone; the code that takes a URL apart is held against it elsewhere.
 */
module AudienceGrammar {
  import opened DecimalText
  import opened Strings
  import opened Wrappers

  // A URL's parts as it spells them; no port is the empty one.
  datatype Parts = Parts(scheme: string, host: string, port: string, segments: seq<string>)

  predicate IsAlpha(c: char) { 'a' <= c <= 'z' || 'A' <= c <= 'Z' }

  predicate IsHexLower(c: char) { IsDigit(c) || 'a' <= c <= 'f' }

  predicate IsHex(c: char) { IsHexLower(c) || 'A' <= c <= 'F' }

  // ---- Segments: pchar of section 3.3 of RFC 3986.

  predicate Unreserved(c: char) { IsAlpha(c) || IsDigit(c) || c in "-._~" }

  predicate SubDelimiter(c: char) { c in "!$&'()*+,;=" }

  predicate Pchars(s: string) {
    || s == ""
    || ((Unreserved(s[0]) || SubDelimiter(s[0]) || s[0] in ":@") && Pchars(s[1..]))
    || (s[0] == '%' && |s| >= 3 && IsHex(s[1]) && IsHex(s[2]) && Pchars(s[3..]))
  }

  predicate SegmentOk(s: string) { s != "" && s != "." && s != ".." && Pchars(s) }

  // ---- Ports, hosts and schemes.

  predicate PortOk(p: string) {
    p != "" && |p| <= 5 && p[0] != '0' && AllDigits(p) && 1 <= Value(p) <= 65535
  }

  predicate NameChar(c: char) { 'a' <= c <= 'z' || IsDigit(c) || c == '-' }

  predicate LabelOk(word: string) { word != "" && forall c :: c in word ==> NameChar(c) }

  // A lower-case host name: labels of letters, digits and hyphens.
  predicate NameOk(name: string) {
    forall part :: part in Split(name, '.') ==> LabelOk(part)
  }

  predicate LiteralOk(literal: string) {
    |literal| >= 2 && ':' in literal && forall c :: c in literal ==> IsHexLower(c) || c in ":."
  }

  // A lower-case host, a name or a bracketed IPv6 literal.
  predicate HostOk(host: string) {
    if host != "" && host[0] == '[' then
      |host| >= 2 && host[|host| - 1] == ']' && LiteralOk(host[1..|host| - 1])
    else NameOk(host)
  }

  function FoldScheme(scheme: string): Option<(string, string)> {
    if Lower(scheme) == "http" || Lower(scheme) == "ws" then Some(("http", "80"))
    else if Lower(scheme) == "https" || Lower(scheme) == "wss" then Some(("https", "443"))
    else None
  }

  // ---- URLs.

  predicate Grammar(p: Parts) {
    && FoldScheme(p.scheme).Some? && HostOk(Lower(p.host)) && (p.port == "" || PortOk(p.port))
    && forall part :: part in p.segments ==> SegmentOk(part)
  }

  function Authority(host: string, port: string): string { host + if port == "" then "" else ":" + port }

  function Spell(p: Parts): string { p.scheme + "://" + (Authority(p.host, p.port) + Led(p.segments, '/')) }

  // Scheme and host lower-case and folded, the scheme's default port left out.
  function Fold(p: Parts): Parts
    requires Grammar(p)
  {
    var folded := FoldScheme(p.scheme).value;
    Parts(folded.0, Lower(p.host), if p.port == folded.1 then "" else p.port, p.segments)
  }

  /** The audience a URL denotes. */
  ghost predicate Denotes(url: string, audience: string) {
    exists p :: Grammar(p) && Spell(p) == url && audience == Spell(Fold(p))
  }

  // ---- Folding.

  lemma LowerTwice(s: string)
    ensures Lower(Lower(s)) == Lower(s) && |Lower(s)| == |s|
  {
  }

  /** Plain schemes imply port 80 and secure ones 443, sockets as much as not: that port is left
      out of an audience, the other kept. */
  lemma {:induction false} ImpliedPortIsDropped(scheme: string, host: string, secure: bool, port: string)
    requires HostOk(host) && Lower(host) == host && port in {"", "80", "443"}
    requires scheme in if secure then {"https", "wss"} else {"http", "ws"}
    ensures Denotes(scheme + "://" + Authority(host, port),
              (if secure then "https" else "http") + "://"
              + Authority(host, if port == (if secure then "443" else "80") then "" else port))
  {
    var p := Parts(scheme, host, port, []);
    assert Lower("http") == "http" && Lower("https") == "https" && Lower("ws") == "ws" && Lower("wss") == "wss";
    assert "80"[..1] == "8" && "443"[..2] == "44" && "44"[..1] == "4";
    assert Value("80") == 10 * Value("8") + 0 && Value("443") == 10 * Value("44") + 3
           && Value("44") == 10 * Value("4") + 4;
    assert Grammar(p);
    assert Led([], '/') == "";
    assert Spell(p) == scheme + "://" + Authority(host, port);
  }

  lemma FoldedIsFixed(p: Parts)
    requires Grammar(p)
    ensures Grammar(Fold(p)) && Fold(Fold(p)) == Fold(p)
  {
    LowerTwice(p.host);
    assert Lower("http") == "http" && Lower("https") == "https";
  }

  /** An audience denotes itself. */
  lemma AudienceDenotesItself(url: string, audience: string)
    requires Denotes(url, audience)
    ensures Denotes(audience, audience)
  {
    var p :| Grammar(p) && Spell(p) == url && audience == Spell(Fold(p));
    FoldedIsFixed(p);
  }

  // ---- What the parts of a URL cannot contain.

  // Printable and not one of the characters that divide a URL.
  predicate InertChar(c: char) { '!' <= c <= '~' && c !in "?#/" }

  predicate Inert(s: string) { forall c :: c in s ==> InertChar(c) }

  lemma {:induction false} PcharsInert(s: string)
    requires Pchars(s)
    ensures Inert(s)
  {
    if s != "" {
      if s[0] == '%' {
        PcharsInert(s[3..]);
        assert s == [s[0], s[1], s[2]] + s[3..];
      } else {
        PcharsInert(s[1..]);
        assert s == [s[0]] + s[1..];
      }
    }
  }

  // A character that folding does not touch occurs in a text as it does in the folded one.
  lemma LowerKeeps(s: string, c: char)
    requires !IsAlpha(c)
    ensures c in s <==> c in Lower(s)
    ensures |Lower(s)| == |s| && (s != "" ==> (s[0] == c <==> Lower(s)[0] == c))
  {
    if i :| 0 <= i < |s| && s[i] == c { assert Lower(s)[i] == c; }
  }

  lemma LowerInert(s: string)
    requires Inert(Lower(s))
    ensures Inert(s)
  {
    forall c | c in s ensures InertChar(c) {
      var i :| 0 <= i < |s| && s[i] == c;
      assert Lower(s)[i] in Lower(s);
    }
  }

  // A joined text has the separator and its parts' characters only.
  lemma {:induction false} LedOf(parts: seq<string>, c: char)
    requires forall part :: part in parts ==> LabelOk(part)
    ensures forall x :: x in Led(parts, c) ==> x == c || NameChar(x)
  {
    if parts != [] {
      LedOf(parts[1..], c);
      assert LabelOk(parts[0]);
    }
  }

  lemma NameInert(name: string)
    requires NameOk(name)
    ensures name != "" && forall c :: c in name ==> c == '.' || NameChar(c)
  {
    var labels := Split(name, '.');
    SplitJoins(name, '.');
    LedOf(labels, '.');
    assert LabelOk(labels[0]);
    forall c | c in name ensures c == '.' || NameChar(c) { assert c in Led(labels, '.'); }
  }

  lemma LiteralInert(host: string)
    requires HostOk(host) && host != "" && host[0] == '['
    ensures forall c :: c in host ==> c in "[]:." || IsHexLower(c)
    ensures host == "[" + host[1..|host| - 1] + "]" && ']' !in host[..|host| - 1]
  {
    assert host == "[" + host[1..|host| - 1] + "]";
    assert host[..|host| - 1] == "[" + host[1..|host| - 1];
  }

  lemma LowerHostInert(host: string)
    requires HostOk(host)
    ensures host != "" && Inert(host) && '@' !in host && (host[0] != '[' ==> ':' !in host)
  {
    if host != "" && host[0] == '[' { LiteralInert(host); } else { NameInert(host); }
  }

  lemma HostInert(host: string)
    requires HostOk(Lower(host))
    ensures host != "" && Inert(host) && '@' !in host && (host[0] != '[' ==> ':' !in host)
  {
    LowerHostInert(Lower(host));
    LowerInert(host);
    LowerKeeps(host, '[');
    LowerKeeps(host, '@');
    LowerKeeps(host, ':');
  }

  // ---- Reading the parts of a well-formed URL back.

  lemma AuthorityInert(host: string, port: string)
    requires HostOk(Lower(host)) && (port == "" || PortOk(port))
    ensures Inert(Authority(host, port)) && '@' !in Authority(host, port) && Authority(host, port) != ""
  {
    HostInert(host);
  }

  lemma NameAuthorityReads(host: string, port: string)
    requires HostOk(Lower(host)) && (port == "" || PortOk(port)) && host != "" && host[0] != '['
    ensures IndexByte(Authority(host, port), ':') == if port == "" then -1 else |host|
  {
    HostInert(host);
    if port == "" {
      assert Authority(host, port) == host;
      NotFound(host, ':');
    } else {
      assert Authority(host, port) == host + [':'] + port;
      IndexAfter(host, ':', port);
    }
  }

  lemma LowerSlice(s: string, i: nat, j: nat)
    requires i <= j <= |s|
    ensures |Lower(s)| == |s| && Lower(s[i..j]) == Lower(s)[i..j]
  {
  }

  lemma LiteralEnds(host: string)
    requires HostOk(Lower(host)) && host != "" && host[0] == '['
    ensures |host| >= 2 && Lower(host)[0] == '[' && host[|host| - 1] == ']'
  {
    assert Lower(host)[0] == '[' && Lower(host)[|host| - 1] == ']';
  }

  // A bracketed host, lower case or not.
  lemma LiteralHost(host: string)
    requires HostOk(Lower(host)) && host != "" && host[0] == '['
    ensures |host| >= 2 && host == "[" + host[1..|host| - 1] + "]" && LiteralOk(Lower(host[1..|host| - 1]))
    ensures ']' !in host[..|host| - 1]
  {
    LiteralEnds(host);
    LowerSlice(host, 1, |host| - 1);
    LiteralInit(host);
    assert host == [host[0]] + host[1..|host| - 1] + [host[|host| - 1]];
  }

  lemma LiteralInit(host: string)
    requires HostOk(Lower(host)) && |host| >= 2 && Lower(host)[0] == '['
    ensures ']' !in host[..|host| - 1]
  {
    LiteralInert(Lower(host));
    LowerSlice(host, 0, |host| - 1);
    LowerKeeps(host[..|host| - 1], ']');
  }

  lemma LiteralAuthorityReads(host: string, port: string)
    requires HostOk(Lower(host)) && host != "" && host[0] == '['
    ensures |host| >= 2 && IndexByte(Authority(host, port), ']') == |host| - 1
  {
    LiteralHost(host);
    var init, rest := host[..|host| - 1], if port == "" then "" else ":" + port;
    IndexAfter(init, ']', rest);
    assert host == init + "]";
    assert Authority(host, port) == init + [']'] + rest;
  }

  lemma {:induction false} SegmentsInert(segments: seq<string>)
    requires forall part :: part in segments ==> SegmentOk(part)
    ensures forall c :: c in Led(segments, '/') ==> c == '/' || InertChar(c)
    ensures forall part :: part in segments ==> '/' !in part
  {
    if segments != [] {
      SegmentsInert(segments[1..]);
      assert SegmentOk(segments[0]);
      PcharsInert(segments[0]);
      assert segments == [segments[0]] + segments[1..];
    }
  }

  lemma SchemeInert(scheme: string)
    requires FoldScheme(scheme).Some?
    ensures Inert(scheme) && ':' !in scheme
  {
    LowerKeeps(scheme, ':');
    LowerInert(scheme);
  }

  predicate Printable(s: string) { forall c :: c in s ==> '!' <= c <= '~' }

  // Where the path begins in what follows the scheme.
  lemma RestReads(authority: string, segments: seq<string>)
    requires Inert(authority) && forall part :: part in segments ==> SegmentOk(part)
    ensures var rest := authority + Led(segments, '/');
            Printable(rest) && '?' !in rest && '#' !in rest && IndexByte(rest, '/') == if segments == [] then -1
              else |authority|
    ensures segments != [] ==> Led(segments, '/') != "" && Split(Led(segments, '/')[1..], '/') == segments
  {
    var path := Led(segments, '/');
    SegmentsInert(segments);
    if segments == [] {
      NotFound(authority + path, '/');
    } else {
      assert path == ['/'] + path[1..];
      assert authority + path == authority + ['/'] + path[1..];
      IndexAfter(authority, '/', path[1..]);
      JoinSplits(segments, '/');
    }
  }

  // Where the scheme ends.
  lemma SchemeReads(scheme: string, rest: string)
    requires FoldScheme(scheme).Some? && Printable(rest)
    ensures var url := scheme + "://" + rest;
            Printable(url) && IndexOf(url, "://") == |scheme| && url[..|scheme|] == scheme
              && url[|scheme| + 3..] == rest
  {
    SchemeInert(scheme);
    SubAfter(scheme, "://", rest);
  }

  // Everything the code looks for in a URL is where the parts put it.
  lemma UrlReads(p: Parts)
    requires Grammar(p)
    ensures var url, authority := Spell(p), Authority(p.host, p.port); var rest := authority + Led(p.segments, '/');
            && Printable(url) && IndexOf(url, "://") == |p.scheme| && url[..|p.scheme|] == p.scheme
               && url[|p.scheme| + 3..] == rest
            && '?' !in rest && '#' !in rest && IndexByte(rest, '/') == if p.segments == [] then -1 else |authority|
    ensures p.segments != [] ==> Led(p.segments, '/') != "" && Split(Led(p.segments, '/')[1..], '/') == p.segments
  {
    AuthorityInert(p.host, p.port);
    RestReads(Authority(p.host, p.port), p.segments);
    SchemeReads(p.scheme, Authority(p.host, p.port) + Led(p.segments, '/'));
  }

  // An authority names a host and a port.
  ghost predicate Names(authority: string, host: string, port: string) {
    HostOk(Lower(host)) && (port == "" || PortOk(port)) && authority == Authority(host, port)
  }

  lemma NamesOnce(authority: string, host: string, port: string, h: string, q: string)
    requires Names(authority, host, port) && Names(authority, h, q)
    ensures host == h && port == q
  {
    HostInert(host);
    HostInert(h);
    if authority[0] == '[' {
      LiteralAuthorityReads(host, port);
      LiteralAuthorityReads(h, q);
    } else {
      NameAuthorityReads(host, port);
      NameAuthorityReads(h, q);
    }
    assert |host| == |h|;
    assert host == authority[..|host|] == h;
    var tail := authority[|host|..];
    assert tail == (if port == "" then "" else ":" + port) && tail == if q == "" then "" else ":" + q;
    assert port == if tail == "" then "" else tail[1..];
    assert q == if tail == "" then "" else tail[1..];
  }

  /** A URL has one reading, so it denotes one audience at most. */
  lemma OneReading(p: Parts, q: Parts)
    requires Grammar(p) && Grammar(q) && Spell(p) == Spell(q)
    ensures p == q
  {
    UrlReads(p);
    UrlReads(q);
    var rest := Authority(p.host, p.port) + Led(p.segments, '/');
    assert rest == Authority(q.host, q.port) + Led(q.segments, '/');
    assert Authority(p.host, p.port) == Authority(q.host, q.port) by {
      assert p.segments == [] ==> rest == Authority(p.host, p.port);
      assert q.segments == [] ==> rest == Authority(q.host, q.port);
      assert Authority(p.host, p.port) == rest[..|Authority(p.host, p.port)|];
      assert Authority(q.host, q.port) == rest[..|Authority(q.host, q.port)|];
    }
    NamesOnce(Authority(p.host, p.port), p.host, p.port, q.host, q.port);
    assert Led(p.segments, '/') == rest[|Authority(p.host, p.port)|..] == Led(q.segments, '/');
  }
}
