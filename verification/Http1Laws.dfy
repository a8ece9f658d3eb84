/** The request writer against the request reader: what survives being forwarded. */
module Http1Laws {
  import opened Sequences
  import opened Text
  import opened Numbers
  import opened Streams
  import opened Chunked
  import opened Http1

  // ---------------------------------------------------------------- the end of a head

  predicate SolidLines(lines: seq<string>) {
    forall l :: l in lines ==> l != "" && '\n' !in l
  }

  lemma NotAtBlankLine(l: string, tail: string, j: nat)
    requires l != "" && '\n' !in l && j < |l| + 2
    requires tail != "" && (CRLF <= tail ==> j != |l|)
    ensures !At(l + CRLF + tail, j, BLANK_LINE)
  {
    var s := l + CRLF + tail;
    BlankLineChars(s, j);
    assert j + 1 < |l| ==> s[j + 1] == l[j + 1] && l[j + 1] in l;
    assert s[|l|] == '\r' && s[|l| + 1] == '\n';
    assert |tail| >= 2 ==> tail[0] == s[|l| + 2] && tail[1] == s[|l| + 3];
  }

  lemma BlankLineChars(s: string, j: nat)
    ensures At(s, j, BLANK_LINE)
       <==> j + 4 <= |s| && s[j] == '\r' && s[j + 1] == '\n' && s[j + 2] == '\r' && s[j + 3] == '\n'
  {
    if j + 4 <= |s| {
      assert s[j..j + 4] == [s[j], s[j + 1], s[j + 2], s[j + 3]];
    }
  }

  lemma AtShift(a: string, b: string, j: nat, pat: string)
    requires j >= |a|
    ensures At(a + b, j, pat) == At(b, j - |a|, pat)
  {
    if j + |pat| <= |a + b| {
      assert (a + b)[j..j + |pat|] == b[j - |a|..j - |a| + |pat|];
    }
  }

  predicate FirstAt(s: string, k: nat, pat: string) {
    At(s, k, pat) && forall j: nat :: j < k ==> !At(s, j, pat)
  }

  lemma FirstAtShift(a: string, b: string, k: nat, pat: string)
    requires FirstAt(b, k, pat) && forall j: nat :: j < |a| ==> !At(a + b, j, pat)
    ensures FirstAt(a + b, |a| + k, pat)
  {
    AtShift(a, b, |a| + k, pat);
    hide At;
    forall j: nat | j < |a| + k ensures !At(a + b, j, pat) {
      if j >= |a| { AtShift(a, b, j, pat); }
    }
  }

  lemma SolidLineIsNotBlank(l: string, rest: string)
    requires l != "" && '\n' !in l
    ensures var s := l + CRLF + rest; s != "" && !(CRLF <= s)
  {
    var s := l + CRLF + rest;
    assert s[0] == l[0];
    assert s[1] == if |l| > 1 then l[1] else '\r';
    assert |l| > 1 ==> l[1] in l;
  }

  lemma LastLineBlank(l: string, rest: string)
    requires l != "" && '\n' !in l
    ensures FirstAt(l + CRLF + CRLF + rest, |l|, BLANK_LINE)
  {
    var s := l + CRLF + CRLF + rest;
    BlankLineChars(s, |l|);
    forall j: nat | j < |l| ensures !At(s, j, BLANK_LINE) {
      assert s == l + CRLF + (CRLF + rest);
      NotAtBlankLine(l, CRLF + rest, j);
    }
  }

  /** The first empty line of a head is the one behind its last header. */
  lemma {:induction false} FirstBlankLine(lines: seq<string>, rest: string)
    requires lines != [] && SolidLines(lines)
    ensures |Unlines(lines)| >= 2 && FirstAt(Unlines(lines) + CRLF + rest, |Unlines(lines)| - 2, BLANK_LINE)
  {
    hide At, FirstAt;
    var l, tail := lines[0], Unlines(lines[1..]) + CRLF + rest;
    assert l in lines;
    Regroup(l + CRLF, Unlines(lines[1..]), CRLF, rest);
    if |lines| == 1 {
      assert Unlines(lines) == l + CRLF + "" == l + CRLF;
      LastLineBlank(l, rest);
    } else {
      assert forall x :: x in lines[1..] ==> x in lines;
      assert lines[1] in lines;
      FirstBlankLine(lines[1..], rest);
      assert tail == lines[1] + CRLF + (Unlines(lines[2..]) + CRLF + rest) by {
        assert lines[1..][1..] == lines[2..];
        Regroup(lines[1] + CRLF, Unlines(lines[2..]), CRLF, rest);
      }
      SolidLineIsNotBlank(lines[1], Unlines(lines[2..]) + CRLF + rest);
      forall j: nat | j < |l + CRLF| ensures !At(l + CRLF + tail, j, BLANK_LINE) {
        NotAtBlankLine(l, tail, j);
      }
      FirstAtShift(l + CRLF, tail, |Unlines(lines[1..])| - 2, BLANK_LINE);
    }
  }

  lemma HeadDelimited(lines: seq<string>, rest: string)
    requires lines != [] && SolidLines(lines)
    ensures var head := Unlines(lines) + CRLF;
            Delimited(head + rest, BLANK_LINE, HEAD_MAX) == (if |head| <= HEAD_MAX + 1 then Some(|head|) else None)
            && Lines(head) == lines + [""]
  {
    hide Delimited, FirstAt, Unlines, Lines;
    FirstBlankLine(lines, rest);
    DelimitedAt(Unlines(lines) + CRLF + rest, BLANK_LINE, HEAD_MAX, |Unlines(lines)| - 2);
    LinesOfHead(lines);
  }

  lemma DelimitedAt(s: string, pat: string, max: nat, k: nat)
    requires pat != "" && FirstAt(s, k, pat)
    ensures Delimited(s, pat, max) == if k + |pat| <= max + 1 then Some(k + |pat|) else None
  {
    FindIs(s, pat, k);
  }

  lemma LinesOfHead(lines: seq<string>)
    requires SolidLines(lines)
    ensures Lines(Unlines(lines) + CRLF) == lines + [""]
  {
    hide Lines;
    UnlinesConcat(lines, [""]);
    assert Unlines([""]) == "" + CRLF + "" == CRLF by { assert [""][1..] == []; }
    LinesOfUnlines(lines + [""]);
  }

  // ---------------------------------------------------------------- header lines

  /** A header that reads back as itself. */
  predicate Clean(h: Header) {
    CleanName(h.name) && CleanValue(h.value)
  }

  predicate CleanName(name: string) {
    Trimmed(name) && ':' !in name && '\n' !in name
  }

  predicate CleanValue(value: string) {
    Trimmed(value) && '\n' !in value
  }

  predicate AllClean(headers: seq<Header>) {
    forall h :: h in headers ==> Clean(h)
  }

  lemma HeaderLineParses(h: Header)
    requires Clean(h)
    ensures ParseHeaderLine(HeaderLine(h)) == Some(h)
    ensures HeaderLine(h) != "" && '\n' !in HeaderLine(h)
  {
    assert HeaderLine(h) == h.name + [':'] + (" " + h.value);
    IndexOfConcat(h.name, ':', " " + h.value);
    TrimFixed(h.name);
    TrimSpaceBefore(h.value);
    TrimFixed(h.value);
    assert HeaderLine(h)[..|h.name|] == h.name && HeaderLine(h)[|h.name| + 1..] == " " + h.value;
  }

  lemma NotAHeader()
    ensures ParseHeaderLine("") == None
  {
    IndexOfAbsent("", ':');
  }

  lemma {:induction false} HeaderLinesParse(headers: seq<Header>)
    requires AllClean(headers)
    ensures ParseHeaders(HeaderLines(headers) + [""]) == headers
    ensures SolidLines(HeaderLines(headers))
  {
    hide ParseHeaderLine, HeaderLine, Clean;
    if headers == [] {
      NotAHeader();
      assert HeaderLines(headers) + [""] == [""] && [""][1..] == [];
    } else {
      assert headers[0] in headers;
      HeaderLineParses(headers[0]);
      HeaderLinesParse(headers[1..]);
      var lines := HeaderLines(headers) + [""];
      assert lines[0] == HeaderLine(headers[0]) && lines[1..] == HeaderLines(headers[1..]) + [""];
      assert headers == [headers[0]] + headers[1..];
    }
  }

  // ---------------------------------------------------------------- what the writer sends

  lemma {:induction false} FirstValueConcat(a: seq<Header>, b: seq<Header>, name: string)
    ensures FirstValue(a + b, name) == if HasName(a, name) then FirstValue(a, name) else FirstValue(b, name)
  {
    if a == [] {
      assert a + b == b;
    } else {
      assert (a + b)[1..] == a[1..] + b;
      FirstValueConcat(a[1..], b, name);
      assert a == [a[0]] + a[1..];
    }
  }

  lemma {:induction false} ForwardedKeeps(headers: seq<Header>, hostValue: string)
    ensures forall h :: h in Forwarded(headers, hostValue)
              ==> !NotForwarded(h) && !Frames(h) && !Named(h, "cookie") && (h in headers || h == Header("Host", hostValue))
  {
    if headers != [] {
      ForwardedKeeps(headers[1..], hostValue);
      ForwardedConcat([headers[0]], headers[1..], hostValue);
      assert headers == [headers[0]] + headers[1..];
      ForwardedOne(headers[0], hostValue);
      OwnNames();
    }
  }

  /** The names the writer adds, in lower case. */
  lemma OwnNames()
    ensures Lower("Host") == "host" && Lower("Cookie") == "cookie"
    ensures Lower("Content-Length") == "content-length" && Lower("Connection") == "connection"
  {}

  lemma {:induction false} CookiesAreClean(headers: seq<Header>)
    requires AllClean(headers)
    ensures forall c :: c in Cookies(headers) ==> c != "" && Trimmed(c) && '\n' !in c
  {
    if headers != [] {
      assert headers[0] in headers;
      TrimFacts(headers[0].value);
      CookiesAreClean(headers[1..]);
    }
  }

  lemma {:induction false} JoinedIsClean(parts: seq<string>, sep: string)
    requires forall p :: p in parts ==> p != "" && Trimmed(p) && '\n' !in p
    requires '\n' !in sep
    ensures Trimmed(JoinWith(parts, sep)) && '\n' !in JoinWith(parts, sep)
    ensures parts != [] ==> JoinWith(parts, sep) != ""
  {
    if |parts| > 1 {
      assert parts[0] in parts && parts[1] in parts;
      assert forall x :: x in parts[1..] ==> x in parts;
      JoinedIsClean(parts[1..], sep);
    } else if |parts| == 1 {
      assert parts[0] in parts;
    }
  }

  predicate CleanHost(host: string) {
    Trimmed(host) && '\n' !in host
  }

  lemma HostValueIsClean(host: string, port: nat)
    requires CleanHost(host)
    ensures Trimmed(HostValue(host, port)) && '\n' !in HostValue(host, port)
  {
    DecimalIsToken(port);
  }

  lemma AllCleanConcat(a: seq<Header>, b: seq<Header>)
    requires AllClean(a) && AllClean(b)
    ensures AllClean(a + b)
  {}

  lemma OwnNamesAreClean()
    ensures CleanName("Host") && CleanName("Cookie") && CleanName("Content-Length") && CleanName("Connection")
    ensures CleanValue("keep-alive")
  {}

  /** The four headers the writer may add. */
  lemma OwnHeadersAreClean(req: Request, host: string, port: nat)
    requires AllClean(req.headers) && CleanHost(host)
    ensures Clean(Header("Host", HostValue(host, port)))
    ensures Clean(Header("Cookie", JoinWith(Cookies(req.headers), "; ")))
    ensures Clean(Header("Content-Length", Decimal(|req.body|)))
    ensures Clean(Header("Connection", "keep-alive"))
  {
    hide Cookies, Decimal, HostValue, CleanName;
    OwnNamesAreClean();
    HostValueIsClean(host, port);
    CookiesAreClean(req.headers);
    JoinedIsClean(Cookies(req.headers), "; ");
    DecimalIsToken(|req.body|);
  }

  lemma OutHeadersAreClean(req: Request, host: string, port: nat)
    requires AllClean(req.headers) && CleanHost(host)
    ensures AllClean(OutHeaders(req, host, port))
  {
    hide Cookies, Decimal, HostValue, Forwarded, Clean, NotForwarded, Frames;
    OwnHeadersAreClean(req, host, port);
    ForwardedKeeps(req.headers, HostValue(host, port));
    var h0 := Forwarded(req.headers, HostValue(host, port));
    var h1 := if HasName(req.headers, "host") then [] else [Header("Host", HostValue(host, port))];
    var cookies := Cookies(req.headers);
    var h2 := if cookies == [] then [] else [Header("Cookie", JoinWith(cookies, "; "))];
    var h3 := if Framed(req.headers) then [Header("Content-Length", Decimal(|req.body|))] else [];
    var h4 := if HasName(req.headers, "connection") then [] else [Header("Connection", "keep-alive")];
    AllCleanConcat(h0, h1);
    AllCleanConcat(h0 + h1, h2);
    AllCleanConcat(h0 + h1 + h2, h3);
    AllCleanConcat(h0 + h1 + h2 + h3, h4);
  }

  // ---------------------------------------------------------------- what the upstream sees

  lemma {:induction false} HasFirstValue(headers: seq<Header>, name: string)
    ensures FirstValue(headers, name).Some? <==> HasName(headers, name)
  {
    if headers != [] {
      HasFirstValue(headers[1..], name);
      assert headers == [headers[0]] + headers[1..];
    }
  }

  /** The pieces of the header list sent upstream. */
  lemma OutHeadersParts(req: Request, host: string, port: nat, h: Header)
    requires h in OutHeaders(req, host, port)
    ensures h in Forwarded(req.headers, HostValue(host, port))
         || (h == Header("Host", HostValue(host, port)) && !HasName(req.headers, "host"))
         || (h == Header("Cookie", JoinWith(Cookies(req.headers), "; ")) && Cookies(req.headers) != [])
         || (h == Header("Content-Length", Decimal(|req.body|)) && Framed(req.headers))
         || (h == Header("Connection", "keep-alive") && !HasName(req.headers, "connection"))
  {}

  function CountName(headers: seq<Header>, name: string): nat {
    if headers == [] then 0 else (if Named(headers[0], name) then 1 else 0) + CountName(headers[1..], name)
  }

  lemma {:induction false} CountNameConcat(a: seq<Header>, b: seq<Header>, name: string)
    ensures CountName(a + b, name) == CountName(a, name) + CountName(b, name)
  {
    if a == [] {
      assert a + b == b;
    } else {
      assert (a + b)[1..] == a[1..] + b;
      CountNameConcat(a[1..], b, name);
    }
  }

  lemma {:induction false} CountAbsent(headers: seq<Header>, name: string)
    requires forall h :: h in headers ==> !Named(h, name)
    ensures CountName(headers, name) == 0
  {
    if headers != [] {
      assert headers[0] in headers;
      CountAbsent(headers[1..], name);
    }
  }

  lemma CountOne(h: Header, name: string)
    ensures CountName([h], name) == if Named(h, name) then 1 else 0
  {
    assert [h][1..] == [];
  }

  /** How often a name other than Host and Connection occurs in what is sent. */
  lemma CountOut(req: Request, host: string, port: nat, name: string)
    requires name in {"cookie", "content-length", "transfer-encoding", "expect"}
    ensures CountName(OutHeaders(req, host, port), name)
         == (if name == "cookie" && Cookies(req.headers) != [] then 1 else 0)
          + (if name == "content-length" && Framed(req.headers) then 1 else 0)
  {
    hide Decimal, HostValue, JoinWith;
    var hv := HostValue(host, port);
    var f := Forwarded(req.headers, hv);
    ForwardedKeeps(req.headers, hv);
    OwnNames();
    forall h | h in f ensures !Named(h, name) {
      assert NotForwarded(h) == (Lower(h.name) in {"proxy-connection", "proxy-authorization", "proxy-authenticate", "keep-alive", "upgrade", "expect"});
    }
    CountAbsent(f, name);
    var host1, cookie, length, conn := Header("Host", hv), Header("Cookie", JoinWith(Cookies(req.headers), "; ")),
      Header("Content-Length", Decimal(|req.body|)), Header("Connection", "keep-alive");
    CountOne(host1, name);
    CountOne(cookie, name);
    CountOne(length, name);
    CountOne(conn, name);
    var h1 := if HasName(req.headers, "host") then [] else [host1];
    var h2 := if Cookies(req.headers) == [] then [] else [cookie];
    var h3 := if Framed(req.headers) then [length] else [];
    var h4 := if HasName(req.headers, "connection") then [] else [conn];
    assert CountName([], name) == 0;
    CountNameConcat(f, h1, name);
    CountNameConcat(f + h1, h2, name);
    CountNameConcat(f + h1 + h2, h3, name);
    CountNameConcat(f + h1 + h2 + h3, h4, name);
    assert OutHeaders(req, host, port) == f + h1 + h2 + h3 + h4;
  }

  lemma {:induction false} FirstValueMember(headers: seq<Header>, name: string, value: string)
    requires HasName(headers, name)
    requires forall h :: h in headers && Named(h, name) ==> h.value == value
    ensures FirstValue(headers, name) == Some(value)
  {
    if Named(headers[0], name) {
      assert headers[0] in headers;
    } else {
      assert headers == [headers[0]] + headers[1..];
      FirstValueMember(headers[1..], name, value);
    }
  }

  lemma {:induction false} CountedIsPresent(headers: seq<Header>, name: string)
    ensures CountName(headers, name) > 0 <==> HasName(headers, name)
  {
    if headers != [] {
      CountedIsPresent(headers[1..], name);
      assert headers == [headers[0]] + headers[1..];
    }
  }

  /** Of these names only the writer's own header can occur, with the writer's value. */
  lemma OwnHeaderOnly(req: Request, host: string, port: nat, h: Header)
    requires h in OutHeaders(req, host, port)
    ensures Named(h, "cookie") ==> h.value == JoinWith(Cookies(req.headers), "; ")
    ensures Named(h, "content-length") ==> h.value == Decimal(|req.body|)
  {
    hide Decimal, HostValue, JoinWith, OutHeaders, Forwarded, Cookies;
    OutHeadersParts(req, host, port, h);
    ForwardedKeeps(req.headers, HostValue(host, port));
    OwnNames();
  }

  /**
   Whatever the client sent, the upstream sees at most one cookie header (the merged jar), exactly
   one length if the body was framed at all, no transfer coding and no expectation.
   */
  lemma UpstreamHeaders(req: Request, host: string, port: nat)
    ensures var out := OutHeaders(req, host, port);
            CountName(out, "cookie") == (if Cookies(req.headers) == [] then 0 else 1)
            && (Cookies(req.headers) != [] ==> FirstValue(out, "cookie") == Some(JoinWith(Cookies(req.headers), "; ")))
            && CountName(out, "content-length") == (if Framed(req.headers) then 1 else 0)
            && CountName(out, "transfer-encoding") == 0 && CountName(out, "expect") == 0
    ensures FirstValue(OutHeaders(req, host, port), "content-length")
         == if Framed(req.headers) then Some(Decimal(|req.body|)) else None
    ensures !IsChunked(OutHeaders(req, host, port)) && !ExpectsContinue(OutHeaders(req, host, port))
  {
    hide Decimal, HostValue, JoinWith, OutHeaders, Cookies, Framed, Named;
    var out := OutHeaders(req, host, port);
    CountOut(req, host, port, "cookie");
    CountOut(req, host, port, "content-length");
    CountOut(req, host, port, "transfer-encoding");
    CountOut(req, host, port, "expect");
    CountedIsPresent(out, "cookie");
    CountedIsPresent(out, "content-length");
    CountedIsPresent(out, "transfer-encoding");
    CountedIsPresent(out, "expect");
    forall h | h in out
      ensures Named(h, "cookie") ==> h.value == JoinWith(Cookies(req.headers), "; ")
      ensures Named(h, "content-length") ==> h.value == Decimal(|req.body|)
    {
      OwnHeaderOnly(req, host, port, h);
    }
    if Cookies(req.headers) != [] {
      FirstValueMember(out, "cookie", JoinWith(Cookies(req.headers), "; "));
    }
    if Framed(req.headers) {
      FirstValueMember(out, "content-length", Decimal(|req.body|));
    } else {
      HasFirstValue(out, "content-length");
    }
  }

  // ---------------------------------------------------------------- what is forwarded, in plain terms

  /** Names of headers the writer passes on as they are: not those of one hop, not framing, cookies or the host. */
  predicate Passed(name: string) {
    Lower(name) !in {"host", "cookie", "content-length", "transfer-encoding", "expect", "keep-alive",
                     "upgrade", "proxy-connection", "proxy-authorization", "proxy-authenticate"}
  }

  /** Of these, all but the connection options are headers from end to end. */
  predicate EndToEnd(name: string) {
    Passed(name) && Lower(name) != "connection"
  }

  lemma {:induction false} PassedIsForwarded(headers: seq<Header>, hostValue: string, h: Header)
    requires Passed(h.name)
    ensures multiset(Forwarded(headers, hostValue))[h] == multiset(headers)[h]
  {
    hide Passed, NotForwarded, Frames, Named;
    if headers != [] {
      PassedIsForwarded(headers[1..], hostValue, h);
      ForwardedConcat([headers[0]], headers[1..], hostValue);
      assert headers == [headers[0]] + headers[1..];
      OneForwarded(headers[0], hostValue, h);
    }
  }

  lemma OneForwarded(x: Header, hostValue: string, h: Header)
    requires Passed(h.name)
    ensures multiset(Forwarded([x], hostValue))[h] == multiset([x])[h]
  {
    OwnNames();
    assert [x][1..] == [];
  }

  lemma {:induction false} ForwardedOrder(headers: seq<Header>, hostValue: string, x: Header, y: Header)
    requires Passed(x.name) && Passed(y.name) && Before(headers, x, y)
    ensures Before(Forwarded(headers, hostValue), x, y)
  {
    hide Passed, Forwarded;
    var i, j :| 0 <= i < j < |headers| && headers[i] == x && headers[j] == y;
    var a, b := headers[..i + 1], headers[i + 1..];
    assert headers == a + b && a[i] == x && b[j - i - 1] == y;
    ForwardedConcat(a, b, hostValue);
    PassedIsForwarded(a, hostValue, x);
    PassedIsForwarded(b, hostValue, y);
    assert x in multiset(a) && y in multiset(b);
    assert x in multiset(Forwarded(a, hostValue)) && y in multiset(Forwarded(b, hostValue));
    BeforeAcross(Forwarded(a, hostValue), Forwarded(b, hostValue), x, y);
  }

  /** The headers the writer adds itself. */
  function Added(req: Request, host: string, port: nat): seq<Header> {
    (if HasName(req.headers, "host") then [] else [Header("Host", HostValue(host, port))])
    + (if Cookies(req.headers) == [] then [] else [Header("Cookie", JoinWith(Cookies(req.headers), "; "))])
    + (if Framed(req.headers) then [Header("Content-Length", Decimal(|req.body|))] else [])
    + (if HasName(req.headers, "connection") then [] else [Header("Connection", "keep-alive")])
  }

  lemma AddedParts(req: Request, host: string, port: nat)
    ensures OutHeaders(req, host, port) == Forwarded(req.headers, HostValue(host, port)) + Added(req, host, port)
    ensures forall h :: h in Added(req, host, port) ==> Lower(h.name) in {"host", "cookie", "content-length", "connection"}
  {
    hide Forwarded, HostValue, Cookies, JoinWith, Framed, HasName, Decimal;
    OwnNames();
  }

  /** Every other header arrives unchanged: as often as it was sent, and in the order it was sent. */
  lemma EndToEndHeadersArrive(req: Request, host: string, port: nat, x: Header, y: Header)
    requires EndToEnd(x.name) && EndToEnd(y.name)
    ensures multiset(OutHeaders(req, host, port))[x] == multiset(req.headers)[x]
    ensures Before(req.headers, x, y) ==> Before(OutHeaders(req, host, port), x, y)
  {
    hide OutHeaders, Forwarded, Added, Before;
    var hv := HostValue(host, port);
    AddedParts(req, host, port);
    PassedIsForwarded(req.headers, hv, x);
    assert x !in Added(req, host, port);
    assert multiset(OutHeaders(req, host, port)) == multiset(Forwarded(req.headers, hv)) + multiset(Added(req, host, port));
    if Before(req.headers, x, y) {
      ForwardedOrder(req.headers, hv, x, y);
      BeforeWithin(Forwarded(req.headers, hv), Added(req, host, port), x, y);
    }
  }

  /** The client's connection options are passed on; without any the upstream is asked to keep the connection. */
  lemma ConnectionHeaders(req: Request, host: string, port: nat, h: Header)
    requires Lower(h.name) == "connection"
    ensures multiset(OutHeaders(req, host, port))[h]
         == if exists x :: x in req.headers && Lower(x.name) == "connection" then multiset(req.headers)[h]
            else if h == Header("Connection", "keep-alive") then 1 else 0
  {
    hide OutHeaders, Forwarded, Added;
    var hv := HostValue(host, port);
    AddedParts(req, host, port);
    PassedIsForwarded(req.headers, hv, h);
    AddedConnection(req, host, port, h);
    assert multiset(OutHeaders(req, host, port)) == multiset(Forwarded(req.headers, hv)) + multiset(Added(req, host, port));
    assert HasName(req.headers, "connection") <==> exists x :: x in req.headers && Lower(x.name) == "connection";
    if !HasName(req.headers, "connection") { assert h !in req.headers; }
  }

  lemma AddedConnection(req: Request, host: string, port: nat, h: Header)
    requires Lower(h.name) == "connection"
    ensures multiset(Added(req, host, port))[h]
         == if !HasName(req.headers, "connection") && h == Header("Connection", "keep-alive") then 1 else 0
  {
    hide HostValue, Cookies, JoinWith, Framed, HasName, Decimal;
    OwnNames();
    assert |"connection"| == 10 && |"host"| == 4 && |"cookie"| == 6 && |"content-length"| == 14;
    var own, cookie, length := Header("Host", HostValue(host, port)), Header("Cookie", JoinWith(Cookies(req.headers), "; ")),
      Header("Content-Length", Decimal(|req.body|));
    assert h != own && h != cookie && h != length;
    var front := (if HasName(req.headers, "host") then [] else [own]) + (if Cookies(req.headers) == [] then [] else [cookie])
                 + (if Framed(req.headers) then [length] else []);
    var last := if HasName(req.headers, "connection") then [] else [Header("Connection", "keep-alive")];
    assert Added(req, host, port) == front + last;
    assert h !in front;
    assert multiset(front + last) == multiset(front) + multiset(last);
  }

  lemma {:induction false} ForwardedHosts(headers: seq<Header>, hostValue: string)
    ensures CountName(Forwarded(headers, hostValue), "host") == CountName(headers, "host")
    ensures forall h :: h in Forwarded(headers, hostValue) && Named(h, "host") ==> h == Header("Host", hostValue)
  {
    hide NotForwarded, Frames, Named;
    if headers != [] {
      ForwardedHosts(headers[1..], hostValue);
      ForwardedConcat([headers[0]], headers[1..], hostValue);
      CountNameConcat([headers[0]], headers[1..], "host");
      assert headers == [headers[0]] + headers[1..];
      OneHost(headers[0], hostValue);
      CountNameConcat(Forwarded([headers[0]], hostValue), Forwarded(headers[1..], hostValue), "host");
    }
  }

  lemma OneHost(x: Header, hostValue: string)
    ensures CountName(Forwarded([x], hostValue), "host") == CountName([x], "host")
    ensures forall h :: h in Forwarded([x], hostValue) && Named(h, "host") ==> h == Header("Host", hostValue)
  {
    OwnNames();
    assert [x][1..] == [];
    assert |"host"| == 4 && |"cookie"| == 6 && |"transfer-encoding"| == 17 && |"content-length"| == 14;
    CountOne(x, "host");
    CountOne(Header("Host", hostValue), "host");
    assert CountName([], "host") == 0;
  }

  /**
   The upstream is told the host that was asked for, and its port unless it is the default one: once, or as
   often as the client named a host.
   */
  lemma UpstreamHost(req: Request, host: string, port: nat)
    ensures var out := OutHeaders(req, host, port);
            var value := if port == 80 || port == 443 then host else host + ":" + Decimal(port);
            && (forall h :: h in out && Lower(h.name) == "host" ==> h == Header("Host", value))
            && CountName(out, "host") == (if CountName(req.headers, "host") == 0 then 1 else CountName(req.headers, "host"))
  {
    hide OutHeaders, Forwarded, Decimal, Cookies, JoinWith, Framed;
    var hv := HostValue(host, port);
    AddedParts(req, host, port);
    ForwardedHosts(req.headers, hv);
    CountedIsPresent(req.headers, "host");
    OwnNames();
    CountNameConcat(Forwarded(req.headers, hv), Added(req, host, port), "host");
    AddedHosts(req, host, port);
  }

  lemma AddedHosts(req: Request, host: string, port: nat)
    ensures CountName(Added(req, host, port), "host") == if HasName(req.headers, "host") then 0 else 1
    ensures forall h :: h in Added(req, host, port) && Named(h, "host") ==> h == Header("Host", HostValue(host, port))
  {
    hide HostValue, HasName, AddedBehindHost;
    var own := if HasName(req.headers, "host") then [] else [Header("Host", HostValue(host, port))];
    assert Added(req, host, port) == own + AddedBehindHost(req) by { AddedSplits(req, host, port); }
    OtherNames(req);
    CountNameConcat(own, AddedBehindHost(req), "host");
    CountAbsent(AddedBehindHost(req), "host");
    CountOne(Header("Host", HostValue(host, port)), "host");
    OwnNames();
    assert CountName([], "host") == 0;
  }

  function AddedBehindHost(req: Request): seq<Header> {
    (if Cookies(req.headers) == [] then [] else [Header("Cookie", JoinWith(Cookies(req.headers), "; "))])
    + (if Framed(req.headers) then [Header("Content-Length", Decimal(|req.body|))] else [])
    + (if HasName(req.headers, "connection") then [] else [Header("Connection", "keep-alive")])
  }

  lemma AddedSplits(req: Request, host: string, port: nat)
    ensures Added(req, host, port)
         == (if HasName(req.headers, "host") then [] else [Header("Host", HostValue(host, port))]) + AddedBehindHost(req)
  {
    hide HostValue, Cookies, JoinWith, Framed, HasName, Decimal;
  }

  lemma OtherNames(req: Request)
    ensures forall h :: h in AddedBehindHost(req) ==> !Named(h, "host")
  {
    hide Cookies, JoinWith, Framed, HasName, Decimal;
    OwnNames();
    assert |"host"| == 4 && |"cookie"| == 6 && |"content-length"| == 14 && |"connection"| == 10;
  }

  lemma {:induction false} CookiesConcat(a: seq<Header>, b: seq<Header>)
    ensures Cookies(a + b) == Cookies(a) + Cookies(b)
  {
    hide Named, Trim;
    if a == [] {
      assert a + b == b;
    } else {
      CookiesConcat(a[1..], b);
      CookiesFront(a);
      CookiesFront(a + b);
      assert (a + b)[1..] == a[1..] + b;
      hide Cookies;
      Associate(Cookies([a[0]]), Cookies(a[1..]), Cookies(b));
    }
  }

  lemma CookiesFront(headers: seq<Header>)
    requires headers != []
    ensures Cookies(headers) == Cookies([headers[0]]) + Cookies(headers[1..])
  {
    hide Named, Trim;
    assert [headers[0]][1..] == [];
  }

  lemma OneCookie(h: Header, v: string)
    ensures v in Cookies([h]) <==> v != "" && Lower(h.name) == "cookie" && Trim(h.value) == v
  {
    hide Lower, Trim;
    assert [h][1..] == [];
  }

  /** The merged cookie holds every cookie header of the request that is not blank, in order. */
  lemma {:induction false} CookiesAre(a: seq<Header>, b: seq<Header>, v: string)
    ensures v in Cookies(a) <==> v != "" && exists h :: h in a && Lower(h.name) == "cookie" && Trim(h.value) == v
    ensures Cookies(a + b) == Cookies(a) + Cookies(b)
    decreases |a|
  {
    hide Cookies, Lower, Trim;
    CookiesConcat(a, b);
    if a == [] {
      assert Cookies([]) == [] by { NoCookies(); }
    } else {
      CookiesAre(a[1..], [], v);
      CookiesFront(a);
      OneCookie(a[0], v);
      assert forall h :: h in a <==> h == a[0] || h in a[1..];
    }
  }

  lemma NoCookies()
    ensures Cookies([]) == []
  {}

  /** A request counts as framed if it has a header for the length or the coding of its body, whatever it says. */
  lemma FramedIff(headers: seq<Header>)
    ensures Framed(headers) <==> exists h :: h in headers && Lower(h.name) in {"content-length", "transfer-encoding"}
  {
    hide Lower;
    forall h | h in headers ensures Frames(h) <==> Lower(h.name) in {"content-length", "transfer-encoding"} {}
  }

  /** Headers about the client's own hop are not passed on. */
  lemma HopHeadersStop(req: Request, host: string, port: nat, h: Header)
    requires h in OutHeaders(req, host, port)
    ensures Lower(h.name) !in {"proxy-connection", "proxy-authorization", "proxy-authenticate", "keep-alive", "upgrade",
                               "expect", "transfer-encoding"}
  {
    hide Decimal, HostValue, JoinWith, Forwarded, Cookies, Framed;
    OutHeadersParts(req, host, port, h);
    ForwardedKeeps(req.headers, HostValue(host, port));
    OwnNames();
  }

  /** The request target: the path, or for a proxy the whole address. */
  lemma TargetForms(req: Request, host: string, port: nat)
    ensures Target(req, host, port, false) == req.path
    ensures port == 443 ==> Target(req, host, port, true) == "https://" + host + req.path
    ensures port != 443 ==> Target(req, host, port, true) == "http://" + host + req.path
  {
    assert "https" + "://" == "https://" && "http" + "://" == "http://";
  }

  /** The client waits for an interim answer if some Expect header says so, in any case. */
  lemma ExpectsIff(headers: seq<Header>)
    ensures ExpectsContinue(headers) <==>
              exists h :: h in headers && Lower(h.name) == "expect" && MentionsWord(h.value, "100-continue")
  {
    hide Lower, Contains;
    forall h | h in headers ensures Contains(Lower(h.value), "100-continue") <==> MentionsWord(h.value, "100-continue") {
      ContainsAt(Lower(h.value), "100-continue");
    }
  }

  /** The word occurs somewhere in the value, in any case. */
  predicate MentionsWord(value: string, word: string) {
    exists i :: 0 <= i <= |value| && word <= Lower(value)[i..]
  }

  /** A body is chunked if some Transfer-Encoding header says so, in any case. */
  lemma ChunkedIff(headers: seq<Header>)
    ensures IsChunked(headers) <==>
              exists h :: h in headers && Lower(h.name) == "transfer-encoding" && MentionsWord(h.value, "chunked")
  {
    hide Lower, Contains;
    forall h | h in headers ensures Contains(Lower(h.value), "chunked") <==> MentionsWord(h.value, "chunked") {
      ContainsAt(Lower(h.value), "chunked");
    }
  }

  /** The first header of a name decides, however the name is written and whatever comes behind it. */
  lemma {:induction false} FirstDecides(a: seq<Header>, h: Header, b: seq<Header>, name: string)
    requires (forall x :: x in a ==> Lower(x.name) != name) && Lower(h.name) == name
    ensures FirstValue(a + [h] + b, name) == Some(h.value)
  {
    hide Lower;
    if a == [] {
      assert [] + [h] + b == [h] + b;
    } else {
      assert (a + [h] + b)[1..] == a[1..] + [h] + b && a[0] in a;
      FirstDecides(a[1..], h, b, name);
    }
  }

  /** A length is a decimal number, with blanks around it and a sign in front if the sender likes. */
  lemma LengthReads(a: seq<Header>, h: Header, b: seq<Header>, before: string, n: nat, after: string)
    requires (forall x :: x in a ==> Lower(x.name) != "content-length") && Lower(h.name) == "content-length"
    requires IsBlank(before) && IsBlank(after) && n <= 0xFFFF_FFFF_FFFF_FFFF
    ensures h.value == before + Decimal(n) + after ==> ContentLength(a + [h] + b) == Some(n)
    ensures h.value == before + ("+" + Decimal(n)) + after ==> ContentLength(a + [h] + b) == Some(n)
  {
    hide Lower, Trim, Decimal, ParseUint, IsBlank;
    FirstDecides(a, h, b, "content-length");
    DecimalIsToken(n);
    ParseDecimal(n, USIZE_MAX);
    PlusIsAccepted(n, USIZE_MAX);
    TrimAround(before, Decimal(n), after);
    TrimAround(before, "+" + Decimal(n), after);
  }

  /** A header line is split at its first colon, and blanks around both parts do not count; without one it is skipped. */
  lemma HeaderLineReads(line: string, name: string, value: string)
    ensures ':' !in line ==> ParseHeaderLine(line) == None
    ensures ':' !in name && line == name + ":" + value ==> ParseHeaderLine(line) == Some(Header(Trim(name), Trim(value)))
  {
    if ':' !in line { IndexOfAbsent(line, ':'); }
    if ':' !in name && line == name + ":" + value {
      assert line == name + [':'] + value;
      IndexOfConcat(name, ':', value);
      assert line[..|name|] == name && line[|name| + 1..] == value;
    }
  }

  /** Header lines are read one by one, in order. */
  lemma {:induction false} HeadersReadInOrder(a: seq<string>, b: seq<string>)
    ensures ParseHeaders(a + b) == ParseHeaders(a) + ParseHeaders(b)
  {
    hide ParseHeaderLine;
    if a == [] {
      assert a + b == b;
    } else {
      assert (a + b)[1..] == a[1..] + b;
      HeadersReadInOrder(a[1..], b);
    }
  }

  /** A request head: method and path are the first two words of its first line, whatever follows them. */
  lemma HeadLinesRead(text: string, line: string, rest: seq<string>, words: seq<string>)
    requires Lines(text) == [line] + rest && Tokens(line) == words
    ensures ParseRequestHead(text) ==
              if |words| < 2 then None else Some(Request(words[0], words[1], ParseHeaders(rest), ""))
  {
    hide Lines, Tokens, ParseHeaders;
    assert ([line] + rest)[1..] == rest;
  }

  /** Lines end at a line feed, with or without a carriage return in front of it. */
  lemma LinesEndAtLineFeed(line: string, rest: string)
    requires '\n' !in line && (line != "" ==> line[|line| - 1] != '\r')
    ensures Lines(line + "\n" + rest) == [line] + Lines(rest) && Lines(line + "\r\n" + rest) == [line] + Lines(rest)
  {
    LinesCons(line, rest);
    assert line + "\n" + rest == line + ['\n'] + rest;
    IndexOfConcat(line, '\n', rest);
    var s := line + "\n" + rest;
    assert s[..|line|] == line && s[|line| + 1..] == rest;
  }

  // ---------------------------------------------------------------- the round trip

  /** A request whose head has a chance to read back: plain tokens and clean headers. */
  predicate CleanRequest(req: Request) {
    IsToken(req.verb) && IsToken(req.path) && AllClean(req.headers)
  }

  lemma VersionIsToken()
    ensures IsToken(VERSION) && '\n' !in VERSION
  {}

  lemma TokenHasNoLf(t: string)
    requires IsToken(t)
    ensures '\n' !in t
  {}

  lemma RequestLineTokens(verb: string, target: string)
    requires IsToken(verb) && IsToken(target)
    ensures var line := verb + " " + target + " " + VERSION;
            Tokens(line) == [verb, target, VERSION] && line != "" && '\n' !in line
  {
    VersionIsToken();
    TokensOfThree(verb, target, VERSION);
    TokenHasNoLf(verb);
    TokenHasNoLf(target);
  }

  /** What an upstream can make of a forwarded request. */
  function AsForwarded(req: Request, host: string, port: nat, absolute: bool, body: string): Request {
    Request(req.verb, Target(req, host, port, absolute), OutHeaders(req, host, port), body)
  }

  /** The written head reads back as the rewritten request, unless it is too long to be read at all. */
  lemma HeadRoundTrip(req: Request, host: string, port: nat, absolute: bool, rest: string)
    requires CleanRequest(req) && CleanHost(host) && IsToken(Target(req, host, port, absolute))
    ensures var head := RequestHead(req, host, port, absolute);
            var read := Received(AsForwarded(req, host, port, absolute, ""), |head|);
            ParseHead(head + rest) == if |head| <= 65_537 then Some(read) else None
  {
    hide Delimited, Target, OutHeaders, AllClean, CleanHost, CleanRequest, Lines, Tokens, ParseHeaders;
    var out := OutHeaders(req, host, port);
    var line := RequestLine(req, host, port, absolute);
    var head := RequestHead(req, host, port, absolute);
    assert IsToken(req.verb) && AllClean(req.headers) by { CleanRequestParts(req); }
    OutHeadersAreClean(req, host, port);
    HeaderLinesParse(out);
    RequestLineTokens(req.verb, Target(req, host, port, absolute));
    var lines := [line] + HeaderLines(out);
    assert lines[1..] == HeaderLines(out);
    assert Unlines(lines) == line + CRLF + HeaderText(out);
    assert head == Unlines(lines) + CRLF;
    HeadDelimited(lines, rest);
    assert (head + rest)[..|head|] == head;
    assert (lines + [""])[0] == line && (lines + [""])[1..] == HeaderLines(out) + [""];
  }

  lemma CleanRequestParts(req: Request)
    requires CleanRequest(req)
    ensures IsToken(req.verb) && IsToken(req.path) && AllClean(req.headers)
  {}

  /**
   Reading what was written, with anything behind it: the same verb, target and headers as sent, and
   the body exactly if it was framed; a reader takes an unframed body for the next message.
   */
  lemma RequestRoundTrip(req: Request, host: string, port: nat, absolute: bool, rest: string)
    requires CleanRequest(req) && CleanHost(host) && IsToken(Target(req, host, port, absolute))
    requires |req.body| <= USIZE_MAX
    ensures var head := RequestHead(req, host, port, absolute);
            var body := if Framed(req.headers) then req.body else "";
            var read := Received(AsForwarded(req, host, port, absolute, body), |head| + |body|);
            ParseRequest(RequestText(req, host, port, absolute) + rest)
              == if |head| <= 65_537 then Some(read) else None
  {
    hide ParseHead, ParseBody, RequestHead, OutHeaders, Target, CleanRequest, Framed;
    var head := RequestHead(req, host, port, absolute);
    var text := RequestText(req, host, port, absolute) + rest;
    assert text == head + (req.body + rest);
    HeadRoundTrip(req, host, port, absolute, req.body + rest);
    BodyRoundTrip(req, host, port, rest);
    assert text[|head|..] == req.body + rest;
  }

  /** The headers sent delimit the body they were sent with. */
  lemma BodyRoundTrip(req: Request, host: string, port: nat, rest: string)
    requires |req.body| <= USIZE_MAX
    ensures ParseBody(OutHeaders(req, host, port), req.body + rest)
         == if Framed(req.headers) then Some(Body(|req.body|, req.body)) else Some(Body(0, ""))
  {
    hide OutHeaders, IsChunked, Framed, Decimal, Trim, ParseUint;
    UpstreamHeaders(req, host, port);
    assert (req.body + rest)[..|req.body|] == req.body;
    if Framed(req.headers) {
      assert Trim(Decimal(|req.body|)) == Decimal(|req.body|) by {
        DecimalIsToken(|req.body|);
        TrimFixed(Decimal(|req.body|));
      }
      ParseDecimal(|req.body|, USIZE_MAX);
    }
  }

  /** The body and everything behind it survive forwarding exactly when the head can be read and the body was framed or empty. */
  lemma BodySurvivesIffFramed(req: Request, host: string, port: nat, absolute: bool, rest: string)
    requires CleanRequest(req) && CleanHost(host) && IsToken(Target(req, host, port, absolute))
    requires |req.body| <= USIZE_MAX
    ensures var text := RequestText(req, host, port, absolute);
            var received := ParseRequest(text + rest);
            received.Some? && received.value.request.body == req.body && (text + rest)[received.value.len..] == rest
            <==> |RequestHead(req, host, port, absolute)| <= 65_537 && (Framed(req.headers) || req.body == "")
  {
    hide ParseRequest, Framed, OutHeaders, RequestHead, CleanRequest, Target;
    RequestRoundTrip(req, host, port, absolute, rest);
    var head := RequestHead(req, host, port, absolute);
    assert RequestText(req, host, port, absolute) + rest == head + (req.body + rest);
    if Framed(req.headers) || req.body == "" {
      assert (head + req.body + rest)[|head| + |req.body|..] == rest;
    }
  }

  const UNFRAMED_POST := Request("POST", "/", [Header("Host", "a.com")], "x")

  /** A request as it comes from an HTTP/2 client that announced no length: the upstream finds its body behind an empty one. */
  lemma UnframedBodyIsLost()
    ensures var text := RequestText(UNFRAMED_POST, "a.com", 443, false);
            ParseRequest(text).Some? && ParseRequest(text).value.request.body == ""
            && text[ParseRequest(text).value.len..] == "x"
  {
    hide ParseRequest, RequestHead;
    var head := RequestHead(UNFRAMED_POST, "a.com", 443, false);
    UnframedHead();
    RequestRoundTrip(UNFRAMED_POST, "a.com", 443, false, "");
    var text := RequestText(UNFRAMED_POST, "a.com", 443, false);
    assert text == head + "x" && text + "" == text;
  }

  lemma UnframedHead()
    ensures CleanRequest(UNFRAMED_POST) && !Framed(UNFRAMED_POST.headers)
    ensures |RequestHead(UNFRAMED_POST, "a.com", 443, false)| <= HEAD_MAX + 1
  {
    var out := [Header("Host", "a.com"), Header("Connection", "keep-alive")];
    UnframedHeaders();
    hide OutHeaders, Framed;
    assert HeaderLines([out[1]]) == [HeaderLine(out[1])] by { assert [out[1]][1..] == []; }
    assert HeaderLines(out) == [HeaderLine(out[0]), HeaderLine(out[1])] by { assert out[1..] == [out[1]]; }
    assert |Unlines([HeaderLine(out[1])])| == |HeaderLine(out[1])| + 2 by { assert [HeaderLine(out[1])][1..] == []; }
    assert HeaderLines(out)[1..] == [HeaderLine(out[1])];
  }

  lemma UnframedHeaders()
    ensures !Framed(UNFRAMED_POST.headers)
    ensures OutHeaders(UNFRAMED_POST, "a.com", 443) == [Header("Host", "a.com"), Header("Connection", "keep-alive")]
  {
    var host := Header("Host", "a.com");
    assert Lower("Host") == "host" && |"cookie"| == 6 && |"proxy-connection"| == 16;
    assert [host][1..] == [];
    assert Forwarded([host], "a.com") == [host];
  }

  // ---------------------------------------------------------------- every request that can be read

  lemma ParsedHeaderIsClean(line: string)
    requires '\n' !in line && ParseHeaderLine(line).Some?
    ensures Clean(ParseHeaderLine(line).value)
  {
    var k := IndexOf(line, ':');
    TrimFacts(line[..k]);
    TrimFacts(line[k + 1..]);
  }

  lemma {:induction false} ParsedHeadersAreClean(lines: seq<string>)
    requires forall l :: l in lines ==> '\n' !in l
    ensures AllClean(ParseHeaders(lines))
  {
    if lines != [] {
      assert lines[0] in lines;
      ParsedHeadersAreClean(lines[1..]);
      if ParseHeaderLine(lines[0]).Some? { ParsedHeaderIsClean(lines[0]); }
    }
  }

  /** Every request the reader can return is clean, and has a body only if it was framed. */
  lemma ReadRequestsAreClean(s: string)
    requires ParseRequest(s).Some?
    ensures CleanRequest(ParseRequest(s).value.request)
    ensures Framed(ParseRequest(s).value.request.headers) || ParseRequest(s).value.request.body == ""
  {
    var h := Delimited(s, BLANK_LINE, HEAD_MAX).value;
    var lines := Lines(s[..h]);
    var head := ParseRequestHead(s[..h]).value;
    NoLfInLines(s[..h]);
    TokensAreTokens(lines[0]);
    assert Tokens(lines[0])[0] in Tokens(lines[0]) && Tokens(lines[0])[1] in Tokens(lines[0]);
    ParsedHeadersAreClean(lines[1..]);
    FramedWhenBody(head.headers, s[h..]);
  }

  lemma FramedWhenBody(headers: seq<Header>, s: string)
    requires ParseBody(headers, s).Some?
    ensures Framed(headers) || ParseBody(headers, s).value.entity == ""
  {
    if IsChunked(headers) {
      var h :| h in headers && Named(h, "transfer-encoding");
      assert Frames(h);
    } else if ContentLength(headers).Some? {
      HasFirstValue(headers, "content-length");
      var h :| h in headers && Named(h, "content-length");
      assert Frames(h);
    }
  }

  /**
   The law of the forwarding path: whatever was read from a client, written for an upstream and read
   there, is the same request up to its connection headers, and what follows it is untouched. Only a
   head that the rewriting made too long is refused.
   */
  lemma ForwardedRequestReadsBack(s: string, host: string, port: nat, rest: string)
    requires ParseRequest(s).Some? && CleanHost(host)
    requires |ParseRequest(s).value.request.body| <= USIZE_MAX
    ensures var req := ParseRequest(s).value.request;
            var text := RequestText(req, host, port, false);
            ParseRequest(text + rest)
              == if |RequestHead(req, host, port, false)| <= 65_537
                 then Some(Received(req.(headers := OutHeaders(req, host, port)), |text|)) else None
  {
    hide ParseRequest, OutHeaders, RequestHead, Framed;
    var req := ParseRequest(s).value.request;
    ReadRequestsAreClean(s);
    RequestRoundTrip(req, host, port, false, rest);
  }
}
