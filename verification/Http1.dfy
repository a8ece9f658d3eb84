/** HTTP/1.1 heads and requests: the reader, the writer, and the functions they compute. */
module Http1 {
  import opened Sequences
  import opened Text
  import opened Numbers
  import opened Streams
  import opened Chunked

  const HEAD_MAX := 65536
  const BLANK_LINE := "\r\n\r\n"
  const VERSION := "HTTP/1.1"
  const CONTINUE := "HTTP/1.1 100 Continue\r\n\r\n"

  datatype Header = Header(name: string, value: string)

  datatype Request = Request(verb: string, path: string, headers: seq<Header>, body: string)

  // ---------------------------------------------------------------- header lists

  predicate Named(h: Header, lower: string) {
    Lower(h.name) == lower
  }

  predicate HasName(headers: seq<Header>, lower: string) {
    exists h :: h in headers && Named(h, lower)
  }

  function FirstValue(headers: seq<Header>, lower: string): Option<string> {
    if headers == [] then None
    else if Named(headers[0], lower) then Some(headers[0].value)
    else FirstValue(headers[1..], lower)
  }

  /** Some header of that name mentions `token`. */
  predicate Announces(headers: seq<Header>, lower: string, token: string) {
    exists h :: h in headers && Named(h, lower) && Contains(Lower(h.value), token)
  }

  predicate IsChunked(headers: seq<Header>) {
    Announces(headers, "transfer-encoding", "chunked")
  }

  function ContentLength(headers: seq<Header>): Option<nat> {
    match FirstValue(headers, "content-length")
    case None => None
    case Some(v) => ParseUint(Trim(v), Ten, USIZE_MAX)
  }

  // ---------------------------------------------------------------- parsing heads

  function ParseHeaderLine(line: string): Option<Header> {
    var k := IndexOf(line, ':');
    if k == |line| then None else Some(Header(Trim(line[..k]), Trim(line[k + 1..])))
  }

  function ParseHeaders(lines: seq<string>): seq<Header> {
    if lines == [] then []
    else
      match ParseHeaderLine(lines[0])
      case None => ParseHeaders(lines[1..])
      case Some(h) => [h] + ParseHeaders(lines[1..])
  }

  /** Method, path and headers of a request head; the version is not looked at. */
  function ParseRequestHead(text: string): Option<Request> {
    var lines := Lines(text);
    if lines == [] then None
    else
      var tokens := Tokens(lines[0]);
      if |tokens| < 2 then None else Some(Request(tokens[0], tokens[1], ParseHeaders(lines[1..]), ""))
  }

  /** A request and the number of bytes it took. */
  datatype Received = Received(request: Request, len: nat)

  /** The body behind a head, by its framing headers. */
  function ParseBody(headers: seq<Header>, s: string): (b: Option<Body>)
    ensures b.Some? ==> b.value.len <= |s|
  {
    if IsChunked(headers) then ParseChunked(s, true)
    else
      var n := ContentLength(headers);
      if n == None then Some(Body(0, ""))
      else if n.value <= |s| then Some(Body(n.value, s[..n.value]))
      else None
  }

  /** The head alone, up to and including its empty line. */
  function ParseHead(s: string): (head: Option<Received>)
    ensures head.Some? ==> head.value.len <= |s|
  {
    match Delimited(s, BLANK_LINE, HEAD_MAX)
    case None => None
    case Some(h) =>
      match ParseRequestHead(s[..h])
      case None => None
      case Some(head) => Some(Received(head, h))
  }

  function ParseRequest(s: string): Option<Received> {
    match ParseHead(s)
    case None => None
    case Some(head) =>
      match ParseBody(head.request.headers, s[head.len..])
      case None => None
      case Some(b) => Some(Received(head.request.(body := b.entity), head.len + b.len))
  }

  // ---------------------------------------------------------------- writing requests

  function HostValue(host: string, port: nat): string {
    if port == 80 || port == 443 then host else host + ":" + Decimal(port)
  }

  /** Headers that concern one connection only, and the expectation already answered. */
  predicate NotForwarded(h: Header) {
    Lower(h.name) in {"proxy-connection", "proxy-authorization", "proxy-authenticate", "keep-alive", "upgrade", "expect"}
  }

  predicate Frames(h: Header) {
    Named(h, "transfer-encoding") || Named(h, "content-length")
  }

  predicate Framed(headers: seq<Header>) {
    exists h :: h in headers && Frames(h)
  }

  function Forwarded(headers: seq<Header>, hostValue: string): seq<Header> {
    if headers == [] then []
    else
      var h := headers[0];
      (if NotForwarded(h) || Frames(h) || Named(h, "cookie") then []
       else if Named(h, "host") then [Header("Host", hostValue)]
       else [h]) + Forwarded(headers[1..], hostValue)
  }

  function Cookies(headers: seq<Header>): seq<string> {
    if headers == [] then []
    else (if Named(headers[0], "cookie") && Trim(headers[0].value) != "" then [Trim(headers[0].value)] else [])
         + Cookies(headers[1..])
  }

  /** The header list sent upstream. */
  function OutHeaders(req: Request, host: string, port: nat): seq<Header> {
    var cookies := Cookies(req.headers);
    Forwarded(req.headers, HostValue(host, port))
    + (if HasName(req.headers, "host") then [] else [Header("Host", HostValue(host, port))])
    + (if cookies == [] then [] else [Header("Cookie", JoinWith(cookies, "; "))])
    + (if Framed(req.headers) then [Header("Content-Length", Decimal(|req.body|))] else [])
    + (if HasName(req.headers, "connection") then [] else [Header("Connection", "keep-alive")])
  }

  function HeaderLine(h: Header): string {
    h.name + ": " + h.value
  }

  function HeaderLines(headers: seq<Header>): seq<string> {
    if headers == [] then [] else [HeaderLine(headers[0])] + HeaderLines(headers[1..])
  }

  function HeaderText(headers: seq<Header>): string {
    Unlines(HeaderLines(headers))
  }

  function Target(req: Request, host: string, port: nat, absolute: bool): string {
    if absolute then (if port == 443 then "https" else "http") + "://" + host + req.path else req.path
  }

  function RequestLine(req: Request, host: string, port: nat, absolute: bool): string {
    req.verb + " " + Target(req, host, port, absolute) + " " + VERSION
  }

  function RequestHead(req: Request, host: string, port: nat, absolute: bool): string {
    RequestLine(req, host, port, absolute) + CRLF + HeaderText(OutHeaders(req, host, port)) + CRLF
  }

  function RequestText(req: Request, host: string, port: nat, absolute: bool): string {
    RequestHead(req, host, port, absolute) + req.body
  }

  // ---------------------------------------------------------------- the reader

  lemma ParseHeadersStep(lines: seq<string>, i: nat)
    requires i < |lines|
    ensures ParseHeaders(lines[i..])
         == match ParseHeaderLine(lines[i])
            case None => ParseHeaders(lines[i + 1..])
            case Some(h) => [h] + ParseHeaders(lines[i + 1..])
  {
    assert lines[i..][1..] == lines[i + 1..];
  }

  method ReadHeaders(lines: seq<string>) returns (headers: seq<Header>)
    ensures headers == ParseHeaders(lines)
  {
    hide ParseHeaderLine, ParseHeaders;
    headers := [];
    for i := 0 to |lines|
      invariant headers + ParseHeaders(lines[i..]) == ParseHeaders(lines)
    {
      ParseHeadersStep(lines, i);
      var h := ParseHeaderLine(lines[i]);
      if h.Some? {
        assert headers + ([h.value] + ParseHeaders(lines[i + 1..])) == headers + [h.value] + ParseHeaders(lines[i + 1..]);
        headers := headers + [h.value];
      }
    }
    assert lines[|lines|..] == [];
    NoHeaders();
  }

  lemma NoHeaders()
    ensures ParseHeaders([]) == []
  {}

  // ---------------------------------------------------------------- reading bodies

  method ReadTrailers(r: PrefixedReader) returns (ok: bool)
    requires r.Valid()
    modifies r
    ensures r.Valid() && r.Advanced()
    ensures ok ==> TrailerLen(old(r.Rest())).Some? && r.Failed() == old(r.Failed())
    ensures ok ==> r.Rest() == old(r.Rest())[TrailerLen(old(r.Rest())).value..]
    ensures !ok ==> r.Failed() || TrailerLen(old(r.Rest())) == None
  {
    hide Delimited, TrailerLen;
    ghost var all := r.Rest();
    ghost var done := "";
    while true
      invariant r.Valid() && all == done + r.Rest() && r.Failed() == old(r.Failed())
      invariant r.Advanced()
      invariant TrailerLen(all) == After(|done|, TrailerLen(r.Rest()))
      decreases |r.Rest()|
    {
      ghost var before := r.Rest();
      var line := r.ReadUntil(CRLF, TRAILER_LINE_MAX);
      if line == None {
        if !r.Failed() { TrailerNone(before); }
        return false;
      }
      TrailerStep(line.value, r.Rest());
      assert all == done + line.value + r.Rest();
      done := done + line.value;
      if line.value == CRLF {
        assert all[|done|..] == r.Rest();
        return true;
      }
    }
  }

  method ReadChunkedBody(r: PrefixedReader) returns (body: Option<string>)
    requires r.Valid()
    modifies r
    ensures r.Valid() && r.Advanced()
    ensures body.Some? ==> ParseChunked(old(r.Rest()), true).Some? && r.Failed() == old(r.Failed())
    ensures body.Some? ==> ParseChunked(old(r.Rest()), true).value.entity == body.value
    ensures body.Some? ==> r.Rest() == old(r.Rest())[ParseChunked(old(r.Rest()), true).value.len..]
    ensures body == None ==> r.Failed() || ParseChunked(old(r.Rest()), true) == None
  {
    hide Delimited, ParseChunked, ParseChunkSize, TrailerLen, HalfWay, Shift, Ending, NextPiece;
    ghost var all := r.Rest();
    ghost var done := "";
    var data := "";
    HalfWayStart(all, true);
    while true
      invariant r.Valid() && r.Advanced() && r.Failed() == old(r.Failed())
      invariant HalfWay(all, done, data, r.Rest(), true)
      decreases |r.Rest()|
    {
      ghost var before := r.Rest();
      var line, size := ReadSizeLine(r);
      if size == None {
        if !r.Failed() { HalfWayNone(all, done, data, before, true); }
        return None;
      }
      ghost var afterLine := r.Rest();
      StrictPiece(all, done, data, line, afterLine, size.value);
      if size.value == 0 {
        var ok := ReadTrailers(r);
        return if ok then Some(data) else None;
      }
      var chunk, end := ReadChunk(r, size.value);
      if chunk == None || end != CRLF {
        return None;
      }
      done := done + line + afterLine[..size.value + 2];
      data := data + chunk.value;
    }
  }

  /** What a piece means for the body: its end, one more chunk, or no body at all. */
  lemma StrictPiece(all: string, done: string, data: string, line: string, afterLine: string, size: nat)
    requires HalfWay(all, done, data, line + afterLine, true)
    requires Delimited(line + afterLine, CRLF, SIZE_LINE_MAX) == Some(|line|) && ParseChunkSize(line) == Some(size)
    ensures size == 0 && TrailerLen(afterLine) == None ==> ParseChunked(all, true) == None
    ensures size == 0 && TrailerLen(afterLine).Some? ==>
              var t := TrailerLen(afterLine).value;
              ParseChunked(all, true) == Some(Body(|done| + (|line| + t), data)) && all[|done| + (|line| + t)..] == afterLine[t..]
    ensures size > 0 && (|afterLine| < size + 2 || afterLine[size..size + 2] != CRLF) ==> ParseChunked(all, true) == None
    ensures size > 0 && size + 2 <= |afterLine| && afterLine[size..size + 2] == CRLF ==>
              HalfWay(all, done + line + afterLine[..size + 2], data + afterLine[..size], afterLine[size + 2..], true)
  {
    hide Delimited, ParseChunked, ParseChunkSize, TrailerLen, HalfWay;
    if size == 0 {
      HalfWayEnd(all, done, data, line, afterLine, true);
    } else if |afterLine| < size + 2 {
      StepShort(line, afterLine, size, true);
      HalfWayNone(all, done, data, line + afterLine, true);
    } else if afterLine[size..size + 2] != CRLF {
      HalfWayBadEnd(all, done, data, line, afterLine, size);
    } else {
      HalfWayChunk(all, done, data, line, afterLine, size, true);
    }
  }

  /** The data of one chunk and the two bytes behind it. */
  method ReadChunk(r: PrefixedReader, size: nat) returns (chunk: Option<string>, end: string)
    requires r.Valid()
    modifies r
    ensures r.Valid() && r.Advanced()
    ensures chunk.Some? ==> size + 2 <= |old(r.Rest())| && r.Failed() == old(r.Failed())
    ensures chunk.Some? ==> chunk.value == old(r.Rest())[..size] && end == old(r.Rest())[size..size + 2]
    ensures chunk.Some? ==> r.Rest() == old(r.Rest())[size + 2..]
    ensures chunk == None ==> r.Failed() || |old(r.Rest())| < size + 2
  {
    ghost var all := r.Rest();
    end := "";
    chunk := r.ReadExact(size);
    if chunk == None {
      return;
    }
    var last := r.ReadExact(2);
    if last == None {
      return None, end;
    }
    end := last.value;
    assert all == chunk.value + (end + r.Rest());
  }

  // ---------------------------------------------------------------- requests

  predicate ExpectsContinue(headers: seq<Header>) {
    Announces(headers, "expect", "100-continue")
  }

  method ReadHead(r: PrefixedReader) returns (head: Option<Request>)
    requires r.Valid()
    modifies r
    ensures r.Valid() && r.Advanced()
    ensures head.Some? ==> ParseHead(old(r.Rest())).Some? && r.Failed() == old(r.Failed())
    ensures head.Some? ==> ParseHead(old(r.Rest())).value.request == head.value
    ensures head.Some? ==> r.Rest() == old(r.Rest())[ParseHead(old(r.Rest())).value.len..]
    ensures head == None ==> r.Failed() || ParseHead(old(r.Rest())) == None
  {
    hide Delimited, Lines, Tokens;
    ghost var all := r.Rest();
    var text := r.ReadUntil(BLANK_LINE, HEAD_MAX);
    if text == None {
      return None;
    }
    assert all[..|text.value|] == text.value && all[|text.value|..] == r.Rest();
    var lines := Lines(text.value);
    if lines == [] {
      return None;
    }
    var tokens := Tokens(lines[0]);
    if |tokens| < 2 {
      return None;
    }
    var headers := ReadHeaders(lines[1..]);
    return Some(Request(tokens[0], tokens[1], headers, ""));
  }

  method ReadBody(r: PrefixedReader, headers: seq<Header>) returns (body: Option<string>)
    requires r.Valid()
    modifies r
    ensures r.Valid() && r.Advanced()
    ensures body.Some? ==> ParseBody(headers, old(r.Rest())).Some? && r.Failed() == old(r.Failed())
    ensures body.Some? ==> ParseBody(headers, old(r.Rest())).value.entity == body.value
    ensures body.Some? ==> r.Rest() == old(r.Rest())[ParseBody(headers, old(r.Rest())).value.len..]
    ensures body == None ==> r.Failed() || ParseBody(headers, old(r.Rest())) == None
  {
    hide ParseChunked, IsChunked, ContentLength;
    if IsChunked(headers) {
      body := ReadChunkedBody(r);
    } else {
      var n := match ContentLength(headers) case None => 0 case Some(v) => v;
      if n == 0 {
        return Some("");
      }
      ghost var all := r.Rest();
      body := r.ReadExact(n);
      if body.Some? {
        assert all[..n] == body.value && all[n..] == r.Rest();
      }
    }
  }

  /** Read one request; a client that waits for the interim answer gets it before its body is read. */
  method ReadRequest(r: PrefixedReader, w: Sink) returns (req: Option<Request>)
    requires r.Valid()
    modifies r, w
    ensures r.Valid() && r.Advanced()
    ensures req.Some? ==> ParseRequest(old(r.Rest())).Some? && r.Failed() == old(r.Failed())
    ensures req.Some? ==> ParseRequest(old(r.Rest())).value.request == req.value
    ensures req.Some? ==> r.Rest() == old(r.Rest())[ParseRequest(old(r.Rest())).value.len..]
    ensures req.Some? ==> w.writes == old(w.writes)
                                      + (if ExpectsContinue(req.value.headers) then ["HTTP/1.1 100 Continue\r\n\r\n"] else [])
    ensures req == None ==> r.Failed() || w.Failed() || ParseRequest(old(r.Rest())) == None
    ensures req == None && !r.Failed() && !w.Failed() ==>
              var head := ParseHead(old(r.Rest()));
              w.writes == old(w.writes) + (if head.Some? && ExpectsContinue(head.value.request.headers)
                                           then ["HTTP/1.1 100 Continue\r\n\r\n"] else [])
  {
    hide ParseHead, ParseBody, ExpectsContinue;
    ghost var all := r.Rest();
    var head := ReadHead(r);
    if head == None {
      return None;
    }
    if ExpectsContinue(head.value.headers) {
      var ok := w.WriteAll(CONTINUE);
      if !ok {
        return None;
      }
    }
    var body := ReadBody(r, head.value.headers);
    if body == None {
      return None;
    }
    ghost var h, b := ParseHead(all).value.len, ParseBody(head.value.headers, all[ParseHead(all).value.len..]).value.len;
    assert all[h..][b..] == all[h + b..];
    return Some(head.value.(body := body.value));
  }

  lemma HeaderLinesConcat(a: seq<Header>, b: seq<Header>)
    ensures HeaderText(a + b) == HeaderText(a) + HeaderText(b)
  {
    if a == [] {
      assert a + b == b && HeaderText(a) == "";
    } else {
      assert (a + b)[1..] == a[1..] + b;
      HeaderLinesConcat(a[1..], b);
      HeaderTextCons(a[0], a[1..]);
      HeaderTextCons(a[0], a[1..] + b);
      assert a + b == [a[0]] + (a[1..] + b) && a == [a[0]] + a[1..];
    }
  }

  lemma HeaderTextCons(h: Header, rest: seq<Header>)
    ensures HeaderText([h] + rest) == HeaderLine(h) + CRLF + HeaderText(rest)
  {
    assert ([h] + rest)[1..] == rest;
    assert HeaderLines([h] + rest) == [HeaderLine(h)] + HeaderLines(rest);
    assert ([HeaderLine(h)] + HeaderLines(rest))[1..] == HeaderLines(rest);
  }

  lemma HeaderTextOne(h: Header)
    ensures HeaderText([h]) == HeaderLine(h) + CRLF
  {
    HeaderTextCons(h, []);
    assert [h] + [] == [h] && HeaderText([]) == "";
    assert HeaderLine(h) + CRLF + "" == HeaderLine(h) + CRLF;
  }

  /** One appended header line. */
  lemma HeaderAppended(out: string, done: seq<Header>, h: Header, start: string)
    requires out == start + HeaderText(done)
    ensures out + HeaderLine(h) + CRLF == start + HeaderText(done + [h])
  {
    hide HeaderText, HeaderLine;
    HeaderLinesConcat(done, [h]);
    HeaderTextOne(h);
    Associate(start, HeaderText(done), HeaderLine(h) + CRLF);
    Associate(out, HeaderLine(h), CRLF);
  }

  lemma ForwardedSnoc(headers: seq<Header>, i: nat, hostValue: string)
    requires i < |headers|
    ensures Forwarded(headers[..i + 1], hostValue) == Forwarded(headers[..i], hostValue) + Forwarded([headers[i]], hostValue)
  {
    ForwardedConcat(headers[..i], [headers[i]], hostValue);
    assert headers[..i + 1] == headers[..i] + [headers[i]];
  }

  lemma {:induction false} ForwardedConcat(a: seq<Header>, b: seq<Header>, hostValue: string)
    ensures Forwarded(a + b, hostValue) == Forwarded(a, hostValue) + Forwarded(b, hostValue)
  {
    hide NotForwarded, Frames, Named;
    if a == [] {
      assert a + b == b;
    } else {
      assert (a + b)[1..] == a[1..] + b;
      ForwardedConcat(a[1..], b, hostValue);
    }
  }

  lemma {:induction false} CookiesConcat(a: seq<Header>, b: seq<Header>)
    ensures Cookies(a + b) == Cookies(a) + Cookies(b)
  {
    if a == [] {
      assert a + b == b;
    } else {
      assert (a + b)[1..] == a[1..] + b;
      CookiesConcat(a[1..], b);
    }
  }

  /** What the writer has to remember about the headers seen so far. */
  predicate Seen(headers: seq<Header>, hasHost: bool, hasConn: bool, framed: bool, cookies: seq<string>) {
    && hasHost == HasName(headers, "host")
    && hasConn == HasName(headers, "connection")
    && framed == Framed(headers)
    && cookies == Cookies(headers)
  }

  lemma SeenSnoc(headers: seq<Header>, h: Header, hasHost: bool, hasConn: bool, framed: bool, cookies: seq<string>)
    requires Seen(headers, hasHost, hasConn, framed, cookies)
    ensures Seen(headers + [h], hasHost || Named(h, "host"), hasConn || Named(h, "connection"),
                 framed || Frames(h), cookies + Cookies([h]))
  {
    CookiesConcat(headers, [h]);
    assert forall x :: x in headers + [h] <==> x in headers || x == h;
  }

  /** The classes of headers the writer tells apart do not overlap. */
  lemma ClassesDisjoint(h: Header)
    ensures NotForwarded(h) ==> !Frames(h) && !Named(h, "cookie") && !Named(h, "host") && !Named(h, "connection")
    ensures Frames(h) ==> !Named(h, "cookie") && !Named(h, "host") && !Named(h, "connection")
    ensures Named(h, "cookie") ==> !Named(h, "host") && !Named(h, "connection")
    ensures Named(h, "host") ==> !Named(h, "connection")
  {
    var n := Lower(h.name);
    assert Named(h, "host") ==> |n| == 4 && n[0] == 'h';
    assert Named(h, "cookie") ==> |n| == 6 && n[0] == 'c';
    assert Named(h, "connection") ==> |n| == 10 && n[0] == 'c';
    assert Frames(h) ==> |n| in {14, 17};
    assert NotForwarded(h) ==> n[0] in {'p', 'k', 'u', 'e'};
    assert Frames(h) ==> n[0] in {'t', 'c'};
  }

  /** Serialise a request for the upstream. */
  method WriteRequest(req: Request, host: string, port: nat, absolute: bool) returns (out: string)
    ensures out == RequestText(req, host, port, absolute)
  {
    hide HeaderText, Frames, NotForwarded, Cookies, Forwarded, Seen, Named;
    var hostValue := HostValue(host, port);
    out := RequestLine(req, host, port, absolute) + CRLF;
    ghost var start := out;
    ghost var sent: seq<Header> := [];
    var hasHost, hasConn, framed := false, false, false;
    var cookies: seq<string> := [];
    NothingYet(start, hostValue);
    for i := 0 to |req.headers|
      invariant sent == Forwarded(req.headers[..i], hostValue) && out == start + HeaderText(sent)
      invariant Seen(req.headers[..i], hasHost, hasConn, framed, cookies)
    {
      var h := req.headers[i];
      ForwardedSnoc(req.headers, i, hostValue);
      SeenSnoc(req.headers[..i], h, hasHost, hasConn, framed, cookies);
      ForwardedOne(h, hostValue);
      ClassesDisjoint(h);
      assert cookies + [] == cookies && sent + [] == sent;
      assert req.headers[..i + 1] == req.headers[..i] + [h];
      if NotForwarded(h) {
        continue;
      }
      if Frames(h) {
        framed := true;
        continue;
      }
      if Named(h, "cookie") {
        if Trim(h.value) != "" {
          cookies := cookies + [Trim(h.value)];
        }
        continue;
      }
      if Named(h, "host") {
        hasHost := true;
        var line := Header("Host", hostValue);
        HeaderAppended(out, sent, line, start);
        out := out + HeaderLine(line) + CRLF;
        sent := sent + [line];
        continue;
      }
      if Named(h, "connection") {
        hasConn := true;
      }
      HeaderAppended(out, sent, h, start);
      out := out + HeaderLine(h) + CRLF;
      sent := sent + [h];
    }
    assert req.headers[..|req.headers|] == req.headers;
    out := WriteOwnHeaders(out, start, sent, req, host, port, hasHost, hasConn, framed, cookies);
    out := out + CRLF;
    out := out + req.body;
  }

  lemma NothingYet(start: string, hostValue: string)
    ensures start + HeaderText([]) == start && Forwarded([], hostValue) == []
    ensures Seen([], false, false, false, [])
  {
    assert HeaderText([]) == "";
  }

  lemma ForwardedOne(h: Header, hostValue: string)
    ensures Forwarded([h], hostValue)
         == if NotForwarded(h) || Frames(h) || Named(h, "cookie") then []
            else if Named(h, "host") then [Header("Host", hostValue)] else [h]
    ensures Cookies([h]) == if Named(h, "cookie") && Trim(h.value) != "" then [Trim(h.value)] else []
  {
    assert [h][1..] == [];
  }

  /** The headers the writer adds of its own. */
  method WriteOwnHeaders(before: string, ghost start: string, ghost forwarded: seq<Header>,
                         req: Request, host: string, port: nat,
                         hasHost: bool, hasConn: bool, framed: bool, cookies: seq<string>) returns (out: string)
    requires before == start + HeaderText(forwarded)
    requires forwarded == Forwarded(req.headers, HostValue(host, port))
    requires Seen(req.headers, hasHost, hasConn, framed, cookies)
    ensures out == start + HeaderText(OutHeaders(req, host, port))
  {
    hide HeaderText, Cookies, Forwarded;
    out := before;
    ghost var sent := forwarded;
    if !hasHost {
      var line := Header("Host", HostValue(host, port));
      HeaderAppended(out, sent, line, start);
      out := out + HeaderLine(line) + CRLF;
      sent := sent + [line];
    }
    if cookies != [] {
      var line := Header("Cookie", JoinWith(cookies, "; "));
      HeaderAppended(out, sent, line, start);
      out := out + HeaderLine(line) + CRLF;
      sent := sent + [line];
    }
    if framed {
      var line := Header("Content-Length", Decimal(|req.body|));
      HeaderAppended(out, sent, line, start);
      out := out + HeaderLine(line) + CRLF;
      sent := sent + [line];
    }
    if !hasConn {
      var line := Header("Connection", "keep-alive");
      HeaderAppended(out, sent, line, start);
      out := out + HeaderLine(line) + CRLF;
      sent := sent + [line];
    }
    assert sent == OutHeaders(req, host, port);
  }
}
