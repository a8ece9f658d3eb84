/** The CONNECT exchange with an HTTP agent, and what the agent reads of it. */
module AgentHttp {
  import opened Sequences
  import opened Text
  import opened Numbers
  import opened Streams
  import opened Chunked
  import opened Http1
  import opened Http1Laws
  import Base64
  import opened AgentSocks

  const MAX_HEAD := 8 * 1024
  const GRANTED_START := "HTTP/1.1 200"
  const BASIC := "Basic "

  /** `host:port`; an IPv6 literal is bracketed. */
  function Authority(host: string, v6: bool, port: nat): string {
    (if v6 then "[" + host + "]" else host) + ":" + Decimal(port)
  }

  predicate Sendable(c: Credentials) {
    Base64.IsByteText(c.user) && Base64.IsByteText(c.password)
  }

  function BasicAuth(c: Credentials): string
    requires Sendable(c)
  {
    Base64.Encode(c.user + ":" + c.password)
  }

  predicate SendableAll(credentials: Option<Credentials>) {
    credentials.Some? ==> Sendable(credentials.value)
  }

  function ConnectText(authority: string, credentials: Option<Credentials>): string
    requires SendableAll(credentials)
  {
    "CONNECT " + authority + " HTTP/1.1" + CRLF + "Host: " + authority + CRLF
    + (if credentials.Some? then "Proxy-Authorization: Basic " + BasicAuth(credentials.value) + CRLF else "")
    + CRLF
  }

  /** The answer head decides; it may be at most 8192 bytes long. */
  function HttpTalk(s: string, authority: string, credentials: Option<Credentials>): Talk
    requires SendableAll(credentials)
  {
    var sent := [ConnectText(authority, credentials)];
    match Delimited(s, BLANK_LINE, MAX_HEAD - 1)
    case None => Talk(if |s| >= MAX_HEAD then ProtocolError else IoError, 0, sent)
    case Some(n) => Talk(if GRANTED_START <= s[..n] then Granted else Refused, n, sent)
  }

  /** Read byte by byte up to and including the empty line. */
  method ReadHttpHead(r: PrefixedReader) returns (head: Option<string>, o: Outcome)
    requires r.Valid() && !r.Failed()
    modifies r
    ensures r.Valid()
    ensures head.Some? ==> !r.Failed() && Delimited(old(r.Rest()), BLANK_LINE, MAX_HEAD - 1) == Some(|head.value|)
    ensures head.Some? ==> old(r.Rest()) == head.value + r.Rest()
    ensures head == None && r.Failed() ==> o == IoError
    ensures head == None && !r.Failed() ==> Delimited(old(r.Rest()), BLANK_LINE, MAX_HEAD - 1) == None
    ensures head == None && !r.Failed() ==> o == if |old(r.Rest())| >= MAX_HEAD then ProtocolError else IoError
  {
    hide Delimited, At, NotYet;
    ghost var all := r.Rest();
    NotYetStart(all, BLANK_LINE);
    var buf := "";
    o := IoError;
    while true
      invariant r.Valid() && !r.Failed() && all == buf + r.Rest() && |buf| < MAX_HEAD && o == IoError
      invariant NotYet(all, |buf|, BLANK_LINE)
      decreases MAX_HEAD - |buf|
    {
      var byte := r.Read(1);
      if byte == None {
        return None, IoError;
      }
      if byte.value == "" {
        assert all == buf;
        DelimitedMissing(all, |buf|, BLANK_LINE, MAX_HEAD - 1);
        return None, IoError;
      }
      Associate(buf, byte.value, r.Rest());
      buf := buf + byte.value;
      if EndsWith(buf, BLANK_LINE) {
        DelimitedFound(all, buf, BLANK_LINE, MAX_HEAD - 1);
        return Some(buf), Granted;
      }
      NotYetStep(all, buf, BLANK_LINE);
      if |buf| >= MAX_HEAD {
        DelimitedMissing(all, |buf|, BLANK_LINE, MAX_HEAD - 1);
        return None, ProtocolError;
      }
    }
  }

  method ConnectHttp(r: PrefixedReader, w: Sink, host: string, v6: bool, port: nat, credentials: Option<Credentials>)
    returns (o: Outcome)
    requires r.Valid() && !r.Failed() && !w.Failed() && SendableAll(credentials)
    modifies r, w
    ensures Concluded(r, w, o, HttpTalk(old(r.Rest()), Authority(host, v6, port), credentials))
  {
    hide Delimited, Authority;
    var authority := Authority(host, v6, port);
    var request := "CONNECT " + authority + " HTTP/1.1" + CRLF + "Host: " + authority + CRLF;
    if credentials.Some? {
      request := request + ("Proxy-Authorization: Basic " + BasicAuth(credentials.value) + CRLF);
    } else {
      assert request + "" == request;
    }
    request := request + CRLF;
    assert request == ConnectText(authority, credentials);
    var written := w.WriteAll(request);
    if !written {
      return IoError;
    }
    ghost var all := r.Rest();
    var head;
    head, o := ReadHttpHead(r);
    if head == None {
      return;
    }
    assert all[..|head.value|] == head.value && all[|head.value|..] == r.Rest();
    o := if GRANTED_START <= head.value then Granted else Refused;
  }

  // ---------------------------------------------------------------- what the agent reads

  function ConnectHeaders(authority: string, credentials: Option<Credentials>): seq<Header>
    requires SendableAll(credentials)
  {
    [Header("Host", authority)]
    + if credentials.Some? then [Header("Proxy-Authorization", BASIC + BasicAuth(credentials.value))] else []
  }

  lemma HostHeaderIsClean(authority: string)
    requires IsToken(authority)
    ensures Clean(Header("Host", authority))
  {
    TokenHasNoLf(authority);
  }

  lemma AuthHeaderIsClean(c: Credentials)
    requires Sendable(c)
    ensures Clean(Header("Proxy-Authorization", BASIC + BasicAuth(c)))
  {
    hide BasicAuth, CleanName, CleanValue;
    CodeIsPlain(c);
    AuthNameIsClean();
    PrefixedValueIsClean(BASIC, BasicAuth(c));
  }

  lemma AuthNameIsClean()
    ensures CleanName("Proxy-Authorization") && BASIC != "" && !IsSpace(BASIC[0]) && '\n' !in BASIC
  {}

  lemma PrefixedValueIsClean(prefix: string, code: string)
    requires prefix != "" && !IsSpace(prefix[0]) && '\n' !in prefix
    requires code != "" && !IsSpace(code[|code| - 1]) && '\n' !in code
    ensures CleanValue(prefix + code)
  {
    var value := prefix + code;
    assert value[0] == prefix[0] && value[|value| - 1] == code[|code| - 1];
  }

  lemma CodeIsPlain(c: Credentials)
    requires Sendable(c)
    ensures BasicAuth(c) != "" && '\n' !in BasicAuth(c) && !IsSpace(BasicAuth(c)[|BasicAuth(c)| - 1])
  {
    NotEmptyCode(c);
    hide Base64.Encode;
    Base64.EncodedIsPlain(c.user + ":" + c.password);
  }

  lemma NotEmptyCode(c: Credentials)
    requires Sendable(c)
    ensures BasicAuth(c) != ""
  {
    var s := c.user + ":" + c.password;
    assert |s| >= 1;
  }

  lemma ConnectTextIsLines(authority: string, credentials: Option<Credentials>)
    requires SendableAll(credentials)
    ensures ConnectText(authority, credentials)
         == Unlines(["CONNECT " + authority + " " + VERSION] + HeaderLines(ConnectHeaders(authority, credentials))) + CRLF
  {
    hide BasicAuth, HeaderLines, Unlines;
    var line, h := "CONNECT " + authority + " " + VERSION, Header("Host", authority);
    assert "CONNECT " + authority + " HTTP/1.1" == line by { assert " HTTP/1.1" == " " + VERSION; }
    assert HeaderLine(h) == "Host: " + authority by { assert "Host" + ": " == "Host: "; }
    if credentials.Some? {
      var a := Header("Proxy-Authorization", BASIC + BasicAuth(credentials.value));
      AuthLine(BasicAuth(credentials.value));
      TwoHeaders(h, a);
      ThreeLines(line, HeaderLine(h), HeaderLine(a));
    } else {
      OneHeader(h);
      TwoLines(line, HeaderLine(h));
    }
  }

  lemma AuthLine(auth: string)
    ensures HeaderLine(Header("Proxy-Authorization", BASIC + auth)) == "Proxy-Authorization: Basic " + auth
  {
    assert "Proxy-Authorization" + ": " + BASIC == "Proxy-Authorization: Basic ";
  }

  lemma OneHeader(h: Header)
    ensures [h] + [] == [h] && HeaderLines([h]) == [HeaderLine(h)]
  {
    assert [h][1..] == [];
  }

  lemma TwoHeaders(a: Header, b: Header)
    ensures [a] + [b] == [a, b] && HeaderLines([a, b]) == [HeaderLine(a), HeaderLine(b)]
  {
    assert [a, b][1..] == [b] && [b][1..] == [];
    assert HeaderLines([b]) == [HeaderLine(b)];
  }

  lemma TwoLines(a: string, b: string)
    ensures Unlines([a] + [b]) == a + CRLF + b + CRLF
  {
    assert ([a] + [b])[1..] == [b] && [b][1..] == [];
    assert Unlines([b]) == b + CRLF + "" == b + CRLF;
    assert a + CRLF + (b + CRLF) == a + CRLF + b + CRLF;
  }

  lemma ThreeLines(a: string, b: string, c: string)
    ensures Unlines([a] + [b, c]) == a + CRLF + b + CRLF + (c + CRLF)
  {
    assert ([a] + [b, c])[1..] == [b, c] == [b] + [c];
    TwoLines(b, c);
    assert a + CRLF + (b + CRLF + c + CRLF) == a + CRLF + b + CRLF + (c + CRLF);
  }

  /**
   A reader of HTTP requests finds in the CONNECT text, with anything behind it, the tunnel that was
   asked for, unless it is too long a head for it.
   */
  lemma ConnectReadsBack(authority: string, credentials: Option<Credentials>, rest: string)
    requires SendableAll(credentials) && IsToken(authority)
    ensures var text := ConnectText(authority, credentials);
            var read := Received(Request("CONNECT", authority, ConnectHeaders(authority, credentials), ""), |text|);
            ParseHead(text + rest) == if |text| <= 65_537 then Some(read) else None
  {
    hide Delimited, Lines, Tokens, ParseHeaders, HeaderLine, Clean;
    var headers := ConnectHeaders(authority, credentials);
    var line := "CONNECT" + " " + authority + " " + VERSION;
    var text := ConnectText(authority, credentials);
    HostHeaderIsClean(authority);
    if credentials.Some? { AuthHeaderIsClean(credentials.value); }
    HeaderLinesParse(headers);
    RequestLineTokens("CONNECT", authority);
    ConnectTextIsLines(authority, credentials);
    assert "CONNECT" + " " == "CONNECT ";
    var lines := [line] + HeaderLines(headers);
    assert lines[1..] == HeaderLines(headers);
    HeadDelimited(lines, rest);
    assert (text + rest)[..|text|] == text;
    assert (lines + [""])[0] == line && (lines + [""])[1..] == HeaderLines(headers) + [""];
  }

  function LastIndexOf(s: string, c: char): (k: Option<nat>)
    ensures k.Some? ==> k.value < |s| && s[k.value] == c
  {
    if s == "" then None
    else if s[|s| - 1] == c then Some(|s| - 1) else LastIndexOf(s[..|s| - 1], c)
  }

  function PortOr443(text: string): nat {
    match ParseUint(Trim(text), Ten, 65535)
    case None => 443
    case Some(port) => port
  }

  /** Host and port of an authority, as this program reads a Host header. */
  function HostPort(h: string): (string, nat) {
    if "[" <= h && ']' in h[1..] then
      var end := 1 + IndexOf(h[1..], ']');
      (h[1..end], if ":" <= h[end + 1..] then PortOr443(h[end + 2..]) else 443)
    else
      match LastIndexOf(h, ':')
      case None => (h, 443)
      case Some(k) => (h[..k], PortOr443(h[k + 1..]))
  }

  lemma {:induction false} LastColon(a: string, b: string)
    requires ':' !in b
    ensures LastIndexOf(a + ":" + b, ':') == Some(|a|)
    decreases |b|
  {
    var s := a + ":" + b;
    if b == "" {
      assert s[|s| - 1] == ':';
    } else {
      assert s[|s| - 1] == b[|b| - 1] && s[..|s| - 1] == a + ":" + b[..|b| - 1];
      LastColon(a, b[..|b| - 1]);
    }
  }

  lemma PortReads(port: nat)
    requires port <= 65535
    ensures PortOr443(Decimal(port)) == port
  {
    DecimalIsToken(port);
    TrimFixed(Decimal(port));
    ParseDecimal(port, 65535);
  }

  /** The authority names the host and port it was built from, bracketed or not. */
  lemma AuthorityReadsBack(host: string, v6: bool, port: nat)
    requires port <= 65535
    requires if v6 then ']' !in host else !("[" <= host)
    ensures HostPort(Authority(host, v6, port)) == (host, port)
  {
    hide Decimal, PortOr443, HostPort;
    PortReads(port);
    DecimalIsToken(port);
    if v6 {
      BracketedReads(host, Decimal(port));
    } else {
      PlainReads(host, Decimal(port));
    }
  }

  lemma BracketedReads(host: string, port: string)
    requires ']' !in host
    ensures HostPort("[" + host + "]" + ":" + port) == (host, PortOr443(port))
  {
    hide PortOr443, IndexOf, LastIndexOf;
    var h, tail := "[" + host + "]" + ":" + port, ":" + port;
    assert h[1..] == host + [']'] + tail;
    IndexOfConcat(host, ']', tail);
    assert h[1..][|host|] == ']';
    assert h[1..1 + |host|] == host && h[|host| + 2..] == tail && h[|host| + 3..] == port;
  }

  lemma PlainReads(host: string, port: string)
    requires ':' !in port && !("[" <= host)
    ensures HostPort(host + ":" + port) == (host, PortOr443(port))
  {
    hide PortOr443, IndexOf, LastIndexOf;
    var h := host + ":" + port;
    LastColon(host, port);
    assert h[..|host|] == host && h[|host| + 1..] == port;
    assert h[0] == if host != "" then host[0] else ':';
  }

  /** User name and password of a decoded Basic credential: split at the first colon. */
  function SplitUser(s: string): Option<Credentials> {
    var k := IndexOf(s, ':');
    if k == |s| then None else Some(Credentials(s[..k], s[k + 1..]))
  }

  /** The agent recovers the credentials exactly when the user name has no colon. */
  lemma CredentialsReadBackIff(c: Credentials)
    requires Sendable(c)
    ensures Base64.Decode(BasicAuth(c)) == Some(c.user + ":" + c.password)
    ensures SplitUser(c.user + ":" + c.password) == Some(c) <==> ':' !in c.user
  {
    var s := c.user + ":" + c.password;
    Base64.DecodeEncode(s);
    assert s == c.user + [':'] + c.password;
    if ':' !in c.user {
      IndexOfConcat(c.user, ':', c.password);
      assert s[..|c.user|] == c.user && s[|c.user| + 1..] == c.password;
    } else {
      var p :| 0 <= p < |c.user| && c.user[p] == ':';
      assert s[p] == ':';
      NoneBefore(s, ':');
    }
  }

  /** The tunnel is granted exactly by a head of at most 8192 bytes that says status 200 in HTTP/1.1. */
  lemma HttpGrantedIff(s: string, authority: string, credentials: Option<Credentials>)
    requires SendableAll(credentials)
    ensures var talk, end := HttpTalk(s, authority, credentials), Find(s, "\r\n\r\n") + 4;
            && (talk.outcome == Granted <==> end <= |s| && end <= 8192 && "HTTP/1.1 200" <= s)
            && (talk.outcome == Refused <==> end <= |s| && end <= 8192 && !("HTTP/1.1 200" <= s))
            && (talk.outcome == ProtocolError <==> |s| >= 8192 && (end > |s| || end > 8192))
            && (talk.outcome == Granted ==> talk.used == end)
  {
    hide Find, ConnectText;
    var end := Find(s, BLANK_LINE) + 4;
    if end <= |s| {
      FindAt(s);
      LongEnough(s, end);
    }
  }

  lemma FindAt(s: string)
    requires Find(s, BLANK_LINE) + 4 <= |s|
    ensures At(s, Find(s, BLANK_LINE), BLANK_LINE)
  {
    FindFacts(s, BLANK_LINE);
  }

  lemma LongEnough(s: string, end: nat)
    requires end <= |s| && end >= 4 && s[end - 4..end] == BLANK_LINE
    ensures GRANTED_START <= s[..end] <==> "HTTP/1.1 200" <= s
  {
    assert s[end - 4] == s[end - 4..end][0] == '\r';
    assert forall i :: 0 <= i < 12 ==> "HTTP/1.1 200"[i] != '\r';
    assert "HTTP/1.1 200" <= s ==> end - 4 >= 12;
  }

  /** An answer of at most 8192 bytes is used up to its empty line; what follows it is tunnel payload. */
  lemma HttpTunnelStartsAtPayload(line: string, headers: seq<Header>, authority: string,
                                  credentials: Option<Credentials>, payload: string)
    requires SendableAll(credentials) && GRANTED_START <= line && '\n' !in line && AllClean(headers)
    requires |Unlines([line] + HeaderLines(headers)) + CRLF| <= 8192
    ensures var head := Unlines([line] + HeaderLines(headers)) + CRLF;
            HttpTalk(head + payload, authority, credentials) == Talk(Granted, |head|, [ConnectText(authority, credentials)])
  {
    hide At, ConnectText, Lines, HeaderLine, Clean;
    var lines := [line] + HeaderLines(headers);
    var head := Unlines(lines) + CRLF;
    HeaderLinesParse(headers);
    HeadDelimited(lines, payload);
    ShorterLimit(head + payload, |head|);
    assert lines[0] == line && lines[1..] == HeaderLines(headers);
    assert (head + payload)[..|head|] == head;
    StartsWithLine(line, Unlines(lines[1..]));
  }

  lemma ShorterLimit(s: string, n: nat)
    requires Delimited(s, BLANK_LINE, HEAD_MAX) == Some(n) && n <= MAX_HEAD
    ensures Delimited(s, BLANK_LINE, MAX_HEAD - 1) == Some(n)
  {
    hide Find;
  }

  lemma StartsWithLine(line: string, rest: string)
    requires GRANTED_START <= line
    ensures GRANTED_START <= line + CRLF + rest + CRLF
  {}
}
