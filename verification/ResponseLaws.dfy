/** End-to-end laws of a forwarded response: entity preservation and clean exchange boundaries. */
module ResponseLaws {
  import opened Sequences
  import opened Text
  import opened Numbers
  import opened Streams
  import opened Chunked
  import opened Http1
  import opened Http1Laws
  import opened ResponseRelay
  import opened Http2Leg

  // ---------------------------------------------------------------- the relayed head

  /** A head that reads back as itself; every head the reader returns is one. */
  predicate CleanHead(head: ResponseHead) {
    && head.status <= 65_535 && head.status !in {100, 102, 103}
    && '\n' !in head.reason && AllClean(head.headers)
  }

  lemma StatusLineParses(head: ResponseHead)
    requires head.status <= STATUS_MAX
    ensures ParseStatusLine(StatusLine(head)) == Some((head.status, head.reason))
    ensures StatusLine(head) != "" && ('\n' !in head.reason ==> '\n' !in StatusLine(head))
  {
    hide Decimal, ParseUint;
    var digits := Decimal(head.status);
    DecimalIsToken(head.status);
    ParseDecimal(head.status, STATUS_MAX);
    VersionIsToken();
    var rest := digits + " " + head.reason;
    assert StatusLine(head) == VERSION + [' '] + rest;
    IndexOfConcat(VERSION, ' ', rest);
    assert StatusLine(head)[|VERSION| + 1..] == rest;
    assert rest == digits + [' '] + head.reason;
    IndexOfConcat(digits, ' ', head.reason);
    assert rest[..|digits|] == digits && rest[|digits| + 1..] == head.reason;
  }

  lemma {:induction false} RelayedAreClean(headers: seq<Header>, chunked: bool)
    requires AllClean(headers)
    ensures AllClean(RelayedOf(headers, chunked))
  {
    hide Relays, Clean;
    if headers != [] {
      assert headers[0] in headers;
      RelayedAreClean(headers[1..], chunked);
    }
  }

  lemma RelayedHeadIsClean(head: ResponseHead)
    requires CleanHead(head)
    ensures CleanHead(RelayedHead(head))
  {
    hide RelayedOf;
    RelayedAreClean(head.headers, IsChunked(head.headers));
    OwnNamesAreClean();
    assert Clean(CLOSE);
  }

  /** What the relay writes before a body reads back as the head it meant to relay, unless it is too long to be read. */
  lemma HeadTextReadsBack(head: ResponseHead, rest: string)
    requires CleanHead(head)
    ensures FinalHead(HeadText(head) + rest)
         == if |HeadText(head)| <= 65_537 then Some(ReceivedHead(RelayedHead(head), |HeadText(head)|)) else None
  {
    hide Delimited, StatusLine, ParseStatusLine, Lines, ParseHeaders, FinalHead;
    var relayed := RelayedHead(head);
    RelayedHeadIsClean(head);
    assert AllClean(relayed.headers) && relayed.status == head.status && relayed.reason == head.reason;
    hide RelayedHead;
    var line := StatusLine(head);
    StatusLineParses(head);
    HeaderLinesParse(relayed.headers);
    var lines := [line] + HeaderLines(relayed.headers);
    assert lines[1..] == HeaderLines(relayed.headers);
    var text := HeadText(head);
    assert text == Unlines(lines) + CRLF;
    HeadDelimited(lines, rest);
    assert (text + rest)[..|text|] == text;
    assert (lines + [""])[0] == line && (lines + [""])[1..] == HeaderLines(relayed.headers) + [""];
    HeadStep(text + rest);
  }

  // ---------------------------------------------------------------- heads in plain terms

  lemma VersionWords(version: string, rest: string)
    requires ' ' !in version
    ensures IndexOf(version + " " + rest, ' ') == |version| && (version + " " + rest)[|version| + 1..] == rest
  {
    assert version + " " + rest == version + [' '] + rest;
    IndexOfConcat(version, ' ', rest);
  }

  /** A status line of any version, with a reason of any words or none at all. */
  lemma StatusLineReads(version: string, status: nat, reason: string)
    requires ' ' !in version
    ensures status <= 65_535 ==> ParseStatusLine(version + " " + Decimal(status)) == Some((status, ""))
    ensures status <= 65_535 ==> ParseStatusLine(version + " " + (Decimal(status) + " " + reason)) == Some((status, reason))
    ensures status > 65_535 ==> ParseStatusLine(version + " " + (Decimal(status) + " " + reason)) == None
  {
    hide Decimal, ParseUint, IndexOf;
    var digits := Decimal(status);
    DecimalIsToken(status);
    VersionWords(version, digits);
    VersionWords(version, digits + " " + reason);
    IndexOfAbsent(digits, ' ');
    VersionWords(digits, reason);
    assert digits[..|digits|] == digits && (digits + " " + reason)[..|digits|] == digits;
    if status <= STATUS_MAX { ParseDecimal(status, STATUS_MAX); } else { TooLargeIsRefused(status, STATUS_MAX); }
  }

  /**
   Reading any head of lines that end at the first empty one: interim responses (100, 102, 103) are passed over,
   every other status is the answer.
   */
  lemma HeadReads(lines: seq<string>, status: nat, reason: string, rest: string)
    requires lines != [] && SolidLines(lines) && ParseStatusLine(lines[0]) == Some((status, reason))
    ensures var text := Unlines(lines) + "\r\n";
            FinalHead(text + rest)
              == if |text| > 65_537 then None
                 else if status in {100, 102, 103} then Later(|text|, FinalHead(rest))
                 else Some(ReceivedHead(ResponseHead(status, reason, ParseHeaders(lines[1..])), |text|))
  {
    hide Delimited, ParseStatusLine, Lines, ParseHeaderLine, FinalHead, Unlines;
    var text := Unlines(lines) + CRLF;
    HeadDelimited(lines, rest);
    assert (text + rest)[..|text|] == text && (text + rest)[|text|..] == rest;
    assert (lines + [""])[0] == lines[0] && (lines + [""])[1..] == lines[1..] + [""];
    HeadersReadInOrder(lines[1..], [""]);
    NotAHeader();
    assert ParseHeaders([""]) == [] by { assert [""][1..] == []; }
    assert ParseHeaders(lines[1..]) + [] == ParseHeaders(lines[1..]);
    HeadStep(text + rest);
  }

  /** A response has no body to HEAD in any case, and as 1xx, 204 and 304. */
  lemma NoBodyIff(head: ResponseHead, verb: string)
    ensures FramingOf(head, verb) == NoBody <==>
              Lower(verb) == "head" || 100 <= head.status <= 199 || head.status in {204, 304}
  {
    hide IsChunked, ContentLength;
  }

  /** Else chunks win, then a length; without either the end of the connection is the end of the body. */
  lemma FramingByHeaders(head: ResponseHead, verb: string, n: nat)
    requires FramingOf(head, verb) != NoBody
    ensures FramingOf(head, verb) == ByChunks <==> SaysChunked(head.headers)
    ensures FramingOf(head, verb) == ByLength(n) <==> !SaysChunked(head.headers) && ContentLength(head.headers) == Some(n)
    ensures FramingOf(head, verb) == UntilClose <==> !SaysChunked(head.headers) && ContentLength(head.headers) == None
  {
    hide IsChunked, ContentLength, SaysChunked, Bodyless;
    ChunkedIff(head.headers);
    assert SaysChunked(head.headers) <==> IsChunked(head.headers) by { ChunkedIs(head.headers); }
  }

  predicate SaysChunked(headers: seq<Header>) {
    exists h :: h in headers && Lower(h.name) == "transfer-encoding" && MentionsWord(h.value, "chunked")
  }

  lemma ChunkedIs(headers: seq<Header>)
    ensures SaysChunked(headers) <==> IsChunked(headers)
  {
    hide IsChunked;
    ChunkedIff(headers);
  }

  /** A connection can be kept unless its first Connection header asks to close it, in any case. */
  lemma KeepAliveIff(head: ResponseHead)
    ensures KeepAlive(head) <==>
              FirstValue(head.headers, "connection") == None
              || !MentionsWord(FirstValue(head.headers, "connection").value, "close")
  {
    hide Contains, Lower, FirstValue;
    var v := FirstValue(head.headers, "connection");
    EmptyDoesNotClose();
    if v.Some? { ContainsAt(Lower(v.value), "close"); }
  }

  lemma EmptyDoesNotClose()
    ensures !Contains(Lower(""), "close")
  {
    assert Lower("") == "";
  }

  /** The headers of a response that are about one hop only. */
  predicate OneHop(name: string) {
    Lower(name) in {"connection", "keep-alive", "proxy-connection", "upgrade"}
  }

  lemma {:induction false} RelayedCount(headers: seq<Header>, chunked: bool, h: Header)
    ensures multiset(RelayedOf(headers, chunked))[h] == if Relays(h, chunked) then multiset(headers)[h] else 0
  {
    hide Relays;
    if headers != [] {
      RelayedCount(headers[1..], chunked, h);
      assert headers == [headers[0]] + headers[1..];
    }
  }

  lemma RelayedFront(h: Header, rest: seq<Header>, chunked: bool)
    ensures RelayedOf([h] + rest, chunked) == (if Relays(h, chunked) then [h] else []) + RelayedOf(rest, chunked)
  {
    hide Relays;
    assert ([h] + rest)[1..] == rest;
  }

  lemma {:induction false} RelayedConcat(a: seq<Header>, b: seq<Header>, chunked: bool)
    ensures RelayedOf(a + b, chunked) == RelayedOf(a, chunked) + RelayedOf(b, chunked)
  {
    hide Relays, RelayedOf;
    if a == [] {
      assert a + b == b;
      NoneRelayed(chunked);
    } else {
      assert a == [a[0]] + a[1..] && a + b == [a[0]] + (a[1..] + b);
      RelayedFront(a[0], a[1..], chunked);
      RelayedFront(a[0], a[1..] + b, chunked);
      RelayedConcat(a[1..], b, chunked);
      Associate(if Relays(a[0], chunked) then [a[0]] else [], RelayedOf(a[1..], chunked), RelayedOf(b, chunked));
    }
  }

  lemma NoneRelayed(chunked: bool)
    ensures RelayedOf([], chunked) == []
  {}

  /**
   The client gets every header of the response as often and in the order it was sent - except those about one
   hop, a length next to chunks and a transfer coding without chunks - and is told if the connection closes.
   */
  lemma HeadersReachClient(head: ResponseHead, x: Header, y: Header)
    requires x != Header("Connection", "close") && y != Header("Connection", "close")
    ensures var kept := RelayedHead(head).headers;
            var chunked := SaysChunked(head.headers);
            && multiset(kept)[x] == (if OneHop(x.name) || (Lower(x.name) == "content-length" && chunked)
                                        || (Lower(x.name) == "transfer-encoding" && !chunked)
                                     then 0 else multiset(head.headers)[x])
            && (Before(head.headers, x, y) && x in kept && y in kept ==> Before(kept, x, y))
            && (Header("Connection", "close") in kept <==> !KeepAlive(head))
  {
    hide IsChunked, KeepAlive, RelayedOf, Before, SaysChunked;
    ChunkedIs(head.headers);
    var chunked := IsChunked(head.headers);
    var kept := RelayedOf(head.headers, chunked);
    RelayedCount(head.headers, chunked, x);
    RelayedCount(head.headers, chunked, CLOSE);
    CloseIsOneHop();
    var added := if KeepAlive(head) then [] else [CLOSE];
    assert multiset(kept + added) == multiset(kept) + multiset(added);
    assert CLOSE in kept <==> multiset(kept)[CLOSE] > 0;
    if Before(head.headers, x, y) && x in kept + added && y in kept + added {
      RelayedInOrder(head.headers, chunked, x, y);
      BeforeWithin(kept, added, x, y);
    }
  }

  lemma CloseIsOneHop()
    ensures !Relays(CLOSE, true) && !Relays(CLOSE, false)
  {
    OwnNames();
  }

  lemma RelayedInOrder(headers: seq<Header>, chunked: bool, x: Header, y: Header)
    requires Before(headers, x, y) && x in RelayedOf(headers, chunked) && y in RelayedOf(headers, chunked)
    ensures Before(RelayedOf(headers, chunked), x, y)
  {
    hide RelayedOf, Relays;
    RelayedMembers(headers, chunked, x);
    RelayedMembers(headers, chunked, y);
    var i, j :| 0 <= i < j < |headers| && headers[i] == x && headers[j] == y;
    var a, b := headers[..i + 1], headers[i + 1..];
    assert headers == a + b && a[i] == x && b[j - i - 1] == y;
    RelayedConcat(a, b, chunked);
    RelayedMembers(a, chunked, x);
    RelayedMembers(b, chunked, y);
    BeforeAcross(RelayedOf(a, chunked), RelayedOf(b, chunked), x, y);
  }

  // ---------------------------------------------------------------- framing survives

  lemma {:induction false} RelayedKeepsFirst(headers: seq<Header>, chunked: bool)
    ensures !chunked ==> FirstValue(RelayedOf(headers, chunked), "content-length") == FirstValue(headers, "content-length")
    ensures FirstValue(RelayedOf(headers, chunked), "connection") == None
  {
    if headers != [] {
      RelayedKeepsFirst(headers[1..], chunked);
      var h, tail := headers[0], RelayedOf(headers[1..], chunked);
      NamesDisjoint(h);
      if Relays(h, chunked) {
        assert ([h] + tail)[0] == h && ([h] + tail)[1..] == tail;
      } else {
        assert [] + tail == tail;
      }
    }
  }

  lemma NamesDisjoint(h: Header)
    ensures Named(h, "content-length")
            ==> !Named(h, "transfer-encoding") && Lower(h.name) !in {"connection", "keep-alive", "proxy-connection", "upgrade"}
    ensures Named(h, "transfer-encoding") ==> Lower(h.name) !in {"connection", "keep-alive", "proxy-connection", "upgrade"}
  {
    assert |"content-length"| == 14 && |"transfer-encoding"| == 17 && |"connection"| == 10;
    assert |"keep-alive"| == 10 && |"proxy-connection"| == 16 && |"upgrade"| == 7;
  }

  lemma {:induction false} RelayedMembers(headers: seq<Header>, chunked: bool, h: Header)
    ensures h in RelayedOf(headers, chunked) <==> h in headers && Relays(h, chunked)
  {
    hide Relays;
    if headers != [] {
      RelayedMembers(headers[1..], chunked, h);
      assert headers == [headers[0]] + headers[1..];
    }
  }

  lemma CloseIsClose()
    ensures Lower(CLOSE.name) == "connection" && Contains(Lower(CLOSE.value), "close") && !Contains("", "close")
  {
    assert Lower("close") == "close" && "close" <= Lower("close");
    OwnNames();
  }

  lemma ChunkedSurvives(head: ResponseHead)
    ensures IsChunked(RelayedHead(head).headers) == IsChunked(head.headers)
  {
    hide RelayedOf, Contains;
    var c := IsChunked(head.headers);
    CloseIsClose();
    if c {
      var h :| h in head.headers && Named(h, "transfer-encoding") && Contains(Lower(h.value), "chunked");
      NamesDisjoint(h);
      RelayedMembers(head.headers, c, h);
    } else {
      forall h | h in RelayedHead(head).headers ensures !Named(h, "transfer-encoding") {
        if h != CLOSE { RelayedMembers(head.headers, c, h); }
      }
    }
  }

  /** The relayed head announces the same body and the same fate of the connection. */
  lemma RelayedHeadMeansTheSame(head: ResponseHead, verb: string)
    ensures FramingOf(RelayedHead(head), verb) == FramingOf(head, verb)
    ensures KeepAlive(RelayedHead(head)) == KeepAlive(head)
  {
    hide RelayedOf, IsChunked, Contains;
    var c := IsChunked(head.headers);
    var kept := RelayedOf(head.headers, c);
    var added := if KeepAlive(head) then [] else [CLOSE];
    ChunkedSurvives(head);
    RelayedKeepsFirst(head.headers, c);
    HasFirstValue(kept, "connection");
    HasFirstValue(kept, "content-length");
    FirstValueConcat(kept, added, "connection");
    FirstValueConcat(kept, added, "content-length");
    CloseIsClose();
    assert added != [] ==> added[1..] == [];
  }

  // ---------------------------------------------------------------- entity preservation

  /** The body alone parses as it did in front of everything that followed it. */
  lemma BodyAlone(framing: Framing, s: string)
    requires BodyOf(framing, s).Some?
    ensures var b := BodyOf(framing, s).value; BodyOf(framing, s[..b.len]) == Some(b)
  {
    hide ParseChunked;
    var b := BodyOf(framing, s).value;
    var wire := s[..b.len];
    match framing {
      case NoBody =>
      case ByChunks =>
        assert wire + s[b.len..] == s && wire + "" == wire;
        ChunkedPrefix(wire, s[b.len..], "", false);
      case ByLength(n) =>
        assert wire[..n] == s[..n];
      case UntilClose =>
        assert wire == s;
    }
  }

  /**
   Upstream to HTTP/2, for every response that is relayed at all: reading what the verbatim relay wrote
   gives the same head up to its connection headers, the same framing and the same entity, and takes
   exactly the bytes the relay took from the upstream; a head that relaying made too long is refused.
   */
  lemma EntityIsPreserved(head: ResponseHead, verb: string, s: string)
    requires CleanHead(head) && BodyOf(FramingOf(head, verb), s).Some?
    ensures var body := BodyOf(FramingOf(head, verb), s).value;
            var piped := HeadText(head) + s[..body.len];
            if |HeadText(head)| <= 65_537 then
              FinalHead(piped) == Some(ReceivedHead(RelayedHead(head), |HeadText(head)|))
              && BodyOf(FramingOf(RelayedHead(head), verb), piped[|HeadText(head)|..]) == Some(body)
            else FinalHead(piped) == None
  {
    hide BodyOf, FramingOf, HeadText, FinalHead, RelayedHead, CleanHead;
    var body := BodyOf(FramingOf(head, verb), s).value;
    HeadTextReadsBack(head, s[..body.len]);
    RelayedHeadMeansTheSame(head, verb);
    BodyAlone(FramingOf(head, verb), s);
    assert (HeadText(head) + s[..body.len])[|HeadText(head)|..] == s[..body.len];
  }

  // ---------------------------------------------------------------- exchange boundaries

  /** What an upstream may send as the body of a response with this framing. */
  ghost predicate Sends(framing: Framing, wire: string) {
    match framing
    case NoBody => wire == ""
    case ByChunks => exists e :: Conforming(e) && wire == Encode(e)
    case ByLength(n) => |wire| == n
    case UntilClose => true
  }

  /**
   A response that lets the connection be kept ends exactly where the upstream ended it: what is left
   for the next exchange starts at its first byte.
   */
  lemma NextExchangeStartsClean(framing: Framing, wire: string, next: string)
    requires Sends(framing, wire) && framing != UntilClose
    ensures BodyOf(framing, wire + next).Some?
    ensures BodyOf(framing, wire + next).value.len == |wire| && (wire + next)[|wire|..] == next
  {
    hide ParseChunked, Conforming, Encode;
    if framing == ByChunks {
      var e :| Conforming(e) && wire == Encode(e);
      ChunkedRoundTrip(e, next, false);
    }
  }

  /** Every head that can be read is clean. */
  lemma ReadHeadsAreClean(s: string)
    requires FinalHead(s).Some?
    ensures CleanHead(FinalHead(s).value.head)
    decreases |s|
  {
    hide Delimited, ParseResponseHead, FinalHead;
    HeadStep(s);
    var n := Delimited(s, BLANK_LINE, HEAD_MAX).value;
    if ParseResponseHead(s[..n]).value.status in {100, 102, 103} {
      ReadHeadsAreClean(s[n..]);
    } else {
      ParsedHeadIsClean(s[..n]);
    }
  }

  lemma ParsedHeadIsClean(text: string)
    requires ParseResponseHead(text).Some?
    ensures var head := ParseResponseHead(text).value;
            head.status <= STATUS_MAX && '\n' !in head.reason && AllClean(head.headers)
  {
    hide ParseUint, ParseHeaders;
    NoLfInLines(text);
    var lines := Lines(text);
    ParsedHeadersAreClean(lines[1..]);
    assert lines[0] in lines;
    UintBound(lines[0]);
  }

  lemma UintBound(line: string)
    requires ParseStatusLine(line).Some?
    ensures ParseStatusLine(line).value.0 <= STATUS_MAX
    ensures forall c :: c in ParseStatusLine(line).value.1 ==> c in line
  {}
}
