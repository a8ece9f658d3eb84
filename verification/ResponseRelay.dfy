/** Streaming a response back: head, body framing, and the two chunked relays. */
module ResponseRelay {
  import opened Sequences
  import opened Text
  import opened Numbers
  import opened Streams
  import opened Chunked
  import opened Http1

  const COPY_BUFFER := 64 * 1024
  const STATUS_MAX := 0xFFFF

  datatype ResponseHead = ResponseHead(status: nat, reason: string, headers: seq<Header>)

  // ---------------------------------------------------------------- heads

  /** Version, status and reason of a status line, split at the first two spaces. */
  function ParseStatusLine(line: string): Option<(nat, string)> {
    var k := IndexOf(line, ' ');
    if k == |line| then None
    else
      var rest := line[k + 1..];
      var m := IndexOf(rest, ' ');
      match ParseUint(rest[..m], Ten, STATUS_MAX)
      case None => None
      case Some(status) => Some((status, if m == |rest| then "" else rest[m + 1..]))
  }

  function ParseResponseHead(text: string): Option<ResponseHead> {
    var lines := Lines(text);
    if lines == [] then None
    else
      match ParseStatusLine(lines[0])
      case None => None
      case Some((status, reason)) => Some(ResponseHead(status, reason, ParseHeaders(lines[1..])))
  }

  datatype ReceivedHead = ReceivedHead(head: ResponseHead, len: nat)

  /** The first head that is not an interim response. */
  function FinalHead(s: string): (h: Option<ReceivedHead>)
    ensures h.Some? ==> h.value.len <= |s|
    decreases |s|
  {
    match Delimited(s, BLANK_LINE, HEAD_MAX)
    case None => None
    case Some(n) =>
      match ParseResponseHead(s[..n])
      case None => None
      case Some(head) =>
        if head.status !in {100, 102, 103} then Some(ReceivedHead(head, n)) else Later(n, FinalHead(s[n..]))
  }

  /** A head behind `n` bytes of interim responses. */
  function Later(n: nat, h: Option<ReceivedHead>): Option<ReceivedHead> {
    if h == None then None else Some(ReceivedHead(h.value.head, n + h.value.len))
  }

  // ---------------------------------------------------------------- framing

  predicate KeepAlive(head: ResponseHead) {
    var connection := match FirstValue(head.headers, "connection") case None => "" case Some(v) => v;
    !Contains(Lower(connection), "close")
  }

  predicate Bodyless(head: ResponseHead, verb: string) {
    Lower(verb) == "head" || 100 <= head.status < 200 || head.status == 204 || head.status == 304
  }

  datatype Framing = NoBody | ByChunks | ByLength(n: nat) | UntilClose

  /** How the end of a response body is found. */
  function FramingOf(head: ResponseHead, verb: string): Framing {
    if Bodyless(head, verb) then NoBody
    else if IsChunked(head.headers) then ByChunks
    else match ContentLength(head.headers) case None => UntilClose case Some(n) => ByLength(n)
  }

  function BodyOf(framing: Framing, s: string): (b: Option<Body>)
    ensures b.Some? ==> b.value.len <= |s|
  {
    match framing
    case NoBody => Some(Body(0, ""))
    case ByChunks => ParseChunked(s, false)
    case ByLength(n) => if n <= |s| then Some(Body(n, s[..n])) else None
    case UntilClose => Some(Body(|s|, s))
  }

  /** The headers a client is given. */
  predicate Relays(h: Header, chunked: bool) {
    && (Named(h, "transfer-encoding") ==> chunked)
    && (Named(h, "content-length") ==> !chunked)
    && Lower(h.name) !in {"connection", "keep-alive", "proxy-connection", "upgrade"}
  }

  function RelayedOf(headers: seq<Header>, chunked: bool): seq<Header> {
    if headers == [] then []
    else (if Relays(headers[0], chunked) then [headers[0]] else []) + RelayedOf(headers[1..], chunked)
  }

  const CLOSE := Header("Connection", "close")

  function RelayedHead(head: ResponseHead): ResponseHead {
    head.(headers := RelayedOf(head.headers, IsChunked(head.headers)) + (if KeepAlive(head) then [] else [CLOSE]))
  }

  function StatusLine(head: ResponseHead): string {
    VERSION + " " + Decimal(head.status) + " " + head.reason
  }

  function HeadText(head: ResponseHead): string {
    StatusLine(head) + CRLF + HeaderText(RelayedHead(head).headers) + CRLF
  }

  // ---------------------------------------------------------------- writes

  /** What was written since `base`. */
  ghost function Since(base: seq<string>, writes: seq<string>): string
    requires base <= writes
  {
    Flatten(writes[|base|..])
  }

  lemma SinceAppend(base: seq<string>, writes: seq<string>, buf: string)
    requires base <= writes
    ensures base <= writes + [buf]
    ensures Since(base, writes + [buf]) == Since(base, writes) + buf
  {
    var parts := writes[|base|..];
    assert (writes + [buf])[|base|..] == parts + [buf];
    assert (parts + [buf])[..|parts|] == parts;
  }

  lemma SinceNothing(base: seq<string>)
    ensures Since(base, base) == ""
  {}

  lemma {:induction false} FlattenConcat(a: seq<string>, b: seq<string>)
    ensures Flatten(a + b) == Flatten(a) + Flatten(b)
  {
    if b == [] {
      assert a + b == a;
    } else {
      var n := |b| - 1;
      FlattenConcat(a, b[..n]);
      assert (a + b)[..|a| + n] == a + b[..n] && (a + b)[|a| + n] == b[n];
    }
  }

  lemma SinceTrans(a: seq<string>, b: seq<string>, c: seq<string>)
    requires a <= b <= c
    ensures a <= c && Since(a, c) == Since(a, b) + Since(b, c)
  {
    assert c[|a|..] == b[|a|..] + c[|b|..];
    FlattenConcat(b[|a|..], c[|b|..]);
  }

  /** What was written so far is the beginning of what was to be written. */
  predicate Begins(part: string, all: string) {
    part <= all
  }

  lemma Nothing(all: string)
    ensures Begins("", all)
  {}

  lemma StillBegins(all: string, done: string, rest: string, part: string)
    requires all == done + rest && Begins(part, rest)
    ensures Begins(done, all) && Begins(done + part, all)
  {
    assert rest == part + rest[|part|..];
    Associate(done, part, rest[|part|..]);
  }

  // ---------------------------------------------------------------- the relays

  /** Copy exactly `n` bytes, in whatever pieces they arrive. */
  method StreamExactN(r: PrefixedReader, w: Sink, n: nat) returns (ok: bool)
    requires r.Valid()
    modifies r, w
    ensures r.Valid() && r.Advanced() && old(w.writes) <= w.writes && (old(w.Failed()) ==> w.Failed())
    ensures ok ==> n <= |old(r.Rest())| && r.Rest() == old(r.Rest())[n..]
    ensures ok ==> Since(old(w.writes), w.writes) == old(r.Rest())[..n] && r.Failed() == old(r.Failed()) && w.Failed() == old(w.Failed())
    ensures !ok ==> r.Failed() || w.Failed() || |old(r.Rest())| < n
    ensures Begins(Since(old(w.writes), w.writes), old(r.Rest())) && |Since(old(w.writes), w.writes)| <= n
  {
    hide Since;
    ghost var all, base := r.Rest(), w.writes;
    var left := n;
    ghost var copied := "";
    SinceNothing(base);
    while left > 0
      invariant r.Valid() && r.Advanced() && base <= w.writes && r.Failed() == old(r.Failed()) && w.Failed() == old(w.Failed())
      invariant 0 <= left <= n && |copied| == n - left && all == copied + r.Rest()
      invariant Since(base, w.writes) == copied
    {
      var part := r.Read(if left <= COPY_BUFFER then left else COPY_BUFFER);
      if part == None || part.value == "" {
        return false;
      }
      ghost var before := w.writes;
      var ok := w.WriteAll(part.value);
      if !ok {
        return false;
      }
      SinceAppend(base, before, part.value);
      Associate(copied, part.value, r.Rest());
      copied := copied + part.value;
      left := left - |part.value|;
    }
    assert all[..n] == copied && all[n..] == r.Rest();
    return true;
  }

  /** What is left of a trailer section after `done` bytes. */
  ghost predicate HalfTrailers(all: string, done: string, rest: string) {
    all == done + rest && TrailerLen(all) == After(|done|, TrailerLen(rest))
  }

  lemma HalfTrailersStart(all: string)
    ensures HalfTrailers(all, "", all)
  {}

  lemma HalfTrailersNone(all: string, done: string, rest: string)
    requires HalfTrailers(all, done, rest) && Delimited(rest, CRLF, TRAILER_LINE_MAX) == None
    ensures TrailerLen(all) == None
  {
    TrailerNone(rest);
  }

  lemma HalfTrailersLine(all: string, done: string, line: string, rest: string)
    requires HalfTrailers(all, done, line + rest)
    requires Delimited(line + rest, CRLF, TRAILER_LINE_MAX) == Some(|line|)
    ensures line == CRLF ==> TrailerLen(all) == Some(|done + line|) && all[..|done + line|] == done + line
                             && all[|done + line|..] == rest
    ensures line != CRLF ==> HalfTrailers(all, done + line, rest)
  {
    hide Delimited, TrailerLen;
    TrailerStep(line, rest);
    assert all == (done + line) + rest;
  }

  method RelayTrailers(r: PrefixedReader, w: Sink) returns (ok: bool)
    requires r.Valid()
    modifies r, w
    ensures r.Valid() && r.Advanced() && old(w.writes) <= w.writes && (old(w.Failed()) ==> w.Failed())
    ensures ok ==> TrailerLen(old(r.Rest())).Some? && r.Failed() == old(r.Failed()) && w.Failed() == old(w.Failed())
    ensures ok ==> r.Rest() == old(r.Rest())[TrailerLen(old(r.Rest())).value..]
    ensures ok ==> Since(old(w.writes), w.writes) == old(r.Rest())[..TrailerLen(old(r.Rest())).value]
    ensures !ok ==> r.Failed() || w.Failed() || TrailerLen(old(r.Rest())) == None
    ensures Begins(Since(old(w.writes), w.writes), old(r.Rest()))
  {
    hide Delimited, TrailerLen, Since, HalfTrailers;
    ghost var all, base := r.Rest(), w.writes;
    ghost var done := "";
    SinceNothing(base);
    HalfTrailersStart(all);
    while true
      invariant r.Valid() && r.Advanced() && base <= w.writes && r.Failed() == old(r.Failed()) && w.Failed() == old(w.Failed())
      invariant HalfTrailers(all, done, r.Rest()) && Since(base, w.writes) == done && all == done + r.Rest()
      decreases |r.Rest()|
    {
      ghost var before := r.Rest();
      var line := r.ReadUntil(CRLF, TRAILER_LINE_MAX);
      if line == None {
        if !r.Failed() { HalfTrailersNone(all, done, before); }
        return false;
      }
      ghost var writes := w.writes;
      var ok := w.WriteAll(line.value);
      if !ok {
        return false;
      }
      HalfTrailersLine(all, done, line.value, r.Rest());
      SinceAppend(base, writes, line.value);
      Associate(done, line.value, r.Rest());
      done := done + line.value;
      if line.value == CRLF {
        return true;
      }
    }
  }

  /** Copy one chunk's data, and the two bytes behind it if they are wanted too. */
  method RelayData(r: PrefixedReader, w: Sink, size: nat, verbatim: bool) returns (ok: bool)
    requires r.Valid()
    modifies r, w
    ensures r.Valid() && r.Advanced() && old(w.writes) <= w.writes && (old(w.Failed()) ==> w.Failed())
    ensures ok ==> size + 2 <= |old(r.Rest())| && r.Rest() == old(r.Rest())[size + 2..]
    ensures ok ==> r.Failed() == old(r.Failed()) && w.Failed() == old(w.Failed())
    ensures ok ==> Since(old(w.writes), w.writes) == old(r.Rest())[..if verbatim then size + 2 else size]
    ensures !ok ==> r.Failed() || w.Failed() || |old(r.Rest())| < size + 2
    ensures Begins(Since(old(w.writes), w.writes), old(r.Rest()))
    ensures !verbatim ==> |Since(old(w.writes), w.writes)| <= size
  {
    hide Since;
    ghost var all, base := r.Rest(), w.writes;
    ok := StreamExactN(r, w, size);
    if !ok {
      return false;
    }
    ghost var afterData, w1 := r.Rest(), w.writes;
    var end := r.ReadExact(2);
    if end == None {
      return false;
    }
    assert all == all[..size] + (end.value + r.Rest());
    assert all[size + 2..] == r.Rest();
    if verbatim {
      ok := w.WriteAll(end.value);
      if !ok {
        return false;
      }
      SinceAppend(base, w1, end.value);
      assert all[..size + 2] == all[..size] + end.value;
    }
    return true;
  }

  /** How far the piece behind a size line goes: chunk data and two bytes, or the trailer section. */
  function PieceLen(size: nat, s: string): (n: Option<nat>)
    ensures n.Some? ==> n.value <= |s|
  {
    if size == 0 then TrailerLen(s) else if size + 2 <= |s| then Some(size + 2) else None
  }

  /** A size line and the piece behind it, verbatim. */
  method RelayPiece(r: PrefixedReader, w: Sink, line: string, size: nat) returns (ok: bool)
    requires r.Valid()
    modifies r, w
    ensures r.Valid() && r.Advanced() && old(w.writes) <= w.writes && (old(w.Failed()) ==> w.Failed())
    ensures ok ==> PieceLen(size, old(r.Rest())).Some? && r.Failed() == old(r.Failed()) && w.Failed() == old(w.Failed())
    ensures ok ==> r.Rest() == old(r.Rest())[PieceLen(size, old(r.Rest())).value..]
    ensures ok ==> Since(old(w.writes), w.writes) == line + old(r.Rest())[..PieceLen(size, old(r.Rest())).value]
    ensures !ok ==> r.Failed() || w.Failed() || PieceLen(size, old(r.Rest())) == None
    ensures Begins(Since(old(w.writes), w.writes), line + old(r.Rest()))
  {
    hide Since, TrailerLen;
    ghost var all, base := r.Rest(), w.writes;
    SinceNothing(base);
    ok := w.WriteAll(line);
    if !ok {
      return false;
    }
    SinceAppend(base, base, line);
    ghost var w1 := w.writes;
    if size == 0 {
      ok := RelayTrailers(r, w);
    } else {
      ok := RelayData(r, w, size, true);
    }
    SinceTrans(base, w1, w.writes);
    assert "" + line == line;
    StillBegins(line + all, line, all, Since(w1, w.writes));
  }

  /** Relay a chunked body byte for byte. */
  method RelayChunked(r: PrefixedReader, w: Sink) returns (ok: bool)
    requires r.Valid()
    modifies r, w
    ensures r.Valid() && r.Advanced() && old(w.writes) <= w.writes && (old(w.Failed()) ==> w.Failed())
    ensures ok ==> ParseChunked(old(r.Rest()), false).Some? && r.Failed() == old(r.Failed()) && w.Failed() == old(w.Failed())
    ensures ok ==> r.Rest() == old(r.Rest())[ParseChunked(old(r.Rest()), false).value.len..]
    ensures ok ==> Since(old(w.writes), w.writes) == old(r.Rest())[..ParseChunked(old(r.Rest()), false).value.len]
    ensures !ok ==> r.Failed() || w.Failed() || ParseChunked(old(r.Rest()), false) == None
    ensures Begins(Since(old(w.writes), w.writes), old(r.Rest()))
  {
    hide Delimited, ParseChunked, ParseChunkSize, TrailerLen, Since, HalfWay, PieceLen, Shift, Ending, NextPiece, Begins;
    ghost var all, base := r.Rest(), w.writes;
    ghost var done, data := "", "";
    SinceNothing(base);
    HalfWayStart(all, false);
    while true
      invariant r.Valid() && r.Advanced() && base <= w.writes && r.Failed() == old(r.Failed()) && w.Failed() == old(w.Failed())
      invariant HalfWay(all, done, data, r.Rest(), false) && Since(base, w.writes) == done && all == done + r.Rest()
      decreases |r.Rest()|
    {
      ghost var before, w0 := r.Rest(), w.writes;
      var line, size := ReadSizeLine(r);
      if size == None {
        if !r.Failed() { HalfWayNone(all, done, data, before, false); }
        PartIs(all, done, before);
        return false;
      }
      ghost var afterLine := r.Rest();
      ok := RelayPiece(r, w, line, size.value);
      SinceTrans(base, w0, w.writes);
      ghost var part := Since(w0, w.writes);
      PartIs(all, done, before);
      StillBegins(all, done, before, part);
      if !ok {
        if PieceLen(size.value, afterLine) == None { PieceIs(all, done, data, line, afterLine, size.value); }
        return false;
      }
      PieceIs(all, done, data, line, afterLine, size.value);
      done := done + part;
      if size.value == 0 {
        return true;
      }
      data := data + afterLine[..size.value];
    }
  }

  lemma PartIs(all: string, done: string, rest: string)
    requires all == done + rest
    ensures Begins(done, all)
  {}

  /** What a piece means for the body: its end, one more chunk, or no body at all. */
  lemma PieceIs(all: string, done: string, data: string, line: string, afterLine: string, size: nat)
    requires HalfWay(all, done, data, line + afterLine, false)
    requires Delimited(line + afterLine, CRLF, SIZE_LINE_MAX) == Some(|line|) && ParseChunkSize(line) == Some(size)
    ensures PieceLen(size, afterLine) == None ==> ParseChunked(all, false) == None
    ensures PieceLen(size, afterLine).Some? ==>
      var n := PieceLen(size, afterLine).value;
      var next := done + (line + afterLine[..n]);
      && all == next + afterLine[n..]
      && (size == 0 ==> ParseChunked(all, false) == Some(Body(|next|, data)) && all[..|next|] == next && all[|next|..] == afterLine[n..])
      && (size > 0 ==> n == size + 2 && HalfWay(all, next, data + afterLine[..size], afterLine[n..], false))
  {
    hide Delimited, ParseChunked, ParseChunkSize, TrailerLen, HalfWay;
    HalfWaySplit(all, done, data, line + afterLine);
    var n := PieceLen(size, afterLine);
    if size == 0 {
      HalfWayEnd(all, done, data, line, afterLine, false);
    } else if n == None {
      StepShort(line, afterLine, size, false);
      HalfWayNone(all, done, data, line + afterLine, false);
    } else {
      HalfWayChunk(all, done, data, line, afterLine, size, false);
    }
    if n.Some? {
      Moved(done, line, afterLine, n.value);
      Associate(done, line, afterLine[..n.value]);
    }
  }

  lemma HalfWaySplit(all: string, done: string, data: string, rest: string)
    requires HalfWay(all, done, data, rest, false)
    ensures all == done + rest
  {}

  /** The piece behind a size line, decoded: chunk data alone, nothing of the trailer section. */
  method DecodePiece(r: PrefixedReader, w: Sink, size: nat) returns (ok: bool)
    requires r.Valid()
    modifies r, w
    ensures r.Valid() && r.Advanced() && old(w.writes) <= w.writes && (old(w.Failed()) ==> w.Failed())
    ensures ok ==> PieceLen(size, old(r.Rest())).Some? && r.Failed() == old(r.Failed()) && w.Failed() == old(w.Failed())
    ensures ok ==> r.Rest() == old(r.Rest())[PieceLen(size, old(r.Rest())).value..]
    ensures ok ==> Since(old(w.writes), w.writes) == if size == 0 then "" else old(r.Rest())[..size]
    ensures !ok ==> r.Failed() || w.Failed() || PieceLen(size, old(r.Rest())) == None
    ensures Begins(Since(old(w.writes), w.writes), old(r.Rest())[..Min(size, |old(r.Rest())|)])
  {
    hide Since, TrailerLen;
    SinceNothing(w.writes);
    if size == 0 {
      ok := ReadTrailers(r);
    } else {
      ok := RelayData(r, w, size, false);
    }
  }

  /** Relay only the chunk data; sizes, line ends and trailers are consumed. */
  method RelayChunkedDecoded(r: PrefixedReader, w: Sink) returns (ok: bool)
    requires r.Valid()
    modifies r, w
    ensures r.Valid() && r.Advanced() && old(w.writes) <= w.writes && (old(w.Failed()) ==> w.Failed())
    ensures ok ==> ParseChunked(old(r.Rest()), false).Some? && r.Failed() == old(r.Failed()) && w.Failed() == old(w.Failed())
    ensures ok ==> r.Rest() == old(r.Rest())[ParseChunked(old(r.Rest()), false).value.len..]
    ensures ok ==> Since(old(w.writes), w.writes) == ParseChunked(old(r.Rest()), false).value.entity
    ensures !ok ==> r.Failed() || w.Failed() || ParseChunked(old(r.Rest()), false) == None
    ensures Begins(Since(old(w.writes), w.writes), Decodable(old(r.Rest())))
  {
    hide Delimited, ParseChunked, ParseChunkSize, TrailerLen, Since, HalfWay, PieceLen, Shift, Ending, NextPiece;
    hide Begins, HalfDecoded, Decodable;
    ghost var all, base := r.Rest(), w.writes;
    ghost var done, data := "", "";
    SinceNothing(base);
    HalfWayStart(all, false);
    HalfDecodedStart(all);
    while true
      invariant r.Valid() && r.Advanced() && base <= w.writes && r.Failed() == old(r.Failed()) && w.Failed() == old(w.Failed())
      invariant HalfWay(all, done, data, r.Rest(), false) && Since(base, w.writes) == data
      invariant HalfDecoded(all, data, r.Rest())
      decreases |r.Rest()|
    {
      ghost var before, w0 := r.Rest(), w.writes;
      var line, size := ReadSizeLine(r);
      if size == None {
        if !r.Failed() { HalfWayNone(all, done, data, before, false); }
        DecodedPart(all, data, before);
        return false;
      }
      ghost var afterLine := r.Rest();
      ok := DecodePiece(r, w, size.value);
      SinceTrans(base, w0, w.writes);
      DecodedMore(all, data, line, afterLine, size.value, Since(w0, w.writes));
      PieceIs(all, done, data, line, afterLine, size.value);
      assert data + "" == data;
      if size.value == 0 || !ok {
        return ok;
      }
      done := done + (line + afterLine[..size.value + 2]);
      data := data + afterLine[..size.value];
    }
  }

  lemma DecodedPart(all: string, data: string, rest: string)
    requires HalfDecoded(all, data, rest)
    ensures Begins(data, Decodable(all))
  {
    HalfDecodedIsPart(all, data, rest);
  }

  /** Whatever part of a piece was passed on, it was chunk data. */
  lemma DecodedMore(all: string, data: string, line: string, afterLine: string, size: nat, part: string)
    requires HalfDecoded(all, data, line + afterLine)
    requires Delimited(line + afterLine, CRLF, SIZE_LINE_MAX) == Some(|line|) && ParseChunkSize(line) == Some(size)
    requires Begins(part, afterLine[..Min(size, |afterLine|)])
    ensures Begins(data + part, Decodable(all))
    ensures size > 0 && size + 2 <= |afterLine| ==> HalfDecoded(all, data + afterLine[..size], afterLine[size + 2..])
  {
    hide Decodable, HalfDecoded, Delimited, ParseChunkSize;
    if size == 0 {
      HalfDecodedIsPart(all, data, line + afterLine);
      assert data + part == data;
    } else {
      HalfDecodedChunk(all, data, line, afterLine, size);
      assert data + part <= data + afterLine[..Min(size, |afterLine|)];
    }
  }

  // ---------------------------------------------------------------- whole responses

  /** The entity as it goes to the client: decoded, or as the upstream framed it. */
  function Outgoing(framing: Framing, s: string, b: Body, decode: bool): string
    requires b.len <= |s|
  {
    if decode && framing == ByChunks then b.entity else s[..b.len]
  }

  /** The entity bytes in what has been seen of a body. */
  function SeenEntity(framing: Framing, s: string): string {
    match framing
    case NoBody => ""
    case ByChunks => Decodable(s)
    case ByLength(n) => s[..Min(n, |s|)]
    case UntilClose => s
  }

  /** A body without framing runs until the upstream closes. */
  method RelayUntilClose(r: PrefixedReader, w: Sink) returns (ok: bool)
    requires r.Valid()
    modifies r, w
    ensures r.Valid() && r.Advanced() && old(w.writes) <= w.writes && (old(w.Failed()) ==> w.Failed())
    ensures ok ==> r.Rest() == "" && Since(old(w.writes), w.writes) == old(r.Rest())
    ensures ok ==> r.Failed() == old(r.Failed()) && w.Failed() == old(w.Failed())
    ensures !ok ==> r.Failed() || w.Failed()
    ensures Begins(Since(old(w.writes), w.writes), old(r.Rest()))
  {
    hide Since;
    ghost var all, base := r.Rest(), w.writes;
    ghost var copied := "";
    SinceNothing(base);
    while true
      invariant r.Valid() && r.Advanced() && base <= w.writes && r.Failed() == old(r.Failed()) && w.Failed() == old(w.Failed())
      invariant all == copied + r.Rest() && Since(base, w.writes) == copied
      decreases |r.Rest()|
    {
      var part := r.Read(COPY_BUFFER);
      if part == None {
        return false;
      }
      if part.value == "" {
        assert all == copied;
        return true;
      }
      ghost var before := w.writes;
      var ok := w.WriteAll(part.value);
      if !ok {
        return false;
      }
      SinceAppend(base, before, part.value);
      Associate(copied, part.value, r.Rest());
      copied := copied + part.value;
    }
  }

  method RelayBody(r: PrefixedReader, w: Sink, framing: Framing, decode: bool) returns (ok: bool)
    requires r.Valid()
    modifies r, w
    ensures r.Valid() && r.Advanced() && old(w.writes) <= w.writes && (old(w.Failed()) ==> w.Failed())
    ensures ok ==> BodyOf(framing, old(r.Rest())).Some? && r.Failed() == old(r.Failed()) && w.Failed() == old(w.Failed())
    ensures ok ==> r.Rest() == old(r.Rest())[BodyOf(framing, old(r.Rest())).value.len..]
    ensures ok ==> Since(old(w.writes), w.writes)
                   == Outgoing(framing, old(r.Rest()), BodyOf(framing, old(r.Rest())).value, decode)
    ensures !ok ==> r.Failed() || w.Failed() || BodyOf(framing, old(r.Rest())) == None
    ensures !decode ==> Begins(Since(old(w.writes), w.writes), old(r.Rest()))
    ensures decode ==> Begins(Since(old(w.writes), w.writes), SeenEntity(framing, old(r.Rest())))
  {
    hide Since, ParseChunked, Decodable;
    SinceNothing(w.writes);
    ghost var all := r.Rest();
    assert all[..0] == "" && all[0..] == all && all[..|all|] == all && all[|all|..] == "";
    match framing {
      case NoBody =>
        return true;
      case ByChunks =>
        if decode {
          ok := RelayChunkedDecoded(r, w);
        } else {
          ok := RelayChunked(r, w);
        }
        return ok;
      case ByLength(n) =>
        if n > 0 {
          ok := StreamExactN(r, w, n);
          return ok;
        }
        return true;
      case UntilClose =>
        ok := RelayUntilClose(r, w);
        return ok;
    }
  }

  /**
   Relay a response whose head was already read. The head goes out in one write; Some(keep) says
   that the whole body followed and whether both connections can carry another exchange.
   */
  method StreamResponseBody(r: PrefixedReader, w: Sink, head: ResponseHead, verb: string, decode: bool)
    returns (keep: Option<bool>)
    requires r.Valid()
    modifies r, w
    ensures r.Valid() && r.Advanced()
    ensures keep.Some? ==> BodyOf(FramingOf(head, verb), old(r.Rest())).Some? && r.Failed() == old(r.Failed())
    ensures keep.Some? ==> r.Rest() == old(r.Rest())[BodyOf(FramingOf(head, verb), old(r.Rest())).value.len..]
    ensures keep.Some? ==> old(w.writes) + [HeadText(head)] <= w.writes
    ensures keep.Some? ==> Since(old(w.writes) + [HeadText(head)], w.writes)
                           == Outgoing(FramingOf(head, verb), old(r.Rest()), BodyOf(FramingOf(head, verb), old(r.Rest())).value, decode)
    ensures keep.Some? ==> keep.value == (KeepAlive(head) && FramingOf(head, verb) != UntilClose)
    ensures keep == None ==> r.Failed() || w.Failed() || BodyOf(FramingOf(head, verb), old(r.Rest())) == None
    ensures w.writes != old(w.writes) ==> old(w.writes) + [HeadText(head)] <= w.writes
    ensures !decode && w.writes != old(w.writes) ==> Begins(Since(old(w.writes) + [HeadText(head)], w.writes), old(r.Rest()))
    ensures decode && w.writes != old(w.writes) ==>
              Begins(Since(old(w.writes) + [HeadText(head)], w.writes), SeenEntity(FramingOf(head, verb), old(r.Rest())))
  {
    hide Since, BodyOf, FramingOf, HeadText, Outgoing, SeenEntity;
    var sent := w.WriteAll(HeadText(head));
    if !sent {
      return None;
    }
    var framing := FramingOf(head, verb);
    var ok := RelayBody(r, w, framing, decode);
    if !ok {
      return None;
    }
    return Some(KeepAlive(head) && framing != UntilClose);
  }

  method ReadResponseHead(r: PrefixedReader) returns (head: Option<ResponseHead>)
    requires r.Valid()
    modifies r
    ensures r.Valid() && r.Advanced()
    ensures head.Some? ==> FinalHead(old(r.Rest())).Some? && FinalHead(old(r.Rest())).value.head == head.value
    ensures head.Some? ==> r.Rest() == old(r.Rest())[FinalHead(old(r.Rest())).value.len..] && r.Failed() == old(r.Failed())
    ensures head == None ==> r.Failed() || FinalHead(old(r.Rest())) == None
  {
    hide Delimited, ParseResponseHead, FinalHead;
    ghost var all := r.Rest();
    ghost var done: nat := 0;
    while true
      invariant r.Valid() && r.Advanced() && r.Failed() == old(r.Failed())
      invariant done <= |all| && r.Rest() == all[done..] && FinalHead(all) == Later(done, FinalHead(r.Rest()))
      decreases |r.Rest()|
    {
      ghost var rest := r.Rest();
      HeadStep(rest);
      var text := r.ReadUntil(BLANK_LINE, HEAD_MAX);
      if text == None {
        return None;
      }
      ghost var n := |text.value|;
      Parts(text.value, r.Rest());
      DropTwice(all, done, n);
      head := ParseResponseHead(text.value);
      if head == None || head.value.status !in {100, 102, 103} {
        return head;
      }
      done := done + n;
    }
  }

  lemma Parts(a: string, b: string)
    ensures (a + b)[..|a|] == a && (a + b)[|a|..] == b
  {}

  lemma DropTwice(s: string, i: nat, j: nat)
    requires i + j <= |s|
    ensures s[i..][j..] == s[i + j..]
  {}

  lemma HeadStep(s: string)
    ensures var d := Delimited(s, BLANK_LINE, HEAD_MAX);
            FinalHead(s) == if d == None || ParseResponseHead(s[..d.value]) == None then None
                            else if ParseResponseHead(s[..d.value]).value.status in {100, 102, 103}
                            then Later(d.value, FinalHead(s[d.value..]))
                            else Some(ReceivedHead(ParseResponseHead(s[..d.value]).value, d.value))
  {
    hide Delimited, ParseResponseHead;
  }
}
