/** The HTTP/2 side of a forwarded response, and what reaches it of the upstream's entity. */
module Http2Leg {
  import opened Sequences
  import opened Text
  import opened Numbers
  import opened Streams
  import opened Chunked
  import opened Http1
  import opened Http1Laws
  import opened ResponseRelay

  /** Discards the first buffer (the HTTP/1.1 head) and sends the others as flow control allows. */
  class H2StreamWriter {
    var headSkipped: bool
    var sent: string
    var ended: bool
    var aborted: bool
    var gaveUp: bool
    const steady: bool

    constructor (steady: bool)
      ensures Unused() && this.steady == steady
    {
      this.steady := steady;
      headSkipped, sent, ended, aborted, gaveUp := false, "", false, false, false;
    }

    /** The stream was closed or its connection broke, which cannot happen to a `steady` one. */
    predicate Failed()
      reads this
    {
      gaveUp && !steady
    }

    predicate Unused()
      reads this
    {
      !headSkipped && sent == "" && !ended && !aborted && !Failed()
    }

    /** One poll: some positive part of the buffer, as much as the window has room for. */
    method PollWrite(buf: string) returns (n: Option<nat>)
      modifies this`headSkipped, this`sent, this`gaveUp
      ensures headSkipped
      ensures !old(headSkipped) ==> n == Some(|buf|) && sent == old(sent)
      ensures old(headSkipped) && n.Some? ==> n.value <= |buf| && sent == old(sent) + buf[..n.value]
      ensures old(headSkipped) && n.Some? && buf != "" ==> n.value > 0
      ensures n == None ==> sent == old(sent)
      ensures Failed() == (old(Failed()) || n == None)
    {
      if !headSkipped {
        headSkipped := true;
        return Some(|buf|);
      }
      if buf == "" {
        return Some(0);
      }
      var broke: bool := *;
      if broke && !steady {
        gaveUp := true;
        return None;
      }
      var capacity: nat :| capacity > 0;
      var k := if capacity < |buf| then capacity else |buf|;
      sent := sent + buf[..k];
      return Some(k);
    }

    method WriteAll(buf: string) returns (ok: bool)
      modifies this`headSkipped, this`sent, this`gaveUp
      ensures headSkipped == (old(headSkipped) || buf != "")
      ensures ok ==> sent == old(sent) + if old(headSkipped) then buf else ""
      ensures old(sent) <= sent && Begins(sent, old(sent) + if old(headSkipped) then buf else "")
      ensures Failed() == (old(Failed()) || !ok)
    {
      var left := buf;
      ghost var done := "";
      while left != ""
        invariant buf == done + left
        invariant headSkipped == (old(headSkipped) || done != "")
        invariant sent == old(sent) + if old(headSkipped) then done else ""
        invariant !old(headSkipped) && done != "" ==> left == ""
        invariant Failed() == old(Failed())
        decreases |left|
      {
        var n := PollWrite(left);
        if n == None {
          return false;
        }
        Associate(done, left[..n.value], left[n.value..]);
        assert left == left[..n.value] + left[n.value..];
        assert old(headSkipped) ==> old(sent) + done + left[..n.value] == old(sent) + (done + left[..n.value]);
        done := done + left[..n.value];
        left := left[n.value..];
      }
      return true;
    }

    /** A whole sequence of buffers, each written with `write_all`. */
    method WriteBuffers(bufs: seq<string>) returns (ok: bool)
      requires !headSkipped && bufs != [] && bufs[0] != ""
      modifies this`headSkipped, this`sent, this`gaveUp
      ensures ok ==> sent == old(sent) + Flatten(bufs[1..])
      ensures Begins(sent, old(sent) + Flatten(bufs[1..]))
      ensures Failed() == (old(Failed()) || !ok)
    {
      ok := WriteAll(bufs[0]);
      var i := 1;
      while ok && i < |bufs|
        invariant 1 <= i <= |bufs| && headSkipped
        invariant ok ==> sent == old(sent) + Flatten(bufs[1..i])
        invariant Begins(sent, old(sent) + Flatten(bufs[1..i]))
        invariant Failed() == (old(Failed()) || !ok)
      {
        ghost var before := sent;
        ok := WriteAll(bufs[i]);
        assert bufs[1..i + 1] == bufs[1..i] + [bufs[i]];
        assert (bufs[1..i] + [bufs[i]])[..i - 1] == bufs[1..i];
        Associate(old(sent), Flatten(bufs[1..i]), bufs[i]);
        i := i + 1;
      }
      assert ok ==> bufs[1..i] == bufs[1..];
      assert bufs[1..][..i - 1] == bufs[1..i];
      FlattenPart(bufs[1..], i - 1, old(sent));
    }

    method Finish()
      modifies this`ended
      ensures ended
    {
      ended := true;
    }

    method Reset()
      modifies this`aborted
      ensures aborted
    {
      aborted := true;
    }
  }

  // ---------------------------------------------------------------- the head

  datatype H2Head = H2Head(status: nat, headers: seq<Header>)

  /** Headers that HTTP/2 has no place for, and the length, which its frames make superfluous. */
  predicate OnlyHttp1(h: Header) {
    Lower(h.name) in {"connection", "keep-alive", "proxy-connection", "transfer-encoding", "upgrade", "trailer", "content-length"}
  }

  function H2Headers(headers: seq<Header>): seq<Header> {
    if headers == [] then []
    else H2Headers(headers[..|headers| - 1]) + (if OnlyHttp1(headers[|headers| - 1]) then [] else [headers[|headers| - 1]])
  }

  function LastLength(headers: seq<Header>): Option<string> {
    if headers == [] then None
    else
      var last := headers[|headers| - 1];
      if Named(last, "content-length") then Some(last.value) else LastLength(headers[..|headers| - 1])
  }

  /** The head as the HTTP/2 client gets it; only where no body follows it tells the length. */
  function H2HeadOf(head: ResponseHead, verb: string): H2Head {
    var length := if Bodyless(head, verb) then LastLength(head.headers) else None;
    H2Head(head.status, H2Headers(head.headers)
                        + (if length == None then [] else [Header("content-length", length.value)]))
  }

  method BuildHead(head: ResponseHead, verb: string) returns (h2: H2Head)
    ensures h2 == H2HeadOf(head, verb)
  {
    hide OnlyHttp1, Named, Bodyless;
    var headers: seq<Header> := [];
    var length: Option<string> := None;
    for i := 0 to |head.headers|
      invariant headers == H2Headers(head.headers[..i]) && length == LastLength(head.headers[..i])
    {
      var h := head.headers[i];
      assert head.headers[..i + 1][..i] == head.headers[..i];
      LengthIsOnlyHttp1(h);
      if OnlyHttp1(h) {
        if Named(h, "content-length") {
          length := Some(h.value);
        }
      } else {
        headers := headers + [h];
      }
    }
    assert head.headers[..|head.headers|] == head.headers;
    if Bodyless(head, verb) && length.Some? {
      headers := headers + [Header("content-length", length.value)];
    }
    h2 := H2Head(head.status, headers);
  }

  lemma LengthIsOnlyHttp1(h: Header)
    ensures Named(h, "content-length") ==> OnlyHttp1(h)
  {}

  lemma H2HeadersSnoc(front: seq<Header>, last: Header)
    ensures H2Headers(front + [last]) == H2Headers(front) + (if OnlyHttp1(last) then [] else [last])
  {
    hide OnlyHttp1;
    assert (front + [last])[..|front|] == front;
  }

  lemma {:induction false} H2HeadersCount(headers: seq<Header>, x: Header)
    ensures multiset(H2Headers(headers))[x] == if OnlyHttp1(x) then 0 else multiset(headers)[x]
  {
    hide OnlyHttp1;
    if headers != [] {
      var front, last := headers[..|headers| - 1], headers[|headers| - 1];
      H2HeadersCount(front, x);
      H2HeadersSnoc(front, last);
      assert headers == front + [last];
      hide H2Headers;
      CountConcat(front, [last], x);
      CountConcat(H2Headers(front), if OnlyHttp1(last) then [] else [last], x);
    }
  }

  lemma {:induction false} H2HeadersConcat(a: seq<Header>, b: seq<Header>)
    ensures H2Headers(a + b) == H2Headers(a) + H2Headers(b)
  {
    hide OnlyHttp1;
    if b == [] {
      assert a + b == a;
    } else {
      var n := |b| - 1;
      assert (a + b)[..|a| + n] == a + b[..n] && (a + b)[|a| + n] == b[n];
      H2HeadersConcat(a, b[..n]);
    }
  }

  lemma H2HeadersOrder(headers: seq<Header>, x: Header, y: Header)
    requires !OnlyHttp1(x) && !OnlyHttp1(y) && Before(headers, x, y)
    ensures Before(H2Headers(headers), x, y)
  {
    hide OnlyHttp1, H2Headers;
    var i, j :| 0 <= i < j < |headers| && headers[i] == x && headers[j] == y;
    var a, b := headers[..i + 1], headers[i + 1..];
    assert headers == a + b && a[i] == x && b[j - i - 1] == y;
    H2HeadersConcat(a, b);
    H2HeadersCount(a, x);
    H2HeadersCount(b, y);
    assert x in multiset(a) && y in multiset(b);
    assert x in multiset(H2Headers(a)) && y in multiset(H2Headers(b));
    BeforeAcross(H2Headers(a), H2Headers(b), x, y);
  }

  /** Which response headers of an HTTP/1.1 response have a place in HTTP/2. */
  predicate InHttp2(name: string) {
    Lower(name) !in {"connection", "keep-alive", "proxy-connection", "transfer-encoding", "upgrade", "trailer", "content-length"}
  }

  /** They arrive as often and in the order they were sent, and no other does - but the length, if no body follows. */
  lemma HeadReachesHttp2(head: ResponseHead, verb: string, x: Header, y: Header)
    ensures H2HeadOf(head, verb).status == head.status
    ensures InHttp2(x.name) ==> multiset(H2HeadOf(head, verb).headers)[x] == multiset(head.headers)[x]
    ensures InHttp2(x.name) && InHttp2(y.name) && Before(head.headers, x, y) ==> Before(H2HeadOf(head, verb).headers, x, y)
    ensures x in H2HeadOf(head, verb).headers && !InHttp2(x.name) ==> x.name == "content-length" && Bodyless(head, verb)
  {
    hide H2Headers, LastLength, Bodyless, Before, Lower;
    var kept := H2Headers(head.headers);
    H2HeadersCount(head.headers, x);
    LowerLength();
    var all := H2HeadOf(head, verb).headers;
    var added := all[|kept|..];
    assert all == kept + added && (forall h :: h in added ==> h.name == "content-length" && Bodyless(head, verb));
    assert multiset(all) == multiset(kept) + multiset(added);
    if InHttp2(x.name) { assert x !in added; }
    if x in all && !InHttp2(x.name) {
      assert x in multiset(all);
      assert x in multiset(added);
    }
    if InHttp2(x.name) && InHttp2(y.name) && Before(head.headers, x, y) {
      H2HeadersOrder(head.headers, x, y);
      BeforeWithin(kept, added, x, y);
    }
  }

  lemma LowerLength()
    ensures Lower("content-length") == "content-length"
  {}

  datatype Reply = BadGateway | HeadOnly(head: H2Head) | Answered(head: H2Head, complete: bool)

  /** The entity of the response that `text` holds, if it holds a whole one. */
  function Delivered(text: string, verb: string): Option<string> {
    match FinalHead(text)
    case None => None
    case Some(h) =>
      match BodyOf(FramingOf(h.head, verb), text[h.len..])
      case None => None
      case Some(body) => Some(body.entity)
  }

  /**
   Answer one HTTP/2 request from the HTTP/1.1 response in `r`: the stream is ended exactly when `r` held a
   whole response and its entity was sent, and reset otherwise. A response that is delimited by the end
   of `r` is whole wherever `r` ends. Either way only bytes of the entity were sent, from its first one on.
   */
  method Respond(r: PrefixedReader, verb: string, h2: H2StreamWriter) returns (reply: Reply)
    requires r.Valid() && h2.Unused()
    modifies r, h2
    ensures r.Valid()
    ensures reply == BadGateway ==> r.Failed() || FinalHead(old(r.Rest())) == None
    ensures reply.HeadOnly? || reply.Answered? ==>
              FinalHead(old(r.Rest())).Some? && reply.head == H2HeadOf(FinalHead(old(r.Rest())).value.head, verb)
              && (reply.HeadOnly? <==> Bodyless(FinalHead(old(r.Rest())).value.head, verb))
    ensures reply.Answered? ==> h2.ended == reply.complete && h2.aborted == !reply.complete
    ensures !reply.Answered? ==> h2.Unused()
    ensures reply.Answered? ==>
              var found := FinalHead(old(r.Rest())).value;
              Begins(h2.sent, SeenEntity(FramingOf(found.head, verb), old(r.Rest())[found.len..]))
    ensures reply.Answered? && reply.complete ==> Delivered(old(r.Rest()), verb) == Some(h2.sent)
    ensures reply.Answered? && !reply.complete ==> r.Failed() || h2.Failed() || Delivered(old(r.Rest()), verb) == None
  {
    hide FinalHead, BodyOf, FramingOf, Since, HeadText, SeenEntity, Begins, H2HeadOf;
    var head := ReadResponseHead(r);
    if head == None {
      return BadGateway;
    }
    var h2Head := BuildHead(head.value, verb);
    if Bodyless(head.value, verb) {
      return HeadOnly(h2Head);
    }
    ghost var rest := r.Rest();
    var w := new Sink(h2.steady);
    var streamed := StreamResponseBody(r, w, head.value, verb, true);
    h2.gaveUp := w.Failed();
    if w.writes != [] {
      HeadTextNotEmpty(head.value);
      FirstBuffer([], HeadText(head.value), w.writes);
      var ok := h2.WriteBuffers(w.writes);
      assert "" + Flatten(w.writes[1..]) == Flatten(w.writes[1..]);
      BeginsTrans(h2.sent, Flatten(w.writes[1..]), SeenEntity(FramingOf(head.value, verb), rest));
      if streamed.Some? && ok {
        HasBodyFraming(head.value, verb);
        DecodedIsEntity(FramingOf(head.value, verb), rest);
        h2.Finish();
        return Answered(h2Head, true);
      }
    }
    Nothing(SeenEntity(FramingOf(head.value, verb), rest));
    h2.Reset();
    return Answered(h2Head, false);
  }

  lemma BeginsTrans(a: string, b: string, c: string)
    requires Begins(a, b) && Begins(b, c)
    ensures Begins(a, c)
  {}

  lemma FlattenPart(bufs: seq<string>, n: nat, before: string)
    requires n <= |bufs|
    ensures before + Flatten(bufs[..n]) <= before + Flatten(bufs)
  {
    hide Flatten;
    assert bufs == bufs[..n] + bufs[n..];
    FlattenConcat(bufs[..n], bufs[n..]);
    Associate(before, Flatten(bufs[..n]), Flatten(bufs[n..]));
  }

  lemma HeadTextNotEmpty(head: ResponseHead)
    ensures HeadText(head) != ""
  {
    hide StatusLine, HeaderText;
  }

  lemma FirstBuffer(base: seq<string>, first: string, writes: seq<string>)
    requires base == [] && base + [first] <= writes
    ensures writes != [] && writes[0] == first && Since(base + [first], writes) == Flatten(writes[1..])
  {
    assert base + [first] == [first];
  }

  lemma HasBodyFraming(head: ResponseHead, verb: string)
    requires !Bodyless(head, verb)
    ensures FramingOf(head, verb) != NoBody
  {}

  lemma DecodedIsEntity(framing: Framing, s: string)
    requires BodyOf(framing, s).Some? && framing != NoBody
    ensures Outgoing(framing, s, BodyOf(framing, s).value, true) == BodyOf(framing, s).value.entity
  {
    hide ParseChunked;
    assert s[..|s|] == s;
  }

  // ---------------------------------------------------------------- parsing looks at no more than it takes

  lemma AtPrefix(a: string, b: string, c: string, j: nat, pat: string)
    requires j + |pat| <= |a|
    ensures At(a + b, j, pat) == At(a + c, j, pat)
  {
    assert (a + b)[j..j + |pat|] == a[j..j + |pat|] == (a + c)[j..j + |pat|];
  }

  lemma DelimitedPrefix(a: string, b: string, c: string, pat: string, max: nat)
    requires pat != "" && Delimited(a + b, pat, max).Some? && Delimited(a + b, pat, max).value <= |a|
    ensures Delimited(a + c, pat, max) == Delimited(a + b, pat, max)
  {
    FindFacts(a + b, pat);
    var k := Find(a + b, pat);
    hide At;
    AtPrefix(a, b, c, k, pat);
    forall j: nat | j < k ensures !At(a + c, j, pat) {
      AtPrefix(a, b, c, j, pat);
    }
    FindIs(a + c, pat, k);
  }

  lemma {:induction false} TrailerPrefix(a: string, b: string, c: string)
    requires TrailerLen(a + b).Some? && TrailerLen(a + b).value <= |a|
    ensures TrailerLen(a + c) == TrailerLen(a + b)
    decreases |a|
  {
    hide Delimited;
    var l := Delimited(a + b, CRLF, TRAILER_LINE_MAX).value;
    DelimitedPrefix(a, b, c, CRLF, TRAILER_LINE_MAX);
    assert (a + b)[..l] == a[..l] == (a + c)[..l];
    assert (a + b)[l..] == a[l..] + b && (a + c)[l..] == a[l..] + c;
    if a[..l] != CRLF {
      TrailerPrefix(a[l..], b, c);
    }
  }

  lemma PiecePrefix(a: string, b: string, c: string, strict: bool)
    requires var p := NextPiece(a + b, strict);
             (p.Last? && p.line <= |a|) || (p.Data? && p.line + p.size + 2 <= |a|)
    ensures NextPiece(a + c, strict) == NextPiece(a + b, strict)
  {
    hide Delimited, ParseChunkSize;
    var l := NextPiece(a + b, strict).line;
    DelimitedPrefix(a, b, c, CRLF, SIZE_LINE_MAX);
    assert (a + b)[..l] == a[..l] == (a + c)[..l];
    if NextPiece(a + b, strict).Data? {
      var n := NextPiece(a + b, strict).size;
      assert (a + b)[l + n..l + n + 2] == a[l + n..l + n + 2] == (a + c)[l + n..l + n + 2];
    }
  }

  /** A chunked body is recognised by its own bytes, whatever follows it. */
  lemma {:induction false} ChunkedPrefix(a: string, b: string, c: string, strict: bool)
    requires ParseChunked(a + b, strict).Some? && ParseChunked(a + b, strict).value.len <= |a|
    ensures ParseChunked(a + c, strict) == ParseChunked(a + b, strict)
    decreases |a|
  {
    hide NextPiece, TrailerLen, ParseChunked;
    var p := NextPiece(a + b, strict);
    match p {
      case Malformed =>
        UnfoldMalformed(a + b, strict);
      case Last(l) =>
        UnfoldLast(a + b, strict, l);
        PiecePrefix(a, b, c, strict);
        UnfoldLast(a + c, strict, l);
        assert (a + b)[l..] == a[l..] + b && (a + c)[l..] == a[l..] + c;
        TrailerPrefix(a[l..], b, c);
      case Data(l, n) =>
        UnfoldData(a + b, strict, l, n);
        PiecePrefix(a, b, c, strict);
        UnfoldData(a + c, strict, l, n);
        assert (a + b)[l + n + 2..] == a[l + n + 2..] + b && (a + c)[l + n + 2..] == a[l + n + 2..] + c;
        assert (a + b)[l..l + n] == a[l..l + n] == (a + c)[l..l + n];
        ChunkedPrefix(a[l + n + 2..], b, c, strict);
    }
  }

  lemma NoLineInPrefix(a: string, b: string)
    requires Delimited(a, CRLF, SIZE_LINE_MAX).Some?
    ensures Delimited(a + b, CRLF, SIZE_LINE_MAX) == Delimited(a, CRLF, SIZE_LINE_MAX)
  {
    hide Delimited;
    assert a + "" == a;
    DelimitedPrefix(a, "", b, CRLF, SIZE_LINE_MAX);
  }

  /** A decoder that has seen only part of a whole body has passed on only part of its entity. */
  lemma {:induction false} DecodablePrefix(a: string, b: string)
    requires ParseChunked(a + b, false).Some?
    ensures Begins(Decodable(a), ParseChunked(a + b, false).value.entity)
    decreases |a|
  {
    hide Delimited, ParseChunkSize, TrailerLen, ParseChunked, NextPiece;
    var d := Delimited(a, CRLF, SIZE_LINE_MAX);
    if d.Some? {
      NoLineInPrefix(a, b);
      var l := d.value;
      assert (a + b)[..l] == a[..l];
      assert a == a[..l] + a[l..] && a + b == a[..l] + (a[l..] + b);
      if ParseChunkSize(a[..l]).Some? && ParseChunkSize(a[..l]).value > 0 {
        ChunkPrefix(a[..l], a[l..], b, ParseChunkSize(a[..l]).value);
      }
    }
  }

  lemma ChunkPrefix(line: string, a: string, b: string, size: nat)
    requires line != "" && size > 0 && ParseChunked(line + (a + b), false).Some?
    requires Delimited(line + (a + b), CRLF, SIZE_LINE_MAX) == Some(|line|) && ParseChunkSize(line) == Some(size)
    ensures Begins(DataFrom(a, size), ParseChunked(line + (a + b), false).value.entity)
    decreases |a| + |line|, 0
  {
    hide Delimited, ParseChunkSize, TrailerLen, ParseChunked, Decodable;
    if |a + b| < size + 2 {
      StepShort(line, a + b, size, false);
    } else {
      var data, end, rest := (a + b)[..size], (a + b)[size..size + 2], (a + b)[size + 2..];
      assert a + b == data + end + rest;
      StepData(line, data, end, rest, false);
      if |a| < size + 2 {
        assert a[..Min(size, |a|)] <= data;
      } else {
        assert data == a[..size] && rest == a[size + 2..] + b;
        DecodablePrefix(a[size + 2..], b);
      }
    }
  }
}
