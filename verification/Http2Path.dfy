/** From the upstream connection to the HTTP/2 stream: the verbatim relay, the pipe and the decoding relay in one run. */
module Http2Path {
  import opened Sequences
  import opened Text
  import opened Numbers
  import opened Streams
  import opened Chunked
  import opened Http1
  import opened Http1Laws
  import opened ResponseRelay
  import opened Http2Leg
  import opened ResponseLaws

  /** An upstream that sends `entity` in this framing may send `wire`. */
  ghost predicate Carries(framing: Framing, wire: string, entity: string) {
    match framing
    case NoBody => wire == "" && entity == ""
    case ByChunks => exists e :: Conforming(e) && wire == Encode(e) && entity == Entity(e.chunks)
    case ByLength(n) => |wire| == n && entity == wire
    case UntilClose => entity == wire
  }

  lemma CarriedIsFound(framing: Framing, wire: string, entity: string, next: string)
    requires Carries(framing, wire, entity) && (framing == UntilClose ==> next == "")
    ensures BodyOf(framing, wire + next) == Some(Body(|wire|, entity))
    ensures (wire + next)[..|wire|] == wire && (wire + next)[|wire|..] == next
  {
    hide ParseChunked, Conforming, Encode, Entity;
    match framing {
      case NoBody =>
      case ByChunks =>
        var e :| Conforming(e) && wire == Encode(e) && entity == Entity(e.chunks);
        ChunkedRoundTrip(e, next, false);
      case ByLength(_) =>
      case UntilClose =>
        assert wire + next == wire;
    }
  }

  // ---------------------------------------------------------------- what a cut pipe holds

  /** A body that is whole is the same body with anything behind it, unless the end of the input delimits it. */
  lemma BodyOfPrefix(framing: Framing, part: string, s: string)
    requires Begins(part, s) && framing != UntilClose && BodyOf(framing, part).Some?
    ensures BodyOf(framing, s) == BodyOf(framing, part)
  {
    hide ParseChunked;
    assert part + "" == part && part + s[|part|..] == s;
    match framing {
      case NoBody =>
      case ByChunks => ChunkedPrefix(part, "", s[|part|..], false);
      case ByLength(n) => assert part[..n] == s[..n];
    }
  }

  /** What has been seen of a whole body shows a beginning of its entity. */
  lemma SeenIsBeginning(framing: Framing, part: string, s: string)
    requires Begins(part, s) && BodyOf(framing, s).Some?
    ensures Begins(SeenEntity(framing, part), BodyOf(framing, s).value.entity)
  {
    hide ParseChunked, Decodable;
    if framing == ByChunks {
      assert part + s[|part|..] == s;
      DecodablePrefix(part, s[|part|..]);
    }
  }

  /** No proper beginning of a body passes for a body, except where the end of the input delimits it: there every one does. */
  lemma CutBodyIsWholeIffUntilClose(framing: Framing, s: string, k: nat)
    requires BodyOf(framing, s).Some? && k < BodyOf(framing, s).value.len
    ensures BodyOf(framing, s[..k]).Some? <==> framing == UntilClose
    ensures framing == UntilClose ==> BodyOf(framing, s[..k]) == Some(Body(k, s[..k]))
  {
    hide BodyOf;
    if framing == UntilClose {
      assert BodyOf(UntilClose, s[..k]) == Some(Body(k, s[..k])) by { OfUntilClose(s[..k]); }
    } else if BodyOf(framing, s[..k]).Some? {
      BodyOfPrefix(framing, s[..k], s);
    }
  }

  lemma OfUntilClose(s: string)
    ensures BodyOf(UntilClose, s) == Some(Body(|s|, s))
  {}

  function EntityOf(b: Option<Body>): Option<string> {
    if b == None then None else Some(b.value.entity)
  }

  predicate Readable(head: ResponseHead) {
    |HeadText(head)| <= 65_537
  }

  /** What a pipe with the relayed head and any bytes behind it delivers. */
  lemma PipeDelivers(head: ResponseHead, verb: string, part: string)
    requires CleanHead(head)
    ensures FramingOf(RelayedHead(head), verb) == FramingOf(head, verb)
    ensures Delivered(HeadText(head) + part, verb)
         == if Readable(head) then EntityOf(BodyOf(FramingOf(head, verb), part)) else None
    ensures FinalHead(HeadText(head) + part).Some? <==> Readable(head)
    ensures Readable(head) ==>
              var found := FinalHead(HeadText(head) + part).value;
              found.head == RelayedHead(head) && (HeadText(head) + part)[found.len..] == part
  {
    hide FinalHead, BodyOf, FramingOf, HeadText, RelayedHead, CleanHead;
    HeadTextReadsBack(head, part);
    RelayedHeadMeansTheSame(head, verb);
    assert (HeadText(head) + part)[|HeadText(head)|..] == part;
  }

  /**
   A relay that breaks off inside the body leaves a pipe that ends too early: the HTTP/2 side can tell
   unless the response is delimited by the end of the connection, and then it delivers the part for the whole.
   */
  lemma CutPipeDeliversIffUntilClose(head: ResponseHead, verb: string, s: string, k: nat)
    requires CleanHead(head) && BodyOf(FramingOf(head, verb), s).Some? && k < BodyOf(FramingOf(head, verb), s).value.len
    ensures Delivered(HeadText(head) + s[..k], verb)
         == if Readable(head) && FramingOf(head, verb) == UntilClose then Some(s[..k]) else None
  {
    hide BodyOf, FramingOf, HeadText, Delivered, CleanHead;
    PipeDelivers(head, verb, s[..k]);
    CutBodyIsWholeIffUntilClose(FramingOf(head, verb), s, k);
  }

  const PLAIN_OK := ResponseHead(200, "OK", [])

  /** Such a response: of the two bytes sent, the first alone ends the stream as if it were everything. */
  lemma HalfABodyEndsTheStream()
    ensures BodyOf(FramingOf(PLAIN_OK, "GET"), "ab") == Some(Body(2, "ab"))
    ensures Delivered(HeadText(PLAIN_OK) + "a", "GET") == Some("a")
  {
    PlainHead();
    hide HeadText, Delivered, CleanHead;
    OfUntilClose("ab");
    CutPipeDeliversIffUntilClose(PLAIN_OK, "GET", "ab", 1);
    assert "ab"[..1] == "a";
  }

  lemma PlainHead()
    ensures CleanHead(PLAIN_OK) && Readable(PLAIN_OK) && FramingOf(PLAIN_OK, "GET") == UntilClose
  {
    assert Lower("GET") == "get";
    assert HeaderText(RelayedHead(PLAIN_OK).headers) == "";
    assert |Decimal(200)| == 3;
  }

  /** The entity an upstream sends is the entity the HTTP/2 side reads from a whole pipe. */
  lemma EntityReachesHttp2(head: ResponseHead, verb: string, wire: string, entity: string)
    requires CleanHead(head) && Carries(FramingOf(head, verb), wire, entity)
    ensures Delivered(HeadText(head) + wire, verb) == if Readable(head) then Some(entity) else None
  {
    hide BodyOf, FramingOf, HeadText, Delivered, CleanHead, Carries;
    CarriedIsFound(FramingOf(head, verb), wire, entity, "");
    assert wire + "" == wire;
    PipeDelivers(head, verb, wire);
  }

  // ---------------------------------------------------------------- the whole path

  lemma PipeText(text: string, writes: seq<string>)
    requires [text] <= writes
    ensures Flatten(writes) == text + Since([text], writes)
  {
    assert writes == [text] + writes[1..];
    FlattenConcat([text], writes[1..]);
    assert Flatten([text]) == Flatten([text][..0]) + text == text;
  }

  /**
   Relay a response to the pipe and answer the HTTP/2 request from it. The upstream meant to send `entity`
   as `wire`, with `next` behind it, if these fit together; `steady` says that the pipe neither breaks nor idles.
   However the run ends, the client has been sent nothing but a beginning of the entity.
   */
  method ForwardToHttp2(r: PrefixedReader, head: ResponseHead, verb: string, h2: H2StreamWriter, steady: bool,
      ghost wire: string, ghost entity: string, ghost next: string)
    returns (forwarded: bool, reply: Reply)
    requires r.Valid() && h2.Unused() && CleanHead(head)
    modifies r, h2
    ensures r.Valid()
    ensures reply.Answered? || reply.HeadOnly? ==>
              && Readable(head) && reply.head == H2HeadOf(RelayedHead(head), verb)
              && (reply.HeadOnly? <==> Lower(verb) == "head" || 100 <= head.status <= 199 || head.status in {204, 304})
    ensures reply == BadGateway ==> !steady || !forwarded || !Readable(head)
    ensures !reply.Answered? ==> h2.Unused()
    ensures reply.Answered? ==> h2.ended == reply.complete && h2.aborted == !reply.complete
    ensures reply.Answered? && !reply.complete ==> !steady || h2.Failed() || !forwarded
    ensures !forwarded ==> !steady || r.Failed() || BodyOf(FramingOf(head, verb), old(r.Rest())) == None
    ensures forwarded ==> BodyOf(FramingOf(head, verb), old(r.Rest())).Some?
                          && r.Rest() == old(r.Rest())[BodyOf(FramingOf(head, verb), old(r.Rest())).value.len..]
    ensures reply.Answered? && reply.complete && (forwarded || FramingOf(head, verb) != UntilClose)
            ==> EntityOf(BodyOf(FramingOf(head, verb), old(r.Rest()))) == Some(h2.sent)
    ensures BodyOf(FramingOf(head, verb), old(r.Rest())).Some? ==>
              Begins(h2.sent, BodyOf(FramingOf(head, verb), old(r.Rest())).value.entity)
    ensures Carries(FramingOf(head, verb), wire, entity) && old(r.Rest()) == wire + next
            && (FramingOf(head, verb) == UntilClose ==> next == "") ==>
              && Begins(h2.sent, entity) && (forwarded ==> r.Rest() == next)
              && (reply.Answered? && reply.complete && (forwarded || FramingOf(head, verb) != UntilClose) ==> h2.sent == entity)
  {
    hide FinalHead, BodyOf, FramingOf, Since, HeadText, CleanHead, Carries, Delivered, Begins, Flatten, Readable, SeenEntity, H2HeadOf;
    ghost var rest, framing := r.Rest(), FramingOf(head, verb);
    if Carries(framing, wire, entity) && rest == wire + next && (framing == UntilClose ==> next == "") {
      CarriedIsFound(framing, wire, entity, next);
    }
    var w := new Sink(steady);
    var keep := StreamResponseBody(r, w, head, verb, false);
    forwarded := keep.Some?;
    var pipe := new PrefixedReader("", Flatten(w.writes), steady);
    ghost var piped := pipe.Rest();
    assert "" + Flatten(w.writes) == Flatten(w.writes);
    reply := Respond(pipe, verb, h2);
    if BodyOf(framing, rest).Some? {
      Nothing(BodyOf(framing, rest).value.entity);
    }
    if w.writes == [] {
      NothingPiped();
    } else {
      ghost var part := Since([HeadText(head)], w.writes);
      assert [] + [HeadText(head)] == [HeadText(head)];
      PipeText(HeadText(head), w.writes);
      PipeDelivers(head, verb, part);
      PartOfBody(framing, part, rest, forwarded);
      if BodyOf(framing, rest).Some? && reply.Answered? {
        BeginsTrans(h2.sent, SeenEntity(framing, part), BodyOf(framing, rest).value.entity);
      }
    }
  }

  /**
   From the upstream's head to the HTTP/2 client's: every header that has a place in HTTP/2 arrives as often and
   in the order it was sent.
   */
  lemma HeadersReachHttp2(head: ResponseHead, verb: string, x: Header, y: Header)
    requires InHttp2(x.name) && InHttp2(y.name)
    ensures H2HeadOf(RelayedHead(head), verb).status == head.status
    ensures multiset(H2HeadOf(RelayedHead(head), verb).headers)[x] == multiset(head.headers)[x]
    ensures Before(head.headers, x, y) ==> Before(H2HeadOf(RelayedHead(head), verb).headers, x, y)
  {
    hide H2HeadOf, Before, KeepAlive;
    OwnNames();
    HeadersReachClient(head, x, y);
    HeadersReachClient(head, y, x);
    HeadReachesHttp2(RelayedHead(head), verb, x, y);
    if Before(head.headers, x, y) {
      BeforeMembers(head.headers, x, y);
      assert x in multiset(RelayedHead(head).headers) && y in multiset(RelayedHead(head).headers);
    }
  }

  lemma BeforeMembers(s: seq<Header>, x: Header, y: Header)
    requires Before(s, x, y)
    ensures multiset(s)[x] > 0 && multiset(s)[y] > 0
  {
    var i, j :| 0 <= i < j < |s| && s[i] == x && s[j] == y;
    assert s[i] in s && s[j] in s;
  }

  lemma NothingPiped()
    ensures Flatten([]) == "" && FinalHead("") == None
  {}

  /** What reached the pipe: the whole body, or a beginning of what was to be relayed. */
  lemma PartOfBody(framing: Framing, part: string, rest: string, whole: bool)
    requires Begins(part, rest)
    requires whole ==> BodyOf(framing, rest).Some? && part == rest[..BodyOf(framing, rest).value.len]
    ensures whole ==> BodyOf(framing, part) == BodyOf(framing, rest)
    ensures framing != UntilClose && BodyOf(framing, part).Some? ==> BodyOf(framing, rest) == BodyOf(framing, part)
    ensures framing == UntilClose ==> BodyOf(framing, part) == Some(Body(|part|, part))
    ensures BodyOf(framing, rest).Some? ==> Begins(SeenEntity(framing, part), BodyOf(framing, rest).value.entity)
  {
    hide BodyOf, SeenEntity, Begins;
    if BodyOf(framing, rest).Some? { SeenIsBeginning(framing, part, rest); }
    if whole { BodyAlone(framing, rest); }
    if framing == UntilClose {
      OfUntilClose(part);
    } else if BodyOf(framing, part).Some? {
      BodyOfPrefix(framing, part, rest);
    }
  }
}
