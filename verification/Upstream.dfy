/** Idle upstream connections, the body probe, and handing a response on to an HTTP/1.1 or HTTP/2 client. */
module Upstream {
  import opened Text
  import opened Numbers
  import opened Streams
  import opened Chunked
  import opened Http1
  import opened ResponseRelay

  const POOL_IDLE_TIMEOUT := 15_000
  const POOL_MAX := 64

  // ---------------------------------------------------------------- the pool

  /** An idle connection: who it leads to, when it was put back, and the bytes still unread on it. */
  datatype Pooled = Pooled(host: string, port: nat, sni: string, noSni: bool, returnedAt: nat, unread: string)

  predicate Fresh(p: Pooled, now: nat) {
    now - p.returnedAt < POOL_IDLE_TIMEOUT
  }

  function Live(conns: seq<Pooled>, now: nat): seq<Pooled> {
    if conns == [] then []
    else (if Fresh(conns[0], now) then [conns[0]] else []) + Live(conns[1..], now)
  }

  /** Live are the connections put back less than 15 seconds ago, in order. */
  lemma {:induction false} LiveFacts(a: seq<Pooled>, b: seq<Pooled>, now: nat)
    ensures forall p :: p in Live(a, now) <==> p in a && now < p.returnedAt + 15_000
    ensures Live(a + b, now) == Live(a, now) + Live(b, now)
    decreases |a|
  {
    if a == [] {
      assert a + b == b;
    } else {
      assert a == [a[0]] + a[1..] && (a + b)[1..] == a[1..] + b;
      LiveFacts(a[1..], b, now);
    }
  }

  class UpstreamPool {
    var conns: seq<Pooled>

    constructor ()
      ensures conns == []
    {
      conns := [];
    }

    method Retain(now: nat)
      modifies this
      ensures conns == Live(old(conns), now)
    {
      var kept := [];
      for i := 0 to |conns|
        invariant conns == old(conns)
        invariant kept + Live(conns[i..], now) == Live(conns, now)
      {
        assert conns[i..][1..] == conns[i + 1..];
        if Fresh(conns[i], now) {
          assert kept + ([conns[i]] + Live(conns[i + 1..], now)) == kept + [conns[i]] + Live(conns[i + 1..], now);
          kept := kept + [conns[i]];
        }
      }
      conns := kept;
    }

    /** Take the first live connection to the target that the caller allows. */
    method Take(host: string, port: nat, allowed: Pooled -> bool, now: nat) returns (taken: Option<Pooled>)
      modifies this
      ensures var live := Live(old(conns), now);
              match taken
              case None => conns == live && forall p :: p in live ==> !(p.host == host && p.port == port && allowed(p))
              case Some(p) =>
                p.host == host && p.port == port && allowed(p) &&
                exists i :: 0 <= i < |live| && live[i] == p && conns == live[..i] + live[i + 1..]
                         && forall j :: 0 <= j < i ==> !(live[j].host == host && live[j].port == port && allowed(live[j]))
    {
      Retain(now);
      for i := 0 to |conns|
        invariant conns == Live(old(conns), now)
        invariant forall j :: 0 <= j < i ==> !(conns[j].host == host && conns[j].port == port && allowed(conns[j]))
      {
        var p := conns[i];
        if p.host == host && p.port == port && allowed(p) {
          conns := conns[..i] + conns[i + 1..];
          return Some(p);
        }
      }
      return None;
    }

    method Put(p: Pooled, now: nat)
      modifies this
      ensures var live := Live(old(conns), now); conns == if |live| < 64 then live + [p] else live
    {
      Retain(now);
      if |conns| < POOL_MAX {
        conns := conns + [p];
      }
    }
  }

  // ---------------------------------------------------------------- probe and finish

  predicate RetryableStatus(status: nat) {
    status == 500 || 502 <= status <= 504
  }

  predicate ResponseHasBody(head: ResponseHead, verb: string) {
    !Bodyless(head, verb) && ContentLength(head.headers) != Some(0)
  }

  predicate NeedsProbe(head: ResponseHead, verb: string) {
    !RetryableStatus(head.status) && ResponseHasBody(head, verb)
  }

  /** One body byte is awaited unless a gateway error is answered, or no body is to come. */
  lemma ProbeIff(head: ResponseHead, verb: string)
    ensures NeedsProbe(head, verb) <==>
              && head.status !in {500, 502, 503, 504} && FramingOf(head, verb) != NoBody
              && ContentLength(head.headers) != Some(0)
  {
    hide ContentLength, IsChunked;
  }

  /** Wait for one body byte before an endpoint is adopted; None means that none came. */
  method ProbeBody(unread: string, head: ResponseHead, verb: string, steady: bool) returns (prefix: Option<string>, rest: string)
    ensures prefix.Some? ==> unread == prefix.value + rest
    ensures prefix.Some? ==> |prefix.value| == if NeedsProbe(head, verb) then 1 else 0
    ensures prefix == None ==> NeedsProbe(head, verb) && (!steady || unread == "")
  {
    if !NeedsProbe(head, verb) {
      return Some(""), unread;
    }
    var stream := new PrefixedReader("", unread, steady);
    var byte := stream.Read(1);
    rest := stream.inner;
    assert stream.Rest() == rest && "" + unread == unread;
    prefix := if byte.Some? && |byte.value| == 1 then byte else None;
  }

  /** A response is on its way to the client: the relayed head in one write, then a beginning of what comes behind the head. */
  ghost predicate Relaying(base: seq<string>, writes: seq<string>, head: ResponseHead, behind: string) {
    writes != base ==> base + [HeadText(head)] <= writes && Begins(Since(base + [HeadText(head)], writes), behind)
  }

  /** The relayed head in one write, then exactly the body. */
  ghost predicate Relayed(base: seq<string>, writes: seq<string>, head: ResponseHead, body: string) {
    base + [HeadText(head)] <= writes && Since(base + [HeadText(head)], writes) == body
  }

  /**
   Stream the response and keep the connection if it can carry another exchange. Some(keep) says that the
   client was sent all of it, which only a broken connection (never a `steady` one) or a cut body prevents.
   What is pooled is the bare connection, without the prefix the reader was given.
   */
  method FinishResponse(prefix: string, unread: string, w: Sink, head: ResponseHead, verb: string,
                        host: string, port: nat, sni: string, noSni: bool, pool: UpstreamPool, now: nat, steady: bool)
    returns (relayed: Option<bool>)
    requires |prefix| == if NeedsProbe(head, verb) then 1 else 0
    modifies w, pool
    ensures relayed == None ==> !steady || w.Failed() || BodyOf(FramingOf(head, verb), prefix + unread) == None
    ensures Relaying(old(w.writes), w.writes, head, prefix + unread)
    ensures relayed.Some? ==> BodyOf(FramingOf(head, verb), prefix + unread).Some?
    ensures relayed.Some? ==> Relayed(old(w.writes), w.writes, head,
                                      (prefix + unread)[..BodyOf(FramingOf(head, verb), prefix + unread).value.len])
    ensures relayed.Some? ==> (relayed.value <==> KeepAlive(head) && FramingOf(head, verb) != UntilClose)
    ensures relayed != Some(true) ==> pool.conns == old(pool.conns)
    ensures relayed == Some(true) ==>
              var body := BodyOf(FramingOf(head, verb), prefix + unread).value;
              var idle := Pooled(host, port, sni, noSni, now, (prefix + unread)[body.len..]);
              var live := Live(old(pool.conns), now);
              pool.conns == if |live| < 64 then live + [idle] else live
  {
    hide Since, ParseChunked, HeadText, KeepAlive, Live, Begins;
    var reader := new PrefixedReader(prefix, unread, steady);
    relayed := StreamResponseBody(reader, w, head, verb, false);
    if relayed != Some(true) {
      return;
    }
    ghost var body := BodyOf(FramingOf(head, verb), prefix + unread).value;
    assert |prefix| <= body.len by {
      if NeedsProbe(head, verb) { ProbedByteBelongsToBody(head, verb, prefix + unread); }
    }
    PrefixUsedUp(prefix, reader.pos, reader.inner, unread, body.len);
    pool.Put(Pooled(host, port, sni, noSni, now, reader.inner), now);
  }

  /** The probed byte is always part of the body that is then read. */
  lemma ProbedByteBelongsToBody(head: ResponseHead, verb: string, s: string)
    requires NeedsProbe(head, verb) && FramingOf(head, verb) != UntilClose
    requires BodyOf(FramingOf(head, verb), s).Some?
    ensures BodyOf(FramingOf(head, verb), s).value.len >= 1
  {
    if FramingOf(head, verb) == ByChunks {
      ChunkedIsNotEmpty(s);
    }
  }

  lemma ChunkedIsNotEmpty(s: string)
    requires ParseChunked(s, false).Some?
    ensures ParseChunked(s, false).value.len >= 2
  {
    hide TrailerLen;
    var piece := NextPiece(s, false);
    hide NextPiece;
    assert piece.Last? || piece.Data?;
  }

  /** A reader that consumed its whole prefix stands on the bare connection. */
  lemma PrefixUsedUp(prefix: string, pos: nat, inner: string, unread: string, len: nat)
    requires pos <= |prefix| <= len <= |prefix + unread|
    requires inner == unread || pos == |prefix|
    requires prefix[pos..] + inner == (prefix + unread)[len..]
    ensures inner == (prefix + unread)[len..]
  {
    assert |prefix[pos..] + inner| == |prefix| + |unread| - len;
  }
}
