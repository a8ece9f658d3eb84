/** One exchange on an upstream connection, from the response head to the idle pool. */
module Exchange {
  import opened Text
  import opened Streams
  import opened Chunked
  import opened ResponseRelay
  import opened ResponseLaws
  import opened Upstream

  /**
   Read the response head, wait for the first body byte, stream the response, keep the connection if
   possible. The client is sent the whole response unless a connection that is not `steady` fails or
   the response is cut: `relayed` is None then, and Some(kept) otherwise. If the upstream sent the final
   head, then a body of that framing (`wire`), then whatever comes next (`next`), the client was sent
   exactly `wire` behind the head, and a kept connection holds exactly `next`.
   */
  method ServeExchange(unread: string, verb: string, w: Sink, host: string, port: nat, sni: string, noSni: bool,
                       pool: UpstreamPool, now: nat, steady: bool, ghost wire: string, ghost next: string)
    returns (relayed: Option<bool>)
    modifies w, pool
    ensures relayed == None ==> !steady || w.Failed() || FinalHead(unread) == None || Cut(unread, verb)
    ensures FinalHead(unread) == None ==> w.writes == old(w.writes)
    ensures FinalHead(unread).Some? ==> Relaying(old(w.writes), w.writes, FinalHead(unread).value.head, Behind(unread))
    ensures relayed.Some? ==> FinalHead(unread).Some? && BodyOf(Framed(unread, verb), Behind(unread)).Some?
    ensures relayed.Some? ==> Relayed(old(w.writes), w.writes, FinalHead(unread).value.head,
                                      Behind(unread)[..BodyOf(Framed(unread, verb), Behind(unread)).value.len])
    ensures relayed.Some? ==>
              (relayed.value <==> KeepAlive(FinalHead(unread).value.head) && Framed(unread, verb) != UntilClose)
    ensures relayed.Some? && SentNext(unread, verb, wire, next) ==>
              Relayed(old(w.writes), w.writes, FinalHead(unread).value.head, wire)
    ensures relayed != Some(true) ==> pool.conns == old(pool.conns)
    ensures relayed == Some(true) && SentNext(unread, verb, wire, next)
            ==> var live := Live(old(pool.conns), now);
                pool.conns == if |live| < 64 then live + [Pooled(host, port, sni, noSni, now, next)] else live
  {
    hide FinalHead, FramingOf, KeepAlive, HeadText, BodyOf, Live, Sends, RetryableStatus, ResponseHasBody, Relaying, Relayed;
    NothingRelayed(w.writes);
    var reader := new PrefixedReader("", unread, steady);
    assert "" + unread == unread;
    var head := ReadResponseHead(reader);
    if head == None {
      return None;
    }
    var behind := reader.inner;
    assert reader.Rest() == behind by { NothingBefore(reader); }
    var prefix, rest := ProbeBody(behind, head.value, verb, steady);
    if prefix == None {
      if behind == "" { EmptyIsCut(unread, verb); }
      return None;
    }
    relayed := FinishResponse(prefix.value, rest, w, head.value, verb, host, port, sni, noSni, pool, now, steady);
    if relayed.Some? && SentNext(unread, verb, wire, next) {
      SentIsWire(Framed(unread, verb), wire, next);
    }
  }

  /** What the upstream has sent behind its final head, and how the end of the body is to be found in it. */
  function Behind(unread: string): string
    requires FinalHead(unread).Some?
  {
    unread[FinalHead(unread).value.len..]
  }

  function Framed(unread: string, verb: string): Framing
    requires FinalHead(unread).Some?
  {
    FramingOf(FinalHead(unread).value.head, verb)
  }

  /** The upstream ended before the body did, or before the first byte of a body that may be empty. */
  predicate Cut(unread: string, verb: string)
    requires FinalHead(unread).Some?
  {
    BodyOf(Framed(unread, verb), Behind(unread)) == None
    || (Framed(unread, verb) == UntilClose && Behind(unread) == "")
  }

  lemma NothingRelayed(writes: seq<string>)
    ensures forall head, behind :: Relaying(writes, writes, head, behind)
  {}

  lemma EmptyIsCut(unread: string, verb: string)
    requires FinalHead(unread).Some? && Behind(unread) == "" && NeedsProbe(FinalHead(unread).value.head, verb)
    ensures Cut(unread, verb)
  {
    hide FinalHead, ParseChunked;
    if BodyOf(Framed(unread, verb), "").Some? && Framed(unread, verb) != UntilClose {
      ProbedByteBelongsToBody(FinalHead(unread).value.head, verb, "");
    }
  }

  lemma SentIsWire(framing: Framing, wire: string, next: string)
    requires Sends(framing, wire) && BodyOf(framing, wire + next).Some?
    requires framing == UntilClose ==> next == ""
    ensures (wire + next)[..BodyOf(framing, wire + next).value.len] == wire
    ensures framing != UntilClose ==> (wire + next)[BodyOf(framing, wire + next).value.len..] == next
  {
    if framing == UntilClose {
      assert wire + next == wire;
    } else {
      NextExchangeStartsClean(framing, wire, next);
      assert (wire + next)[..|wire|] == wire;
    }
  }

  /** Behind the final head comes a body of its framing, then the next exchange; behind a close-delimited one nothing can come. */
  ghost predicate SentNext(unread: string, verb: string, wire: string, next: string) {
    FinalHead(unread).Some?
    && unread[FinalHead(unread).value.len..] == wire + next
    && Sends(FramingOf(FinalHead(unread).value.head, verb), wire)
    && (FramingOf(FinalHead(unread).value.head, verb) == UntilClose ==> next == "")
  }

  lemma NothingBefore(r: PrefixedReader)
    requires r.Valid() && r.prefix == ""
    ensures r.Rest() == r.inner
  {
    assert r.prefix[r.pos..] == "";
  }
}
