/** What the rewrite produces: a valid answer, sent back the way the query came, that is not answered again. */
module DnsInterceptLaws {
  import opened Sequences
  import opened Text
  import opened Bytes
  import opened Checksum
  import opened DnsCodec
  import opened DnsIntercept
  import DomainMatch

  // ---------------------------------------------------------------- slices of a rewritten buffer

  lemma SubSlice(a: seq<Byte>, b: seq<Byte>, lo: nat, hi: nat, i: nat, j: nat)
    requires lo <= i <= j <= hi <= |a| && hi <= |b| && a[lo..hi] == b[lo..hi]
    ensures a[i..j] == b[i..j]
  {
    forall k | i <= k < j ensures a[k] == b[k] {
      assert a[k] == a[lo..hi][k - lo] && b[k] == b[lo..hi][k - lo];
    }
  }

  lemma SwappedFields(p: seq<Byte>, at: nat, size: nat)
    requires at + 2 * size <= |p|
    ensures var r := Swapped(p, at, size);
            && r[0..at] == p[0..at] && r[at + 2 * size..|p|] == p[at + 2 * size..|p|]
            && r[at..at + size] == p[at + size..at + 2 * size] && r[at + size..at + 2 * size] == p[at..at + size]
  {}

  lemma PutFields(p: seq<Byte>, at: nat, bytes: seq<Byte>)
    requires at + |bytes| <= |p|
    ensures var r := Put(p, at, bytes);
            r[0..at] == p[0..at] && r[at..at + |bytes|] == bytes && r[at + |bytes|..|p|] == p[at + |bytes|..|p|]
  {}

  /** The IPv4 header: addresses swapped, length set, checksum right, all else kept. */
  ghost predicate V4Answer(p: seq<Byte>, r: seq<Byte>, total: nat, ihl: nat)
    requires 20 <= ihl <= |p| == |r| && total < 0x1_0000
  {
    && r[0..2] == p[0..2] && r[2..4] == Word(total) && r[4..10] == p[4..10]
    && r[12..16] == p[16..20] && r[16..20] == p[12..16] && r[20..ihl] == p[20..ihl]
    && Fold(WordSum(r[..ihl])) == 0xFFFF
  }

  lemma V4HeaderFields(p: seq<Byte>, total: nat, ihl: nat)
    requires 20 <= ihl <= |p| && total < 0x1_0000
    ensures V4Answer(p, V4Header(p, total, ihl), total, ihl)
    ensures V4Header(p, total, ihl)[ihl..|p|] == p[ihl..|p|]
  {
    hide WordSum, Fold, Word, Checksum.Checksum;
    var swapped := Swapped(p, 12, 4);
    SwappedFields(p, 12, 4);
    var sized := Put(swapped, 2, Word(total));
    PutFields(swapped, 2, Word(total));
    var zeroed := Put(sized, 10, [0, 0]);
    PutFields(sized, 10, [0, 0]);
    var sum := Word(Checksum.Checksum(zeroed[..ihl]));
    PutFields(zeroed, 10, sum);
    var r := V4Header(p, total, ihl);
    assert r == Put(zeroed, 10, sum);
    hide Put, Swapped;
    V4Slices(p, swapped, sized, zeroed, r, Word(total));
    HeadOfPut(zeroed, 10, sum, ihl);
    assert Put(zeroed[..ihl], 10, [0, 0]) == zeroed[..ihl] by {
      AlreadyThere(sized, 10, [0, 0], ihl);
    }
    ChecksummedHeaderFoldsToOnes(zeroed[..ihl]);
    SubSlice(r, p, 20, |p|, 20, ihl);
    SubSlice(r, p, 20, |p|, ihl, |p|);
  }

  lemma HeadOfPut(p: seq<Byte>, at: nat, bytes: seq<Byte>, n: nat)
    requires at + |bytes| <= n <= |p|
    ensures Put(p, at, bytes)[..n] == Put(p[..n], at, bytes)
  {}

  lemma AlreadyThere(p: seq<Byte>, at: nat, bytes: seq<Byte>, n: nat)
    requires at + |bytes| <= n <= |p|
    ensures Put(Put(p, at, bytes)[..n], at, bytes) == Put(p, at, bytes)[..n]
  {}

  lemma V4Slices(p: seq<Byte>, swapped: seq<Byte>, sized: seq<Byte>, zeroed: seq<Byte>, r: seq<Byte>, total: seq<Byte>)
    requires |p| == |swapped| == |sized| == |zeroed| == |r| >= 20 && |total| == 2
    requires swapped[0..12] == p[0..12] && swapped[20..|p|] == p[20..|p|]
    requires swapped[12..16] == p[16..20] && swapped[16..20] == p[12..16]
    requires sized[0..2] == swapped[0..2] && sized[2..4] == total && sized[4..|p|] == swapped[4..|p|]
    requires zeroed[0..10] == sized[0..10] && zeroed[12..|p|] == sized[12..|p|]
    requires r[0..10] == zeroed[0..10] && r[12..|p|] == zeroed[12..|p|]
    ensures r[0..2] == p[0..2] && r[2..4] == total && r[4..10] == p[4..10]
    ensures r[12..16] == p[16..20] && r[16..20] == p[12..16] && r[20..|p|] == p[20..|p|]
  {
    SubSlice(r, sized, 0, 10, 0, 2);
    SubSlice(swapped, p, 0, 12, 0, 2);
    SubSlice(r, sized, 0, 10, 2, 4);
    SubSlice(r, sized, 0, 10, 4, 10);
    SubSlice(sized, swapped, 4, |p|, 4, 10);
    SubSlice(swapped, p, 0, 12, 4, 10);
    SubSlice(r, sized, 12, |p|, 12, 16);
    SubSlice(r, sized, 12, |p|, 16, 20);
    SubSlice(r, sized, 12, |p|, 20, |p|);
    SubSlice(sized, swapped, 4, |p|, 12, 16);
    SubSlice(sized, swapped, 4, |p|, 16, 20);
    SubSlice(sized, swapped, 4, |p|, 20, |p|);
  }

  /** The IPv6 header: addresses swapped, payload length set, all else kept. */
  ghost predicate V6Answer(p: seq<Byte>, r: seq<Byte>, payload: nat)
    requires 40 <= |p| == |r| && payload < 0x1_0000
  {
    && r[0..4] == p[0..4] && r[4..6] == Word(payload) && r[6..8] == p[6..8]
    && r[8..24] == p[24..40] && r[24..40] == p[8..24]
  }

  lemma V6HeaderFields(p: seq<Byte>, payload: nat)
    requires 40 <= |p| && payload < 0x1_0000
    ensures V6Answer(p, V6Header(p, payload), payload)
    ensures V6Header(p, payload)[40..|p|] == p[40..|p|]
  {
    var swapped := Swapped(p, 8, 16);
    SwappedFields(p, 8, 16);
    var r := V6Header(p, payload);
    PutFields(swapped, 4, Word(payload));
    hide Put, Swapped, Word;
    SubSlice(r, swapped, 0, 4, 0, 4);
    SubSlice(swapped, p, 0, 8, 0, 4);
    SubSlice(swapped, p, 0, 8, 6, 8);
    SubSlice(r, swapped, 6, |p|, 6, 8);
    SubSlice(r, swapped, 6, |p|, 8, 24);
    SubSlice(r, swapped, 6, |p|, 24, 40);
    SubSlice(r, swapped, 6, |p|, 40, |p|);
  }

  /** The UDP header: ports swapped, length set, checksum cleared. */
  ghost predicate UdpAnswer(p: seq<Byte>, r: seq<Byte>, udp: nat, size: nat)
    requires udp + 8 <= |p| == |r| && size < 0x1_0000
  {
    && r[udp..udp + 2] == p[udp + 2..udp + 4] && r[udp + 2..udp + 4] == p[udp..udp + 2]
    && r[udp + 4..udp + 6] == Word(size) && r[udp + 6..udp + 8] == [0, 0]
  }

  lemma UdpHeaderFields(p: seq<Byte>, udp: nat, size: nat)
    requires udp + 8 <= |p| && size < 0x1_0000
    ensures UdpAnswer(p, UdpHeader(p, udp, size), udp, size)
    ensures UdpHeader(p, udp, size)[0..udp] == p[0..udp] && UdpHeader(p, udp, size)[udp + 8..|p|] == p[udp + 8..|p|]
  {
    var swapped := Swapped(p, udp, 2);
    SwappedFields(p, udp, 2);
    var r, fields := UdpHeader(p, udp, size), Word(size) + [0, 0];
    PutFields(swapped, udp + 4, fields);
    assert fields[0..2] == Word(size) && fields[2..4] == [0, 0];
    hide Put, Swapped, Word;
    assert r[udp + 4..udp + 6] == r[udp + 4..udp + 8][0..2] && r[udp + 6..udp + 8] == r[udp + 4..udp + 8][2..4];
    SubSlice(r, swapped, 0, udp + 4, 0, udp);
    SubSlice(r, swapped, 0, udp + 4, udp, udp + 2);
    SubSlice(r, swapped, 0, udp + 4, udp + 2, udp + 4);
    SubSlice(swapped, p, udp + 4, |p|, udp + 8, |p|);
  }

  // ---------------------------------------------------------------- the rewritten packet

  /** An IPv4 header of at least five words, as RFC 791 demands. */
  predicate ProperHeader(h: Hit) {
    !h.v6 ==> 20 <= h.udp
  }

  /** Everything a correct answer has to be, given the query `p` and the payload it carries. */
  ghost predicate Answers(p: seq<Byte>, r: seq<Byte>, h: Hit)
    requires Fits(p, h) && ProperHeader(h) && |r| == |p|
  {
    var end := h.udp + 8 + |h.reply|;
    && (if h.v6 then V6Answer(p, r, end - 40) else V4Answer(p, r, end, h.udp))
    && UdpAnswer(p, r, h.udp, end - h.udp)
    && r[h.udp + 8..end] == h.reply
    && r[end..|p|] == p[end..|p|]
  }

  /**
   The rewritten packet goes back where the query came from: addresses and ports are swapped, the IP and
   UDP lengths agree with the new payload, the header checksum is right, nothing behind it changes.
   */
  lemma RewriteAnswers(p: seq<Byte>, h: Hit)
    requires Fits(p, h) && ProperHeader(h)
    ensures Answers(p, Rewritten(p, h), h)
  {
    hide Put, V4Header, V6Header, UdpHeader, V4Answer, V6Answer, UdpAnswer, Word;
    var dns, end := h.udp + 8, h.udp + 8 + |h.reply|;
    var answered := Put(p, dns, h.reply);
    PutFields(p, dns, h.reply);
    var addressed := if h.v6 then V6Header(answered, |h.reply| + 8) else V4Header(answered, end, h.udp);
    if h.v6 {
      V6HeaderFields(answered, |h.reply| + 8);
    } else {
      V4HeaderFields(answered, end, h.udp);
    }
    UdpHeaderFields(addressed, h.udp, |h.reply| + 8);
    var r := Rewritten(p, h);
    assert r == UdpHeader(addressed, h.udp, |h.reply| + 8);
    SubSlice(answered, p, 0, dns, 0, h.udp);
    SubSlice(answered, p, 0, dns, h.udp, dns);
    SubSlice(addressed, answered, h.udp, |p|, h.udp, dns);
    SubSlice(addressed, answered, h.udp, |p|, dns, end);
    SubSlice(addressed, answered, h.udp, |p|, end, |p|);
    SubSlice(r, addressed, dns, |p|, dns, end);
    SubSlice(r, addressed, dns, |p|, end, |p|);
    UdpAnswerCarries(addressed, p, r, h.udp, |h.reply| + 8);
    if h.v6 {
      V6AnswerCarries(answered, p, addressed, r, |h.reply| + 8);
    } else {
      V4AnswerCarries(answered, p, addressed, r, end, h.udp);
    }
  }

  lemma UdpAnswerCarries(a: seq<Byte>, p: seq<Byte>, r: seq<Byte>, udp: nat, size: nat)
    requires udp + 8 <= |p| == |a| == |r| && size < 0x1_0000
    requires UdpAnswer(a, r, udp, size) && a[udp..udp + 8] == p[udp..udp + 8]
    ensures UdpAnswer(p, r, udp, size)
  {
    SubSlice(a, p, udp, udp + 8, udp, udp + 2);
    SubSlice(a, p, udp, udp + 8, udp + 2, udp + 4);
  }

  lemma V6AnswerCarries(a: seq<Byte>, p: seq<Byte>, b: seq<Byte>, r: seq<Byte>, payload: nat)
    requires 40 <= |p| == |a| == |b| == |r| && payload < 0x1_0000
    requires V6Answer(a, b, payload) && a[0..40] == p[0..40] && b[0..40] == r[0..40]
    ensures V6Answer(p, r, payload)
  {
    hide Word;
    SubSlice(a, p, 0, 40, 0, 4);
    SubSlice(a, p, 0, 40, 6, 8);
    SubSlice(a, p, 0, 40, 8, 24);
    SubSlice(a, p, 0, 40, 24, 40);
    SubSlice(b, r, 0, 40, 0, 4);
    SubSlice(b, r, 0, 40, 4, 6);
    SubSlice(b, r, 0, 40, 6, 8);
    SubSlice(b, r, 0, 40, 8, 24);
    SubSlice(b, r, 0, 40, 24, 40);
  }

  lemma V4AnswerCarries(a: seq<Byte>, p: seq<Byte>, b: seq<Byte>, r: seq<Byte>, total: nat, ihl: nat)
    requires 20 <= ihl <= |p| == |a| == |b| == |r| && total < 0x1_0000
    requires V4Answer(a, b, total, ihl) && a[0..ihl] == p[0..ihl] && b[0..ihl] == r[0..ihl]
    ensures V4Answer(p, r, total, ihl)
  {
    hide Word, WordSum, Fold;
    assert b[..ihl] == b[0..ihl] && r[..ihl] == r[0..ihl];
    SubSlice(a, p, 0, ihl, 0, 2);
    SubSlice(a, p, 0, ihl, 4, 10);
    SubSlice(a, p, 0, ihl, 12, 16);
    SubSlice(a, p, 0, ihl, 16, 20);
    SubSlice(a, p, 0, ihl, 20, ihl);
    SubSlice(b, r, 0, ihl, 0, 2);
    SubSlice(b, r, 0, ihl, 2, 4);
    SubSlice(b, r, 0, ihl, 4, 10);
    SubSlice(b, r, 0, ihl, 12, 16);
    SubSlice(b, r, 0, ihl, 16, 20);
    SubSlice(b, r, 0, ihl, 20, ihl);
  }

  // ---------------------------------------------------------------- the payload

  /** Labels that end at a zero byte inside the message are what the label writer writes. */
  lemma {:induction false} LabelsAreLabelBytes(s: seq<Byte>, i: nat)
    requires ReadLabels(s, i).Some? && ReadLabels(s, i).value.1 < |s|
    ensures var (labels, end) := ReadLabels(s, i).value;
            && i <= end && s[i..end] == LabelBytes(labels) + [0]
            && forall k :: 0 <= k < |labels| ==> Sized(labels[k])
    decreases |s| - i
  {
    if s[i] != 0 {
      var next := i + 1 + s[i];
      LabelsAreLabelBytes(s, next);
      var (more, end) := ReadLabels(s, next).value;
      hide ReadLabels, LabelBytes;
      SliceOfLabel(s, i, next, end, more);
    } else {
      assert s[i..i + 1] == [0];
    }
  }

  lemma SliceOfLabel(s: seq<Byte>, i: nat, next: nat, end: nat, more: seq<seq<Byte>>)
    requires i < |s| && next == i + 1 + s[i] && next <= end <= |s| && s[next..end] == LabelBytes(more) + [0]
    ensures s[i..end] == LabelBytes([s[i + 1..next]] + more) + [0]
  {
    hide LabelBytes;
    var part := s[i + 1..next];
    FirstOfLabels(part, more);
    ThreeSlices(s, i, next, end);
    Associate([s[i]] + part, LabelBytes(more), [0]);
  }

  lemma FirstOfLabels(part: seq<Byte>, more: seq<seq<Byte>>)
    requires |part| < 256
    ensures LabelBytes([part] + more) == [|part|] + part + LabelBytes(more)
  {
    LabelBytesUnfold([part] + more);
    hide LabelBytes;
    assert ([part] + more)[1..] == more && ([part] + more)[0] == part;
  }

  lemma ThreeSlices(s: seq<Byte>, i: nat, next: nat, end: nat)
    requires i < next <= end <= |s|
    ensures s[i..end] == [s[i]] + s[i + 1..next] + s[next..end]
  {}

  const POINTER_TO_QUESTION := Name([], Some(12))

  function LoopbackAnswer(q: QType): Answer {
    Answer(POINTER_TO_QUESTION, q.Code(), 1, 300, Loopback(q))
  }

  lemma LoopbackAnswerIsValid(q: QType)
    ensures ValidAnswer(LoopbackAnswer(q)) && |Loopback(q)| == q.AddressSize()
  {}

  lemma PointerBytes()
    ensures ValidName(POINTER_TO_QUESTION) && NameBytes(POINTER_TO_QUESTION) == [0xC0, 0x0C] && Word(1) == [0, 1]
  {
    assert Word(0xC00C) == [0xC0, 0x0C];
  }

  lemma LoopbackAnswerBytes(q: QType)
    ensures ValidAnswer(LoopbackAnswer(q)) && |Loopback(q)| == q.AddressSize()
    ensures AnswerBytes([LoopbackAnswer(q)])
         == [0xC0, 0x0C] + Word(q.Code()) + [0, 1] + Wide(300) + Word(q.AddressSize()) + Loopback(q)
  {
    hide Word, Wide, Loopback, NameBytes;
    LoopbackAnswerIsValid(q);
    PointerBytes();
    var a := LoopbackAnswer(q);
    assert [a][1..] == [];
    Flattened([0xC0, 0x0C], Word(q.Code()), [0, 1], Wide(300), Word(q.AddressSize()), Loopback(q));
  }

  lemma Flattened(a: seq<Byte>, b: seq<Byte>, c: seq<Byte>, d: seq<Byte>, e: seq<Byte>, f: seq<Byte>)
    ensures a + (b + c + d + e) + f + [] == a + b + c + d + e + f
  {}

  /** The reply is a response in the sense of the codec: the query's own question and one answer that points at it. */
  lemma ReplyIsResponse(s: seq<Byte>, dns: nat, labels: seq<seq<Byte>>, end: nat, q: QType)
    requires dns + 12 <= end && end + 4 <= |s| && ReadLabels(s, dns + 12) == Some((labels, end))
    ensures ValidAnswer(LoopbackAnswer(q)) && AllValid([LoopbackAnswer(q)])
    ensures Reply(s, dns, end + 4, q)
         == Response(s[dns..dns + 2] + [0x81, 0x80, 0, 1], [0, 0, 0, 0], labels, s[end..end + 4], [LoopbackAnswer(q)])
  {
    hide AnswerBytes, LabelBytes, ReadLabels;
    LoopbackAnswerBytes(q);
    LabelsAreLabelBytes(s, dns + 12);
    assert s[dns + 12..end + 4] == LabelBytes(labels) + [0] + s[end..end + 4];
    assert Word(1) == [0, 1];
    hide Word, Wide, Loopback;
    ReplyShape(s[dns..dns + 2], s[dns + 12..end + 4], Word(q.Code()), Wide(300), Word(q.AddressSize()), Loopback(q));
  }

  lemma ReplyShape(id: seq<Byte>, question: seq<Byte>, code: seq<Byte>, ttl: seq<Byte>, size: seq<Byte>, data: seq<Byte>)
    ensures id + [0x81, 0x80, 0, 1, 0, 1, 0, 0, 0, 0] + question + [0xC0, 0x0C] + code + [0, 1] + ttl + size + data
         == id + [0x81, 0x80, 0, 1] + [0, 1] + [0, 0, 0, 0] + question + ([0xC0, 0x0C] + code + [0, 1] + ttl + size + data)
  {
    assert id + [0x81, 0x80, 0, 1, 0, 1, 0, 0, 0, 0] == id + [0x81, 0x80, 0, 1] + [0, 1] + [0, 0, 0, 0];
  }

  lemma ReplyParses(s: seq<Byte>, dns: nat, labels: seq<seq<Byte>>, end: nat, q: QType)
    requires dns + 12 <= end && end + 4 <= |s| && ReadLabels(s, dns + 12) == Some((labels, end))
    ensures ParseResponse(Reply(s, dns, end + 4, q), q) == Some(([Loopback(q)], 300))
  {
    hide Reply, Response, ParseResponse;
    ReplyIsResponse(s, dns, labels, end, q);
    LabelsAreLabelBytes(s, dns + 12);
    var a := LoopbackAnswer(q);
    var start, asked := s[dns..dns + 2] + [0x81, 0x80, 0, 1], s[end..end + 4];
    ResponseReadsBack(start, [0, 0, 0, 0], labels, asked, [a], [], q);
    var whole := Response(start, [0, 0, 0, 0], labels, asked, [a]);
    assert whole + [] == whole;
    LoopbackAnswerBytes(q);
    assert [a][1..] == [] && [Loopback(q)] + [] == [Loopback(q)];
    assert AddressesOf([a], q) == [Loopback(q)];
    assert LowestOf([a], q, TTL_UNKNOWN) == 300;
  }

  // ---------------------------------------------------------------- a packet that was answered

  lemma DecidedReply(p: seq<Byte>, n: nat, domains: set<string>)
    requires n <= |p| <= BUFFER_SIZE && Decide(p, n, domains).Some?
    ensures var h := Decide(p, n, domains).value;
            var s := p[..n];
            && Fits(p, h) && UdpAt(s) == Some(h.udp) && h.v6 == IsV6(s) && n >= 28
            && h.udp + 8 + 12 <= h.question.end <= n && h.reply == Reply(s, h.udp + 8, h.question.end, h.q)
            && ReadQuestion(s, h.udp + 8 + 12) == Some(h.question) && h.question.qtype == h.q.Code()
  {
    hide Reply, ReadQuestion, AsText;
    DecideFits(p, n, domains);
    ReadQuestionBounds(p[..n], UdpAt(p[..n]).value + 8 + 12);
  }

  /**
   Every answered query becomes a packet whose payload is a response without error, and read by this
   repository's own response parser yields exactly one address - this machine's, of the family the packet's
   question asks for - with a lifetime of 300 seconds.
   */
  lemma AnsweredWithLoopback(p: seq<Byte>, n: nat, domains: set<string>)
    requires n <= |p| <= BUFFER_SIZE && Decide(p, n, domains).Some? && ProperHeader(Decide(p, n, domains).value)
    ensures var h := Decide(p, n, domains).value;
            && Fits(p, h) && Answers(p, Rewritten(p, h), h) && 4 <= h.question.end <= n && |h.reply| >= 12
    ensures var h := Decide(p, n, domains).value;
            var response, end := Rewritten(p, h)[h.udp + 8..h.udp + 8 + |h.reply|], h.question.end;
            && response[2..12] == [0x81, 0x80, 0, 1, 0, 1, 0, 0, 0, 0]
            && (p[end - 4..end - 2] == [0, 1] || p[end - 4..end - 2] == [0, 28])
            && (p[end - 4..end - 2] == [0, 1] ==> ParseResponse(response, A) == Some(([[127, 0, 0, 1]], 300)))
            && (p[end - 4..end - 2] == [0, 28] ==>
                  ParseResponse(response, Aaaa) == Some(([[0, 0, 0, 0, 0, 0, 0, 0, 0, 0, 0, 0, 0, 0, 0, 1]], 300)))
  {
    hide Decide, Rewritten, ParseResponse, UdpAt, IsV6, ReadQuestion, Reply, Answers;
    DecidedReply(p, n, domains);
    var h := Decide(p, n, domains).value;
    ReplyTells(p, n, domains);
    RewriteAnswers(p, h);
    CarriesReply(p, Rewritten(p, h), h);
  }

  lemma CarriesReply(p: seq<Byte>, r: seq<Byte>, h: Hit)
    requires Fits(p, h) && ProperHeader(h) && |r| == |p| && Answers(p, r, h)
    ensures r[h.udp + 8..h.udp + 8 + |h.reply|] == h.reply
  {
    hide V4Answer, V6Answer, UdpAnswer;
  }

  /** What the payload of an answer says, by the type bytes of the question. */
  lemma ReplyTells(p: seq<Byte>, n: nat, domains: set<string>)
    requires n <= |p| <= BUFFER_SIZE && Decide(p, n, domains).Some?
    ensures var h := Decide(p, n, domains).value;
            && 4 <= h.question.end <= n && |h.reply| >= 12 && h.reply[2..12] == [0x81, 0x80, 0, 1, 0, 1, 0, 0, 0, 0]
            && p[h.question.end - 4..h.question.end - 2] == (if h.q == A then [0, 1] else [0, 28])
            && ParseResponse(h.reply, h.q) == Some(([Loopback(h.q)], 300))
  {
    hide Decide, Reply, ParseResponse, UdpAt, IsV6, Loopback;
    DecidedReply(p, n, domains);
    var h := Decide(p, n, domains).value;
    var s, dns := p[..n], h.udp + 8;
    var (labels, end) := ReadLabels(s, dns + 12).value;
    ReadLabelsBounds(s, dns + 12);
    ReplyParses(s, dns, labels, end, h.q);
    ReplyStarts(s, dns, end + 4, h.q);
    TypeBytes(p, n, end, h.q);
  }

  lemma ReplyStarts(s: seq<Byte>, dns: nat, qend: nat, q: QType)
    requires dns + 12 <= qend <= |s|
    ensures |Reply(s, dns, qend, q)| >= 12 && Reply(s, dns, qend, q)[2..12] == [0x81, 0x80, 0, 1, 0, 1, 0, 0, 0, 0]
  {
    hide Word, Wide, Loopback;
    var id := s[dns..dns + 2];
    var flags := [0x81, 0x80, 0, 1, 0, 1, 0, 0, 0, 0];
    var tail := [0xC0, 0x0C] + Word(q.Code()) + [0, 1] + Wide(300) + Word(q.AddressSize()) + Loopback(q);
    ReplyTail(id + flags, s[dns + 12..qend], Word(q.Code()), Wide(300), Word(q.AddressSize()), Loopback(q));
    InFront(id + flags, s[dns + 12..qend], tail);
    assert (id + flags)[2..12] == flags;
  }

  lemma TypeBytes(p: seq<Byte>, n: nat, end: nat, q: QType)
    requires end + 4 <= n <= |p| && U16(p[..n][end], p[..n][end + 1]) == q.Code()
    ensures p[end..end + 2] == if q == A then [0, 1] else [0, 28]
  {
    assert p[end] == 0;
  }

  /**
   What is answered: UDP over IPv4 or IPv6 that carries a standard query (no response, operation code 0) with a
   question for an address of a host the patterns cover, if the buffer has room for the answer record.
   */
  lemma AnsweredIff(p: seq<Byte>, n: nat, domains: set<string>)
    requires n <= |p|
    ensures Decide(p, n, domains).Some? <==>
              || (n >= 28 && p[0] / 16 == 4 && p[9] == 17 && AnsweredAt(p, n, p[0] % 16 * 4 + 8, domains))
              || (n >= 60 && p[0] / 16 == 6 && p[6] == 17 && AnsweredAt(p, n, 48, domains))
  {
    hide ReadQuestion, Reply, DomainMatch.InterceptedBy, AsText, Lower;
    var s := p[..n];
    if UdpAt(s).Some? {
      var dns := UdpAt(s).value + 8;
      if ReadQuestion(s, dns + 12).Some? {
        ReadQuestionBounds(s, dns + 12);
        ReplySize(s, dns, ReadQuestion(s, dns + 12).value.end, A);
        ReplySize(s, dns, ReadQuestion(s, dns + 12).value.end, Aaaa);
      }
    }
  }

  predicate AnsweredAt(p: seq<Byte>, n: nat, dns: nat, domains: set<string>)
    requires n <= |p|
  {
    && dns + 12 <= n && p[dns + 2] < 8 && p[dns + 4] == 0 && p[dns + 5] > 0
    && match ReadQuestion(p[..n], dns + 12)
       case None => false
       case Some(question) =>
         && question.end <= n && question.qtype in {1, 28}
         && (exists d :: d in domains && DomainMatch.InterceptedBy(d, Lower(AsText(question.name))))
         && question.end + (if question.qtype == 1 then 16 else 28) <= |p|
  }

  lemma ReplyFlags(s: seq<Byte>, dns: nat, qend: nat, q: QType)
    requires dns + 12 <= qend <= |s|
    ensures |Reply(s, dns, qend, q)| >= qend - dns + 12 && Reply(s, dns, qend, q)[2] == 0x81
    ensures Reply(s, dns, qend, q)[0..2] == s[dns..dns + 2] && Reply(s, dns, qend, q)[12..qend - dns] == s[dns + 12..qend]
  {
    hide Word, Wide, Loopback;
    ReplyParts(s[dns..dns + 2], s[dns + 12..qend], Word(q.Code()), Wide(300), Word(q.AddressSize()), Loopback(q));
  }

  lemma ReplyParts(id: seq<Byte>, question: seq<Byte>, code: seq<Byte>, ttl: seq<Byte>, size: seq<Byte>, data: seq<Byte>)
    requires |id| == 2 && |code| == 2 && |ttl| == 4 && |size| == 2
    ensures var r := id + [0x81, 0x80, 0, 1, 0, 1, 0, 0, 0, 0] + question + [0xC0, 0x0C] + code + [0, 1] + ttl + size + data;
            |r| >= 12 + |question| + 12 && r[2] == 0x81 && r[0..2] == id && r[12..12 + |question|] == question
  {
    var head := id + [0x81, 0x80, 0, 1, 0, 1, 0, 0, 0, 0];
    var tail := [0xC0, 0x0C] + code + [0, 1] + ttl + size + data;
    ReplyTail(head, question, code, ttl, size, data);
    InFront(head, question, tail);
    assert head[2] == 0x81 && head[0..2] == id;
  }

  lemma InFront(head: seq<Byte>, question: seq<Byte>, tail: seq<Byte>)
    ensures var r := head + question + tail;
            r[|head|..|head| + |question|] == question
            && forall k, l :: 0 <= k <= l <= |head| ==> r[k..l] == head[k..l]
    ensures forall k :: 0 <= k < |head| ==> (head + question + tail)[k] == head[k]
  {}

  lemma ReplyTail(head: seq<Byte>, question: seq<Byte>, code: seq<Byte>, ttl: seq<Byte>, size: seq<Byte>, data: seq<Byte>)
    ensures head + question + [0xC0, 0x0C] + code + [0, 1] + ttl + size + data
         == head + question + ([0xC0, 0x0C] + code + [0, 1] + ttl + size + data)
  {}

  /** A second pass over a rewritten packet leaves it alone: it is marked as a response. */
  lemma SecondPassLeavesAlone(p: seq<Byte>, n: nat, domains: set<string>, others: set<string>)
    requires n <= |p| <= BUFFER_SIZE && Decide(p, n, domains).Some? && ProperHeader(Decide(p, n, domains).value)
    ensures var h := Decide(p, n, domains).value;
            Fits(p, h) && Decide(Rewritten(p, h), h.udp + 8 + |h.reply|, others) == None
  {
    hide Decide, Reply, Rewritten, V4Answer, V6Answer, UdpAnswer;
    DecidedReply(p, n, domains);
    var h := Decide(p, n, domains).value;
    RewriteAnswers(p, h);
    var r, end, dns := Rewritten(p, h), h.udp + 8 + |h.reply|, h.udp + 8;
    ReplyFlags(p[..n], dns, h.question.end, h.q);
    assert r[dns + 2] == r[dns..end][2] == 0x81;
    FirstByteKept(p, r, h);
    ResponseIsNotDecided(r, end, others, h.udp, p[..n]);
  }

  lemma FirstByteKept(p: seq<Byte>, r: seq<Byte>, h: Hit)
    requires Fits(p, h) && ProperHeader(h) && |r| == |p| && Answers(p, r, h)
    ensures r[0] == p[0]
  {
    hide Word, WordSum, Fold, UdpAnswer;
    if h.v6 {
      assert r[0] == r[0..4][0] && p[0] == p[0..4][0];
    } else {
      assert r[0] == r[0..2][0] && p[0] == p[0..2][0];
    }
  }

  lemma ResponseIsNotDecided(r: seq<Byte>, end: nat, domains: set<string>, udp: nat, s: seq<Byte>)
    requires udp + 20 <= end <= |r| && s != [] && s[0] == r[0] && UdpAt(s) == Some(udp) && r[udp + 8 + 2] >= 128
    ensures Decide(r, end, domains) == None
  {
    hide ReadQuestion, Reply, AsText;
    var t := r[..end];
    assert t[0] == r[0] && t[udp + 8 + 2] == r[udp + 8 + 2];
    SamePlace(t, s);
  }

  lemma SamePlace(t: seq<Byte>, s: seq<Byte>)
    requires t != [] && s != [] && t[0] == s[0] && UdpAt(s).Some?
    ensures UdpAt(t) == None || UdpAt(t) == UdpAt(s)
  {}

  lemma Nested(s: seq<Byte>, lo: nat, hi: nat, i: nat, j: nat)
    requires lo <= hi <= |s| && i <= j <= hi - lo
    ensures s[lo..hi][i..j] == s[lo + i..lo + j]
  {
    var a, b := s[lo..hi][i..j], s[lo + i..lo + j];
    assert forall k :: 0 <= k < j - i ==> a[k] == b[k];
  }

  /** The answer repeats the query's transaction id and question. */
  lemma AnswerRepeatsQuestion(p: seq<Byte>, n: nat, domains: set<string>)
    requires n <= |p| <= BUFFER_SIZE && Decide(p, n, domains).Some? && ProperHeader(Decide(p, n, domains).value)
    ensures var h := Decide(p, n, domains).value;
            var dns := h.udp + 8;
            && Fits(p, h) && dns + 12 <= h.question.end <= n <= |Rewritten(p, h)|
            && Rewritten(p, h)[dns..dns + 2] == p[dns..dns + 2]
            && Rewritten(p, h)[dns + 12..h.question.end] == p[dns + 12..h.question.end]
  {
    hide Decide, Reply, Rewritten, V4Answer, V6Answer, UdpAnswer, UdpAt, IsV6, ReadQuestion;
    DecidedReply(p, n, domains);
    var h := Decide(p, n, domains).value;
    RewriteAnswers(p, h);
    ReplyFlags(p[..n], h.udp + 8, h.question.end, h.q);
    RepeatedParts(p, Rewritten(p, h), n, h.udp + 8, h.question.end, h.reply);
  }

  lemma RepeatedParts(p: seq<Byte>, r: seq<Byte>, n: nat, dns: nat, qend: nat, reply: seq<Byte>)
    requires dns + 12 <= qend <= n <= |p| && qend - dns <= |reply| && dns + |reply| <= |r|
    requires r[dns..dns + |reply|] == reply
    requires reply[0..2] == p[..n][dns..dns + 2] && reply[12..qend - dns] == p[..n][dns + 12..qend]
    ensures r[dns..dns + 2] == p[dns..dns + 2] && r[dns + 12..qend] == p[dns + 12..qend]
  {
    var end := dns + |reply|;
    Nested(r, dns, end, 0, 2);
    Nested(r, dns, end, 12, qend - dns);
    assert p[..n][dns..dns + 2] == p[dns..dns + 2] && p[..n][dns + 12..qend] == p[dns + 12..qend];
  }

  /**
   A query this program writes itself, for a host the patterns cover, is recognised with exactly that host
   and type: sent over UDP it would be answered with this machine's own address.
   */
  lemma OwnQueryIsAnswered(p: seq<Byte>, udp: nat, host: seq<Byte>, id: nat, q: QType, domains: set<string>)
    requires id < 0x1_0000 && |p| <= BUFFER_SIZE
    requires udp + 8 + |Query(host, id, q)| + 28 <= |p|
    requires UdpAt(p[..udp + 8 + |Query(host, id, q)|]) == Some(udp)
    requires p[udp + 8..udp + 8 + |Query(host, id, q)|] == Query(host, id, q)
    requires forall k :: 0 <= k < |Split(host)| ==> Sized(Split(host)[k])
    requires DomainMatch.Intercepted(AsText(host), domains)
    ensures var n := udp + 8 + |Query(host, id, q)|;
            var hit := Decide(p, n, domains);
            && hit.Some? && hit.value.udp == udp && hit.value.q == q
            && hit.value.question == Question(host, q.Code(), n)
  {
    hide UdpAt, AsText, DomainMatch.Intercepted, Decide, Query, IsQuery, ReadQuestion, U16, Reply;
    var query := Query(host, id, q);
    var dns, n := udp + 8, udp + 8 + |query|;
    var s := p[..n];
    assert s[dns..] == query;
    QueryStarts(host, id, q);
    OwnQuestionReads(s, dns, host, id, q);
    assert IsQuery(s, dns) by { StandardQuery(s, dns); }
    ReplySize(s, dns, n, q);
    DecideIs(p, n, domains, udp, Question(host, q.Code(), n), q);
  }

  lemma OwnQuestionReads(s: seq<Byte>, dns: nat, host: seq<Byte>, id: nat, q: QType)
    requires id < 0x1_0000 && dns <= |s| && s[dns..] == Query(host, id, q)
    requires forall k :: 0 <= k < |Split(host)| ==> Sized(Split(host)[k])
    ensures ReadQuestion(s, dns + 12) == Some(Question(host, q.Code(), |s|))
  {
    hide LabelBytes, Split, Sized, ReadLabels, Query, QueryTail, U16;
    var query := Query(host, id, q);
    QuerySize(host, id, q);
    QueryFromName(host, id, q);
    QueryEnds(host, id, q);
    assert s[dns + 12..] == s[dns..][12..];
    JoinSplit(host);
    LabelsReadBack(s, dns + 12, Split(host), QueryTail(q));
    var end := |s| - 4;
    assert s[end] == s[dns..][|query| - 4] && s[end + 1] == s[dns..][|query| - 3];
  }

  lemma StandardQuery(s: seq<Byte>, dns: nat)
    requires dns + 12 <= |s| && s[dns..][2] == 1 && s[dns..][4] == 0 && s[dns..][5] == 1
    ensures IsQuery(s, dns)
  {}

  lemma DecideIs(p: seq<Byte>, n: nat, domains: set<string>, udp: nat, question: Question, q: QType)
    requires n <= |p| && UdpAt(p[..n]) == Some(udp) && udp + 20 <= n && IsQuery(p[..n], udp + 8)
    requires ReadQuestion(p[..n], udp + 20) == Some(question) && question.qtype == q.Code()
    requires DomainMatch.Intercepted(AsText(question.name), domains)
    requires udp + 20 <= question.end <= n && udp + 8 + |Reply(p[..n], udp + 8, question.end, q)| <= |p|
    ensures Decide(p, n, domains)
         == Some(Hit(IsV6(p[..n]), udp, question, q, Reply(p[..n], udp + 8, question.end, q)))
  {
    hide UdpAt, AsText, DomainMatch.Intercepted, IsQuery, ReadQuestion, Reply;
  }

  lemma QueryStarts(host: seq<Byte>, id: nat, q: QType)
    requires id < 0x1_0000
    ensures |Query(host, id, q)| >= 12 && Query(host, id, q)[2] == 1 && Query(host, id, q)[4] == 0 && Query(host, id, q)[5] == 1
  {
    hide LabelBytes, Split;
  }

  lemma QueryEnds(host: seq<Byte>, id: nat, q: QType)
    requires id < 0x1_0000
    ensures var query := Query(host, id, q);
            |query| >= 4 && U16(query[|query| - 4], query[|query| - 3]) == q.Code()
  {
    hide LabelBytes, Split;
    var query := Query(host, id, q);
    assert query[|query| - 4] == QueryTail(q)[0] && query[|query| - 3] == QueryTail(q)[1];
    WordReadsBack(q.Code());
  }

  lemma ReplySize(s: seq<Byte>, dns: nat, qend: nat, q: QType)
    requires dns + 12 <= qend <= |s|
    ensures |Reply(s, dns, qend, q)| == qend - dns + (if q == A then 16 else 28)
  {}

  /** The address flags of an answer: marked as injected, outbound only for loopback traffic, its own family, nothing else. */
  lemma FlagsOfAnswer(flags: bv8, v6: bool)
    ensures var r := NewFlags(flags, v6);
            && r & 0x08 != 0
            && (r & 0x02 != 0 <==> flags & 0x04 != 0)
            && (r & 0x10 != 0 <==> v6)
            && r & 0xE5 == flags & 0xE5
  {}
}
