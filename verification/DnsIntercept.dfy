/** The DNS interceptor's rewrite of a captured query, in place, into an answer naming this machine. */
module DnsIntercept {
  import opened Text
  import opened Bytes
  import opened Checksum
  import opened DnsCodec
  import DomainMatch

  const ADDR_FLAGS_OFF := 9
  const FLAG_OUTBOUND: bv8 := 0x02
  const FLAG_LOOPBACK: bv8 := 0x04
  const FLAG_IMPOSTOR: bv8 := 0x08
  const FLAG_IPV6: bv8 := 0x10
  const BUFFER_SIZE := 65_535

  function AsText(s: seq<Byte>): string {
    seq(|s|, i requires 0 <= i < |s| => s[i] as char)
  }

  // ---------------------------------------------------------------- which packets are answered

  predicate IsV6(s: seq<Byte>) {
    s != [] && s[0] / 16 == 6
  }

  /** Where the UDP header starts, for an IPv4 or IPv6 packet that carries UDP and room for a DNS header. */
  function UdpAt(s: seq<Byte>): Option<nat> {
    if s == [] then None
    else if s[0] / 16 == 4 then
      var ihl := s[0] % 16 * 4;
      if |s| < 28 || s[9] != 17 || |s| < ihl + 20 then None else Some(ihl)
    else if s[0] / 16 == 6 then
      if |s| < 60 || s[6] != 17 then None else Some(40)
    else None
  }

  /** A standard query with at least one question. */
  predicate IsQuery(s: seq<Byte>, dns: nat)
    requires dns + 12 <= |s|
  {
    s[dns + 2] < 128 && s[dns + 2] % 128 < 8 && s[dns + 4] == 0 && s[dns + 5] != 0
  }

  function Loopback(q: QType): seq<Byte> {
    if q == A then [127, 0, 0, 1] else [0, 0, 0, 0, 0, 0, 0, 0, 0, 0, 0, 0, 0, 0, 0, 1]
  }

  /** The answer to the question that ends at `qend`. */
  function Reply(s: seq<Byte>, dns: nat, qend: nat, q: QType): seq<Byte>
    requires dns + 12 <= qend <= |s|
  {
    s[dns..dns + 2] + [0x81, 0x80, 0, 1, 0, 1, 0, 0, 0, 0] + s[dns + 12..qend]
    + [0xC0, 0x0C] + Word(q.Code()) + [0, 1] + Wide(300) + Word(q.AddressSize()) + Loopback(q)
  }

  /** A packet to be answered: where its headers are, the question, and the payload that replaces it. */
  datatype Hit = Hit(v6: bool, udp: nat, question: Question, q: QType, reply: seq<Byte>)

  /** The packet in the first `n` bytes of the buffer, if it is a query to be answered and the answer fits. */
  function Decide(p: seq<Byte>, n: nat, domains: set<string>): Option<Hit>
    requires n <= |p|
  {
    var s := p[..n];
    if UdpAt(s) == None then None
    else
      var dns := UdpAt(s).value + 8;
      if !IsQuery(s, dns) then None
      else
        var question := ReadQuestion(s, dns + 12);
        if question == None || (question.value.qtype != 1 && question.value.qtype != 28) then None
        else if !DomainMatch.Intercepted(AsText(question.value.name), domains) then None
        else
          var q := if question.value.qtype == 1 then A else Aaaa;
          ReadQuestionBounds(s, dns + 12);
          var reply := Reply(s, dns, question.value.end, q);
          if dns + |reply| > |p| then None else Some(Hit(IsV6(s), UdpAt(s).value, question.value, q, reply))
  }

  lemma {:induction false} ReadLabelsBounds(s: seq<Byte>, i: nat)
    ensures ReadLabels(s, i).Some? ==> ReadLabels(s, i).value.1 >= i
    decreases |s| - i
  {
    if i < |s| && s[i] != 0 && i + 1 + s[i] <= |s| {
      ReadLabelsBounds(s, i + 1 + s[i]);
    }
  }

  lemma ReadQuestionBounds(s: seq<Byte>, i: nat)
    ensures ReadQuestion(s, i).Some? ==> i <= ReadQuestion(s, i).value.end <= |s|
  {
    ReadLabelsBounds(s, i);
  }

  // ---------------------------------------------------------------- the rewrite

  /** Room for the writes. The header length field itself is not checked beyond this. */
  predicate Fits(p: seq<Byte>, h: Hit) {
    && 28 <= |p| <= BUFFER_SIZE
    && h.udp + 8 + |h.reply| <= |p|
    && (h.v6 ==> h.udp == 40)
    && (!h.v6 ==> h.udp <= 60)
  }

  function Swapped(p: seq<Byte>, at: nat, size: nat): (r: seq<Byte>)
    requires at + 2 * size <= |p|
    ensures |r| == |p|
  {
    Put(p, at, p[at + size..at + 2 * size] + p[at..at + size])
  }

  /** IPv4: addresses swapped, total length and header checksum set. */
  function V4Header(p: seq<Byte>, total: nat, ihl: nat): (r: seq<Byte>)
    requires 20 <= |p| && ihl <= |p| && total < 0x1_0000
    ensures |r| == |p|
  {
    var zeroed := Put(Put(Swapped(p, 12, 4), 2, Word(total)), 10, [0, 0]);
    Put(zeroed, 10, Word(Checksum.Checksum(zeroed[..ihl])))
  }

  /** IPv6: addresses swapped, payload length set. */
  function V6Header(p: seq<Byte>, payload: nat): (r: seq<Byte>)
    requires 40 <= |p| && payload < 0x1_0000
    ensures |r| == |p|
  {
    Put(Swapped(p, 8, 16), 4, Word(payload))
  }

  /** UDP: ports swapped, length set, checksum left to the driver. */
  function UdpHeader(p: seq<Byte>, udp: nat, size: nat): (r: seq<Byte>)
    requires udp + 8 <= |p| && size < 0x1_0000
    ensures |r| == |p|
  {
    Put(Swapped(p, udp, 2), udp + 4, Word(size) + [0, 0])
  }

  function Rewritten(p: seq<Byte>, h: Hit): (r: seq<Byte>)
    requires Fits(p, h)
    ensures |r| == |p|
  {
    var answered := Put(p, h.udp + 8, h.reply);
    var addressed :=
      if h.v6 then V6Header(answered, |h.reply| + 8) else V4Header(answered, h.udp + 8 + |h.reply|, h.udp);
    UdpHeader(addressed, h.udp, |h.reply| + 8)
  }

  function NewFlags(flags: bv8, v6: bool): bv8 {
    var marked := flags | FLAG_IMPOSTOR;
    var directed := if flags & FLAG_LOOPBACK != 0 then marked | FLAG_OUTBOUND else marked & !FLAG_OUTBOUND;
    if v6 then directed | FLAG_IPV6 else directed & !FLAG_IPV6
  }

  lemma DecideFits(p: seq<Byte>, n: nat, domains: set<string>)
    requires n <= |p| <= BUFFER_SIZE
    ensures Decide(p, n, domains).Some? ==> Fits(p, Decide(p, n, domains).value)
  {
    hide Reply, ReadQuestion, AsText;
  }

  /**
   Answer the query in the first `n` bytes of `packet`, if it is one to be answered. Nothing changes
   otherwise. The buffer and the address are two exclusive borrows.
   */
  method ModifyDnsPacket(packet: array<Byte>, n: nat, addr: array<bv8>, domains: set<string>)
    returns (domain: Option<string>, n': nat)
    requires n <= packet.Length <= BUFFER_SIZE && packet as object != addr as object
    modifies packet, addr
    ensures var hit := Decide(old(packet[..]), n, domains);
            match hit
            case None => domain == None && n' == n && packet[..] == old(packet[..]) && addr[..] == old(addr[..])
            case Some(h) =>
              && domain == Some(AsText(h.question.name)) && n' == h.udp + 8 + |h.reply|
              && Fits(old(packet[..]), h) && packet[..] == Rewritten(old(packet[..]), h)
    ensures var hit := Decide(old(packet[..]), n, domains);
            hit.Some? ==> addr[..] == if addr.Length > 9
                                      then old(addr[..])[9 := NewFlags(old(addr[9]), hit.value.v6)]
                                      else old(addr[..])
  {
    hide Rewritten, Reply, AsText, ReadQuestion;
    domain, n' := None, n;
    DecideFits(packet[..], n, domains);
    var hit := FindQuery(packet, n, domains);
    if hit == None {
      return;
    }
    var h := hit.value;
    WritePayload(packet, h);
    n' := h.udp + 8 + |h.reply|;
    if addr.Length > ADDR_FLAGS_OFF {
      var flags := addr[ADDR_FLAGS_OFF];
      var newFlags := flags | FLAG_IMPOSTOR;
      if flags & FLAG_LOOPBACK != 0 {
        newFlags := newFlags | FLAG_OUTBOUND;
      } else {
        newFlags := newFlags & !FLAG_OUTBOUND;
      }
      if h.v6 {
        newFlags := newFlags | FLAG_IPV6;
      } else {
        newFlags := newFlags & !FLAG_IPV6;
      }
      addr[ADDR_FLAGS_OFF] := newFlags;
    }
    domain := Some(AsText(h.question.name));
  }

  method FindUdp(packet: array<Byte>, n: nat) returns (udp: Option<nat>)
    requires n <= packet.Length
    ensures udp == UdpAt(packet[..n])
  {
    if n < 1 {
      return None;
    }
    var version := packet[0] / 16;
    if version == 4 {
      if n < 28 || packet[9] != 17 {
        return None;
      }
      var ihl := packet[0] % 16 * 4;
      if n < ihl + 8 + 12 {
        return None;
      }
      return Some(ihl);
    }
    if version == 6 {
      if n < 60 || packet[6] != 17 {
        return None;
      }
      return Some(40);
    }
    udp := None;
  }

  /** The checks before the first write: headers, question, domain, room. */
  method FindQuery(packet: array<Byte>, n: nat, domains: set<string>) returns (hit: Option<Hit>)
    requires n <= packet.Length
    ensures hit == Decide(packet[..], n, domains)
  {
    hide Reply, AsText, DomainMatch.Intercepted, ReadQuestion;
    ghost var s := packet[..n];
    assert packet[..][..n] == s;
    var located := FindUdp(packet, n);
    if located == None {
      return None;
    }
    var udp := located.value;
    var dns := udp + 8;
    if packet[dns + 2] >= 128 || packet[dns + 2] % 128 >= 8 {
      return None;
    }
    if packet[dns + 4] != 0 || packet[dns + 5] == 0 {
      return None;
    }
    var question := ScanQuestion(packet, n, dns + 12);
    ReadQuestionBounds(s, dns + 12);
    if question == None || (question.value.qtype != 1 && question.value.qtype != 28) {
      return None;
    }
    if !DomainMatch.Intercepted(AsText(question.value.name), domains) {
      return None;
    }
    var q := if question.value.qtype == 1 then A else Aaaa;
    var reply := Reply(packet[..n], dns, question.value.end, q);
    if dns + |reply| > packet.Length {
      return None;
    }
    hit := Some(Hit(packet[0] / 16 == 6, udp, question.value, q, reply));
  }

  /** Collect the labels of the question name, then its type. */
  method ScanQuestion(packet: array<Byte>, n: nat, start: nat) returns (question: Option<Question>)
    requires n <= packet.Length
    ensures question == ReadQuestion(packet[..n], start)
  {
    ghost var s := packet[..n];
    var i := start;
    var labels: seq<seq<Byte>> := [];
    assert Prefixed([], ReadLabels(s, start)) == ReadLabels(s, start) by { NothingBefore(ReadLabels(s, start)); }
    while i < n
      invariant start <= i && Prefixed(labels, ReadLabels(s, i)) == ReadLabels(s, start)
      decreases n - i
    {
      var l := packet[i];
      if l == 0 {
        i := i + 1;
        assert Prefixed(labels, Some(([], i))) == ReadLabels(s, start);
        break;
      }
      i := i + 1;
      if i + l > n {
        return None;
      }
      PrefixOne(labels, s[i..i + l], ReadLabels(s, i + l));
      labels := labels + [packet[i..i + l]];
      assert packet[i..i + l] == s[i..i + l];
      i := i + l;
    }
    assert ReadLabels(s, start) == Some((labels, i)) by { assert labels + [] == labels; }
    if labels == [] || i + 4 > n {
      return None;
    }
    question := Some(Question(Join(labels), U16(packet[i], packet[i + 1]), i + 4));
  }

  function Prefixed(before: seq<seq<Byte>>, r: Option<(seq<seq<Byte>>, nat)>): Option<(seq<seq<Byte>>, nat)> {
    if r == None then None else Some((before + r.value.0, r.value.1))
  }

  lemma NothingBefore(r: Option<(seq<seq<Byte>>, nat)>)
    ensures Prefixed([], r) == r
  {
    if r.Some? { assert [] + r.value.0 == r.value.0; }
  }

  lemma PrefixOne(before: seq<seq<Byte>>, part: seq<Byte>, r: Option<(seq<seq<Byte>>, nat)>)
    ensures Prefixed(before, Prefixed([part], r)) == Prefixed(before + [part], r)
  {
    if r.Some? { assert before + ([part] + r.value.0) == before + [part] + r.value.0; }
  }

  /** Payload, IP header and UDP header, in this order. */
  method WritePayload(packet: array<Byte>, h: Hit)
    requires Fits(packet[..], h)
    modifies packet
    ensures packet[..] == Rewritten(old(packet[..]), h)
  {
    hide Put, V4Header, V6Header, UdpHeader, Word;
    CopyInto(packet, h.udp + 8, h.reply);
    if h.v6 {
      WriteV6Header(packet, |h.reply| + 8);
    } else {
      WriteV4Header(packet, h.udp + 8 + |h.reply|, h.udp);
    }
    WriteUdpHeader(packet, h.udp, |h.reply| + 8);
  }

  method SwapFields(packet: array<Byte>, at: nat, size: nat)
    requires at + 2 * size <= packet.Length
    modifies packet
    ensures packet[..] == Swapped(old(packet[..]), at, size)
  {
    hide Put;
    var first, second := packet[at..at + size], packet[at + size..at + 2 * size];
    assert packet[..][at..at + size] == first && packet[..][at + size..at + 2 * size] == second;
    PutTwice(packet[..], at, second, first);
    CopyInto(packet, at, second);
    CopyInto(packet, at + size, first);
  }

  method WriteV4Header(packet: array<Byte>, total: nat, ihl: nat)
    requires 20 <= packet.Length && ihl <= packet.Length && ihl <= 60 && total < 0x1_0000
    modifies packet
    ensures packet[..] == V4Header(old(packet[..]), total, ihl)
  {
    hide Put, Swapped, Word, Checksum.Checksum;
    SwapFields(packet, 12, 4);
    CopyInto(packet, 2, Word(total));
    CopyInto(packet, 10, [0, 0]);
    var checksum := IpChecksum(packet[..ihl]);
    assert packet[..][..ihl] == packet[..ihl];
    CopyInto(packet, 10, Word(checksum));
  }

  method WriteV6Header(packet: array<Byte>, payload: nat)
    requires 40 <= packet.Length && payload < 0x1_0000
    modifies packet
    ensures packet[..] == V6Header(old(packet[..]), payload)
  {
    hide Put, Swapped, Word;
    SwapFields(packet, 8, 16);
    CopyInto(packet, 4, Word(payload));
  }

  method WriteUdpHeader(packet: array<Byte>, udp: nat, size: nat)
    requires udp + 8 <= packet.Length && size < 0x1_0000
    modifies packet
    ensures packet[..] == UdpHeader(old(packet[..]), udp, size)
  {
    hide Put, Swapped, Word;
    SwapFields(packet, udp, 2);
    PutTwice(packet[..], udp + 4, Word(size), [0, 0]);
    CopyInto(packet, udp + 4, Word(size));
    CopyInto(packet, udp + 6, [0, 0]);
  }
}
